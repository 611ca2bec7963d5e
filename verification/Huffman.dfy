/** Huffman code lengths as df_lengths computes them: what the tree is, what its depths
    satisfy, and why halving the counts ends. The arrays that build it are in
    CodeLengths. */
module Huffman {
  import opened Bits
  import opened Canonical

  datatype Tree = Leaf(sym: nat, w: nat) | Node(left: Tree, right: Tree) {
    function Weight(): nat {
      if Leaf? then w else left.Weight() + right.Weight()
    }

    function Height(): nat {
      if Leaf? then 0 else 1 + Max(left.Height(), right.Height())
    }

    /** The number of nodes. */
    function Size(): (n: nat)
      ensures n >= 1
    {
      if Leaf? then 1 else 1 + left.Size() + right.Size()
    }

    function Syms(): set<nat> {
      if Leaf? then {sym} else left.Syms() + right.Syms()
    }

    /** All symbols are below `n`. */
    predicate Below(n: nat) {
      if Leaf? then sym < n else left.Below(n) && right.Below(n)
    }

    /** Each symbol is on one leaf only. */
    ghost predicate Distinct() {
      Node? ==> left.Distinct() && right.Distinct() && left.Syms() !! right.Syms()
    }

    /** The total weight of the inner nodes: the count times depth, summed over the leaves. */
    function Inner(): nat {
      if Leaf? then 0 else Weight() + left.Inner() + right.Inner()
    }

    /** The weight of the heavier child. */
    function Heavier(): nat {
      if Leaf? then 0 else Max(left.Weight(), right.Weight())
    }

    /** Everywhere in the tree, no child of a node outweighs the node's sibling. */
    ghost predicate Siblings() {
      Node? ==>
        && left.Siblings() && right.Siblings()
        && left.Heavier() <= right.Weight() && right.Heavier() <= left.Weight()
    }

    ghost predicate LeavesPositive() {
      if Leaf? then w >= 1 else left.LeavesPositive() && right.LeavesPositive()
    }
  }

  function Max(a: nat, b: nat): nat { if a >= b then a else b }

  function Fib(n: nat): nat {
    if n < 2 then n else Fib(n - 1) + Fib(n - 2)
  }

  // ---- the forest, in the order df_lengths' heap array keeps it ----

  function Leaves(f: seq<nat>): seq<Tree> {
    if f == [] then []
    else
      var n := |f| - 1;
      Leaves(f[..n]) + (if f[n] > 0 then [Leaf(n, f[n])] else [])
  }

  /** The first of the lightest trees among the first `k`. */
  function Lightest(t: seq<Tree>, k: nat): (i: nat)
    requires 1 <= k <= |t|
    ensures i < k
    ensures forall j :: 0 <= j < k ==> t[i].Weight() <= t[j].Weight()
  {
    if k == 1 then 0
    else
      var i := Lightest(t, k - 1);
      if t[k - 1].Weight() < t[i].Weight() then k - 1 else i
  }

  /** Entry `i` taken out, the last entry moved into its place. */
  function Drop<T>(s: seq<T>, i: nat): (r: seq<T>)
    requires i < |s|
    ensures |r| == |s| - 1
  {
    s[i := s[|s| - 1]][..|s| - 1]
  }

  function Merge(t: seq<Tree>): (r: seq<Tree>)
    requires |t| >= 2
    ensures |r| == |t| - 1
  {
    var ia := Lightest(t, |t|);
    var t' := Drop(t, ia);
    var ib := Lightest(t', |t'|);
    Drop(t', ib) + [Node(t[ia], t'[ib])]
  }

  function Build(t: seq<Tree>): Tree
    requires |t| >= 1
    decreases |t|
  {
    if |t| == 1 then t[0] else Build(Merge(t))
  }

  function Zeros(n: nat): (z: seq<nat>)
    ensures |z| == n && forall i :: 0 <= i < n ==> z[i] == 0
  {
    seq(n, _ => 0)
  }

  /** What is stored for a leaf at depth `d`, in a byte. */
  function Stored(d: nat): nat {
    if d == 0 then 1 else d % 256
  }

  /** `len` with every leaf's depth written at its symbol. */
  function Assign(t: Tree, d: nat, len: seq<nat>): (r: seq<nat>)
    requires t.Below(|len|)
    ensures |r| == |len|
    decreases t
  {
    match t
    case Leaf(s, _) => len[s := Stored(d)]
    case Node(l, r) => Assign(l, d + 1, Assign(r, d + 1, len))
  }

  function Halve(f: seq<nat>): (r: seq<nat>)
    ensures |r| == |f|
    ensures forall i :: 0 <= i < |f| ==> r[i] == (f[i] + 1) / 2
  {
    seq(|f|, i requires 0 <= i < |f| => (f[i] + 1) / 2)
  }

  function Sum(f: seq<nat>): nat {
    if f == [] then 0 else Sum(f[..|f| - 1]) + f[|f| - 1]
  }

  // ---- what every forest the loop reaches keeps ----

  ghost predicate Forest(t: seq<Tree>) {
    && (forall i :: 0 <= i < |t| ==> t[i].Distinct() && t[i].Siblings() && t[i].LeavesPositive())
    && (forall i, j :: 0 <= i < |t| && 0 <= j < |t| && i != j ==>
          t[i].Syms() !! t[j].Syms() && t[i].Heavier() <= t[j].Weight())
  }

  /** Symbol `s` is on some tree of the forest. */
  ghost predicate InSome(t: seq<Tree>, s: nat) {
    exists i :: 0 <= i < |t| && s in t[i].Syms()
  }

  ghost function Total(t: seq<Tree>, g: Tree -> nat): nat {
    if t == [] then 0 else Total(t[..|t| - 1], g) + g(t[|t| - 1])
  }

  function Weight(t: Tree): nat { t.Weight() }
  function Inner(t: Tree): nat { t.Inner() }
  function Size(t: Tree): nat { t.Size() }

  lemma {:induction false} TotalUpdate(t: seq<Tree>, i: nat, u: Tree, g: Tree -> nat)
    requires i < |t|
    ensures Total(t[i := u], g) == Total(t, g) - g(t[i]) + g(u)
  {
    var n := |t| - 1;
    if i == n {
      assert t[i := u][..n] == t[..n];
    } else {
      TotalUpdate(t[..n], i, u, g);
      assert t[i := u][..n] == t[..n][i := u];
    }
  }

  lemma {:induction false} TotalSnoc(t: seq<Tree>, u: Tree, g: Tree -> nat)
    ensures Total(t + [u], g) == Total(t, g) + g(u)
  {
    assert (t + [u])[..|t|] == t;
  }

  lemma {:induction false} TotalDrop(t: seq<Tree>, i: nat, g: Tree -> nat)
    requires i < |t|
    ensures Total(Drop(t, i), g) == Total(t, g) - g(t[i])
  {
    TotalUpdate(t, i, t[|t| - 1], g);
  }

  /** What one merge does to any total over the forest. */
  lemma {:induction false} TotalMerge(t: seq<Tree>, g: Tree -> nat)
    requires |t| >= 2
    ensures var u := Merge(t)[|t| - 2];
            u.Node? && Total(Merge(t), g) == Total(t, g) - g(u.left) - g(u.right) + g(u)
  {
    var ia := Lightest(t, |t|);
    var t' := Drop(t, ia);
    var ib := Lightest(t', |t'|);
    TotalDrop(t, ia, g);
    TotalDrop(t', ib, g);
    TotalSnoc(Drop(t', ib), Node(t[ia], t'[ib]), g);
  }

  lemma {:induction false} DropSome(t: seq<Tree>, i: nat, s: nat)
    requires i < |t|
    ensures InSome(t, s) <==> s in t[i].Syms() || InSome(Drop(t, i), s)
  {
    var r, n := Drop(t, i), |t| - 1;
    forall j | 0 <= j < n
      ensures r[j] == t[if j == i then n else j]
    {
    }
    if j :| 0 <= j < |t| && s in t[j].Syms() {
      if j < n && j != i { assert s in r[j].Syms(); }
      if j == n && i != n { assert s in r[i].Syms(); }
    }
    if j :| 0 <= j < n && s in r[j].Syms() {
      assert s in t[if j == i then n else j].Syms();
    }
  }

  lemma {:induction false} MergeSome(t: seq<Tree>, s: nat)
    requires |t| >= 2
    ensures InSome(Merge(t), s) <==> InSome(t, s)
  {
    var ia := Lightest(t, |t|);
    var t' := Drop(t, ia);
    var ib := Lightest(t', |t'|);
    var r, u := Drop(t', ib), Node(t[ia], t'[ib]);
    DropSome(t, ia, s);
    DropSome(t', ib, s);
    assert Merge(t) == r + [u];
    if j :| 0 <= j < |r| && s in r[j].Syms() { assert s in Merge(t)[j].Syms(); }
    if s in u.Syms() { assert s in Merge(t)[|r|].Syms(); }
  }

  lemma {:induction false} DropForest(t: seq<Tree>, i: nat)
    requires Forest(t) && i < |t|
    ensures Forest(Drop(t, i))
    ensures forall j :: 0 <= j < |t| - 1 ==>
              t[i].Syms() !! Drop(t, i)[j].Syms() && t[i].Heavier() <= Drop(t, i)[j].Weight()
    ensures forall j :: 0 <= j < |t| - 1 ==> Drop(t, i)[j].Heavier() <= t[i].Weight()
    ensures forall j :: 0 <= j < |t| - 1 ==> Drop(t, i)[j] in t
  {
    var r := Drop(t, i);
    forall j | 0 <= j < |r|
      ensures r[j] == t[if j == i then |t| - 1 else j]
    {
    }
  }

  lemma {:induction false} MergeForest(t: seq<Tree>)
    requires Forest(t) && |t| >= 2
    ensures Forest(Merge(t))
  {
    var ia := Lightest(t, |t|);
    var t' := Drop(t, ia);
    var ib := Lightest(t', |t'|);
    DropForest(t, ia);
    DropForest(t', ib);
    var r, a, b := Drop(t', ib), t[ia], t'[ib];
    var u := Node(a, b);
    assert b in t;
    assert a.Weight() <= b.Weight();
    forall j | 0 <= j < |r|
      ensures u.Syms() !! r[j].Syms()
      ensures u.Heavier() <= r[j].Weight() && r[j].Heavier() <= u.Weight()
    {
      assert r[j] in t';
    }
  }

  /** The finished tree keeps what the forest kept. */
  lemma {:induction false} BuildForest(t: seq<Tree>)
    requires Forest(t) && |t| >= 1
    ensures Build(t).Distinct() && Build(t).Siblings() && Build(t).LeavesPositive()
    ensures |t| >= 2 ==> Build(t).Node?
    decreases |t|
  {
    if |t| >= 2 {
      MergeForest(t);
      BuildForest(Merge(t));
    }
  }

  lemma {:induction false} BuildSyms(t: seq<Tree>, s: nat)
    requires |t| >= 1
    ensures s in Build(t).Syms() <==> InSome(t, s)
    decreases |t|
  {
    if |t| >= 2 {
      MergeSome(t, s);
      BuildSyms(Merge(t), s);
    }
  }

  lemma {:induction false} BuildTotals(t: seq<Tree>)
    requires |t| >= 1
    ensures Build(t).Weight() == Total(t, Weight)
    ensures Build(t).Size() == Total(t, Size) + |t| - 1
    decreases |t|
  {
    if |t| == 1 {
      assert t[..0] == [];
    } else {
      TotalMerge(t, Weight);
      TotalMerge(t, Size);
      BuildTotals(Merge(t));
    }
  }

  /** The starting forest: one leaf per used symbol, in increasing order. */
  lemma {:induction false} LeavesShape(f: seq<nat>)
    ensures |Leaves(f)| <= |f|
    ensures forall i :: 0 <= i < |Leaves(f)| ==>
              var t := Leaves(f)[i]; t.Leaf? && t.sym < |f| && t.w == f[t.sym] > 0
    ensures forall i, j :: 0 <= i < j < |Leaves(f)| ==> Leaves(f)[i].sym < Leaves(f)[j].sym
  {
    if f != [] { LeavesShape(f[..|f| - 1]); }
  }

  lemma {:induction false} LeavesForest(f: seq<nat>)
    ensures Forest(Leaves(f))
  {
    LeavesShape(f);
  }

  lemma {:induction false} LeavesSome(f: seq<nat>, s: nat)
    ensures InSome(Leaves(f), s) <==> s < |f| && f[s] > 0
  {
    LeavesShape(f);
    if f != [] {
      var n := |f| - 1;
      var l := Leaves(f[..n]);
      LeavesSome(f[..n], s);
      if i :| 0 <= i < |l| && s in l[i].Syms() { assert s in Leaves(f)[i].Syms(); }
      if s == n && f[n] > 0 { assert s in Leaves(f)[|l|].Syms(); }
    }
  }

  lemma {:induction false} LeavesTotals(f: seq<nat>)
    ensures Total(Leaves(f), Weight) == Sum(f)
    ensures Total(Leaves(f), Inner) == 0
    ensures Total(Leaves(f), Size) == |Leaves(f)|
  {
    if f != [] {
      var n := |f| - 1;
      LeavesTotals(f[..n]);
      if f[n] > 0 {
        TotalSnoc(Leaves(f[..n]), Leaf(n, f[n]), Weight);
        TotalSnoc(Leaves(f[..n]), Leaf(n, f[n]), Inner);
        TotalSnoc(Leaves(f[..n]), Leaf(n, f[n]), Size);
      } else {
        assert Leaves(f) == Leaves(f[..n]);
      }
    }
  }

  // ---- Fibonacci: a deep leaf needs a heavy tree ----

  /** A tree whose deepest leaf is at depth `d` weighs at least Fib(d + 2), and its heavier
      child at least Fib(d + 1). */
  lemma {:induction false} HeightFib(t: Tree)
    requires t.Siblings() && t.LeavesPositive()
    ensures t.Weight() >= Fib(t.Height() + 2)
    ensures t.Node? ==> t.Heavier() >= Fib(t.Height() + 1)
  {
    match t
    case Leaf(_, _) =>
    case Node(l, r) =>
      HeightFib(l);
      HeightFib(r);
      if l.Height() >= r.Height() { Taller(l, r); } else { Taller(r, l); }
      assert t.Height() == 1 + Max(l.Height(), r.Height());
      assert Fib(t.Height() + 2) == Fib(t.Height() + 1) + Fib(t.Height());
  }

  /** The sibling of the taller child is as heavy as that child's own heavier child. */
  lemma {:induction false} Taller(x: Tree, y: Tree)
    requires x.Height() >= y.Height() && y.LeavesPositive()
    requires x.Heavier() <= y.Weight()
    requires x.Node? ==> x.Heavier() >= Fib(x.Height() + 1)
    ensures y.Weight() >= Fib(x.Height() + 1)
  {
    if x.Leaf? {
      assert x.Height() == 0 && Fib(1) == 1;
    }
  }

  lemma {:induction false} FibMono(m: nat, n: nat)
    requires m <= n
    ensures Fib(m) <= Fib(n)
  {
    if m < n {
      FibMono(m, n - 1);
      if n == 1 { assert Fib(0) <= Fib(1); }
    }
  }

  lemma {:induction false} SumSmall(f: seq<nat>)
    requires forall i :: 0 <= i < |f| ==> f[i] <= 1
    ensures Sum(f) <= |f|
  {
    if f != [] { SumSmall(f[..|f| - 1]); }
  }

  lemma {:induction false} HalveShrinks(f: seq<nat>)
    ensures Sum(Halve(f)) <= Sum(f)
    ensures (exists i :: 0 <= i < |f| && f[i] >= 2) ==> Sum(Halve(f)) < Sum(f)
  {
    if f != [] {
      var n := |f| - 1;
      HalveShrinks(f[..n]);
      assert Halve(f)[..n] == Halve(f[..n]);
      if i :| 0 <= i < |f| && f[i] >= 2 {
        if i < n { assert f[..n][i] >= 2; }
      }
    }
  }

  /** The number of symbols used. */
  function Used(f: seq<nat>): nat { |Leaves(f)| }

  /** The tree for counts `f`. */
  function TreeOf(f: seq<nat>): Tree
    requires Used(f) >= 1
  {
    Build(Leaves(f))
  }

  /** A tree too deep means some count is at least two, so halving makes progress. */
  lemma {:induction false} OverShrinks(f: seq<nat>, maxlen: nat)
    requires Used(f) >= 2 && |f| < Fib(maxlen + 3)
    requires TreeOf(f).Height() > maxlen
    ensures Sum(Halve(f)) < Sum(f)
  {
    TreeProps(f);
    HeightFib(TreeOf(f));
    FibMono(maxlen + 3, TreeOf(f).Height() + 2);
    HalveShrinks(f);
    if forall i :: 0 <= i < |f| ==> f[i] <= 1 { SumSmall(f); }
  }

  lemma {:induction false} TreeProps(f: seq<nat>)
    requires Used(f) >= 1
    ensures TreeOf(f).Distinct() && TreeOf(f).Siblings() && TreeOf(f).LeavesPositive()
    ensures Used(f) >= 2 ==> TreeOf(f).Node?
    ensures TreeOf(f).Weight() == Sum(f)
    ensures TreeOf(f).Size() == 2 * Used(f) - 1
  {
    LeavesForest(f);
    LeavesTotals(f);
    BuildForest(Leaves(f));
    BuildTotals(Leaves(f));
  }

  lemma {:induction false} TreeSyms(f: seq<nat>, s: nat)
    requires Used(f) >= 1
    ensures s in TreeOf(f).Syms() <==> s < |f| && f[s] > 0
  {
    LeavesSome(f, s);
    BuildSyms(Leaves(f), s);
  }

  lemma {:induction false} BelowAll(t: Tree, n: nat)
    requires forall s :: s in t.Syms() ==> s < n
    ensures t.Below(n)
  {
    match t
    case Leaf(s, _) => assert s in t.Syms();
    case Node(l, r) =>
      assert t.Syms() == l.Syms() + r.Syms();
      BelowAll(l, n);
      BelowAll(r, n);
  }

  lemma {:induction false} TreeBelow(f: seq<nat>)
    requires Used(f) >= 1
    ensures TreeOf(f).Below(|f|)
  {
    forall s: nat ensures s in TreeOf(f).Syms() ==> s < |f| { TreeSyms(f, s); }
    BelowAll(TreeOf(f), |f|);
  }

  /** The code lengths for counts `f`, none above `maxlen`. The bound on `|f|` is what
      makes the retry end: with all counts halved down to one, no leaf can be too deep. */
  function Lengths(f: seq<nat>, maxlen: nat): (len: seq<nat>)
    requires |f| < Fib(maxlen + 3)
    ensures |len| == |f|
    decreases Sum(f)
  {
    if Used(f) == 0 then Zeros(|f|)
    else if Used(f) == 1 then
      LeavesShape(f);
      Zeros(|f|)[Leaves(f)[0].sym := 1]
    else if TreeOf(f).Height() <= maxlen then
      TreeBelow(f);
      Assign(TreeOf(f), 0, Zeros(|f|))
    else
      OverShrinks(f, maxlen);
      Lengths(Halve(f), maxlen)
  }

  // ---- what the assigned lengths satisfy ----

  lemma {:induction false} AssignFrame(t: Tree, d: nat, len: seq<nat>, s: nat)
    requires t.Below(|len|) && s < |len| && s !in t.Syms()
    ensures Assign(t, d, len)[s] == len[s]
    decreases t
  {
    match t
    case Leaf(_, _) =>
    case Node(l, r) =>
      AssignFrame(r, d + 1, len, s);
      AssignFrame(l, d + 1, Assign(r, d + 1, len), s);
  }

  /** Symbols of the tree get a length between 1 and the tree's reach. */
  lemma {:induction false} AssignRange(t: Tree, d: nat, len: seq<nat>, s: nat)
    requires t.Below(|len|) && s < |len| && s in t.Syms()
    requires d + t.Height() <= 255 && (d > 0 || t.Node?)
    ensures 1 <= Assign(t, d, len)[s] <= d + t.Height()
    decreases t
  {
    match t
    case Leaf(_, _) =>
    case Node(l, r) =>
      var len' := Assign(r, d + 1, len);
      if s in l.Syms() {
        AssignRange(l, d + 1, len', s);
      } else {
        AssignRange(r, d + 1, len, s);
        AssignFrame(l, d + 1, len', s);
      }
  }

  lemma {:induction false} KraftUpdate(len: seq<nat>, s: nat, v: nat, n: nat)
    requires s < |len|
    ensures KraftSum(len[s := v], n) == KraftSum(len, n) - Share(len[s], n) + Share(v, n)
  {
    var k := |len| - 1;
    if s == k {
      assert len[s := v][..k] == len[..k];
    } else {
      KraftUpdate(len[..k], s, v, n);
      assert len[s := v][..k] == len[..k][s := v];
    }
  }

  lemma {:induction false} KraftZeros(k: nat, n: nat)
    ensures KraftSum(Zeros(k), n) == 0
  {
    if k != 0 {
      KraftZeros(k - 1, n);
      assert Zeros(k)[..k - 1] == Zeros(k - 1);
    }
  }

  /** The leaves below a node at depth `d` together fill exactly the node's own share. */
  lemma {:induction false} AssignKraft(t: Tree, d: nat, len: seq<nat>, n: nat)
    requires t.Below(|len|) && forall s :: s in t.Syms() && s < |len| ==> len[s] == 0
    requires t.Distinct() && d + t.Height() <= n <= 255 && (d > 0 || t.Node?)
    ensures KraftSum(Assign(t, d, len), n) == KraftSum(len, n) + Pow2(n - d)
    decreases t
  {
    match t
    case Leaf(s, _) =>
      assert s in t.Syms();
      KraftUpdate(len, s, d, n);
    case Node(l, r) =>
      assert t.Syms() == l.Syms() + r.Syms();
      AssignKraft(r, d + 1, len, n);
      var len' := Assign(r, d + 1, len);
      forall s | s in l.Syms() && s < |len| ensures len'[s] == 0 { AssignFrame(r, d + 1, len, s); }
      AssignKraft(l, d + 1, len', n);
  }

  /** A symbol is used exactly when it gets a length; no length passes `maxlen`. */
  ghost predicate Covers(f: seq<nat>, len: seq<nat>, maxlen: nat) {
    && |len| == |f|
    && forall s :: 0 <= s < |f| ==> (len[s] > 0 <==> f[s] > 0) && len[s] <= maxlen
  }

  lemma {:induction false} FirstTreeCovers(f: seq<nat>, maxlen: nat)
    requires Used(f) >= 2 && maxlen <= 255 && TreeOf(f).Height() <= maxlen
    requires TreeOf(f).Below(|f|)
    ensures Covers(f, Assign(TreeOf(f), 0, Zeros(|f|)), maxlen)
  {
    var t, z := TreeOf(f), Zeros(|f|);
    TreeProps(f);
    var r := Assign(t, 0, z);
    forall s | 0 <= s < |f|
      ensures (r[s] > 0 <==> f[s] > 0) && r[s] <= maxlen
    {
      TreeSyms(f, s);
      if f[s] > 0 { AssignRange(t, 0, z, s); } else { AssignFrame(t, 0, z, s); }
    }
  }

  lemma {:induction false} FirstTreeKraft(f: seq<nat>, maxlen: nat)
    requires Used(f) >= 2 && maxlen <= 255 && TreeOf(f).Height() <= maxlen
    requires TreeOf(f).Below(|f|)
    ensures KraftSum(Assign(TreeOf(f), 0, Zeros(|f|)), maxlen) == Pow2(maxlen)
  {
    TreeProps(f);
    AssignKraft(TreeOf(f), 0, Zeros(|f|), maxlen);
    KraftZeros(|f|, maxlen);
  }

  lemma {:induction false} OnlyLeaf(f: seq<nat>)
    requires Used(f) == 1
    ensures Leaves(f)[0].Leaf?
    ensures forall s :: 0 <= s < |f| ==> (f[s] > 0 <==> s == Leaves(f)[0].sym)
  {
    LeavesShape(f);
    forall s | 0 <= s < |f|
      ensures f[s] > 0 <==> s == Leaves(f)[0].sym
    {
      LeavesSome(f, s);
      assert s == Leaves(f)[0].sym <==> s in Leaves(f)[0].Syms();
    }
  }

  lemma {:induction false} NoLeaf(f: seq<nat>)
    requires Used(f) == 0
    ensures forall s :: 0 <= s < |f| ==> f[s] == 0
  {
    forall s | 0 <= s < |f| ensures f[s] == 0 { LeavesSome(f, s); }
  }

  lemma {:induction false} HalveUsed(f: seq<nat>)
    ensures Used(Halve(f)) == Used(f)
  {
    if f != [] {
      var n := |f| - 1;
      HalveUsed(f[..n]);
      assert Halve(f)[..n] == Halve(f[..n]);
    }
  }

  /** The lengths always cover the symbols used, stay within `maxlen`, and with two or more
      symbols make a complete code: Kraft's sum is exactly one. */
  lemma {:induction false} LengthsComplete(f: seq<nat>, maxlen: nat)
    requires 1 <= maxlen <= 255 && |f| < Fib(maxlen + 3)
    ensures Covers(f, Lengths(f, maxlen), maxlen)
    ensures Used(f) >= 2 ==> KraftSum(Lengths(f, maxlen), maxlen) == Pow2(maxlen)
    ensures Used(f) == 1 ==> KraftSum(Lengths(f, maxlen), maxlen) == Pow2(maxlen - 1)
    decreases Sum(f)
  {
    if Used(f) == 0 {
      NoLeaf(f);
    } else if Used(f) == 1 {
      OnlyLeaf(f);
      LeavesShape(f);
      KraftZeros(|f|, maxlen);
      KraftUpdate(Zeros(|f|), Leaves(f)[0].sym, 1, maxlen);
    } else if TreeOf(f).Height() <= maxlen {
      TreeBelow(f);
      FirstTreeCovers(f, maxlen);
      FirstTreeKraft(f, maxlen);
    } else {
      OverShrinks(f, maxlen);
      HalveUsed(f);
      LengthsComplete(Halve(f), maxlen);
    }
  }
}
