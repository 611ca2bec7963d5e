/** Huffman's theorem for df_lengths: when the first tree is shallow enough to keep, no
    other code lengths for the same symbols cost fewer bits. */
module Optimality {
  import opened Bits
  import opened Canonical
  import opened Huffman

  /** The sum of count times length: the bits a block's symbols take. */
  function Dot(w: seq<nat>, g: seq<nat>): nat
    requires |w| == |g|
  {
    if w == [] then 0 else Dot(w[..|w| - 1], g[..|g| - 1]) + w[|w| - 1] * g[|g| - 1]
  }

  /** The d-bit patterns taken by code words of the lengths `g`, zero being the empty word. */
  function Fill(g: seq<nat>, d: nat): nat {
    if g == [] then 0 else Fill(g[..|g| - 1], d) + Part(g[|g| - 1], d)
  }

  function Part(l: nat, d: nat): nat {
    if l <= d then Pow2(d - l) else 0
  }

  ghost predicate AtMost(g: seq<nat>, d: nat) {
    forall i :: 0 <= i < |g| ==> g[i] <= d
  }

  lemma {:induction false} DotUpdate(w: seq<nat>, g: seq<nat>, i: nat, a: nat, b: nat)
    requires i < |w| == |g|
    ensures Dot(w[i := a], g[i := b]) == Dot(w, g) - w[i] * g[i] + a * b
  {
    var n := |w| - 1;
    if i == n {
      assert w[i := a][..n] == w[..n] && g[i := b][..n] == g[..n];
    } else {
      DotUpdate(w[..n], g[..n], i, a, b);
      assert w[i := a][..n] == w[..n][i := a] && g[i := b][..n] == g[..n][i := b];
    }
  }

  lemma {:induction false} FillUpdate(g: seq<nat>, i: nat, v: nat, d: nat)
    requires i < |g|
    ensures Fill(g[i := v], d) == Fill(g, d) - Part(g[i], d) + Part(v, d)
  {
    var n := |g| - 1;
    if i == n {
      assert g[i := v][..n] == g[..n];
    } else {
      FillUpdate(g[..n], i, v, d);
      assert g[i := v][..n] == g[..n][i := v];
    }
  }

  lemma {:induction false} DotDrop(w: seq<nat>, g: seq<nat>, i: nat)
    requires i < |w| == |g|
    ensures Dot(Drop(w, i), Drop(g, i)) == Dot(w, g) - w[i] * g[i]
  {
    DotUpdate(w, g, i, w[|w| - 1], g[|g| - 1]);
  }

  lemma {:induction false} FillDrop(g: seq<nat>, i: nat, d: nat)
    requires i < |g|
    ensures Fill(Drop(g, i), d) == Fill(g, d) - Part(g[i], d)
  {
    FillUpdate(g, i, g[|g| - 1], d);
  }

  // ---- two longest words ----

  lemma {:induction false} FillHalf(g: seq<nat>, d: nat)
    requires d >= 1 && AtMost(g, d)
    ensures Fill(g, d) == 2 * Fill(g, d - 1) + Count(g, d)
  {
    if g != [] {
      FillHalf(g[..|g| - 1], d);
    }
  }

  lemma {:induction false} FillZero(g: seq<nat>)
    requires AtMost(g, 0)
    ensures Fill(g, 0) == |g|
  {
    if g != [] { FillZero(g[..|g| - 1]); }
  }

  lemma {:induction false} SomeAt(g: seq<nat>, d: nat) returns (m: nat)
    requires Count(g, d) >= 1
    ensures m < |g| && g[m] == d
    ensures forall i :: m < i < |g| ==> g[i] != d
    ensures Count(g[..m], d) == Count(g, d) - 1
  {
    var n := |g| - 1;
    if g[n] == d {
      m := n;
    } else {
      m := SomeAt(g[..n], d);
      assert g[..n][..m] == g[..m];
    }
  }

  lemma {:induction false} NoneAt(g: seq<nat>, d: nat)
    requires Count(g, d) == 0
    ensures forall i :: 0 <= i < |g| ==> g[i] != d
  {
    if g != [] { NoneAt(g[..|g| - 1], d); }
  }

  /** Lengths can be shortened, at no cost, until two words share the greatest length. */
  lemma {:induction false} TwoLongest(w: seq<nat>, g: seq<nat>, d: nat) returns (g': seq<nat>, d': nat)
    requires |w| == |g| >= 2 && AtMost(g, d) && Fill(g, d) <= Pow2(d)
    ensures |g'| == |g| && AtMost(g', d') && Fill(g', d') <= Pow2(d')
    ensures d' >= 1 && Count(g', d') >= 2
    ensures Dot(w, g') <= Dot(w, g)
    decreases d
  {
    if d == 0 {
      FillZero(g);
      assert false;
    } else if Count(g, d) >= 2 {
      g', d' := g, d;
    } else {
      FillHalf(g, d);
      var g1 := g;
      if Count(g, d) == 1 {
        var m := SomeAt(g, d);
        NoneAt(g[..m], d);
        g1 := g[m := d - 1];
        FillUpdate(g, m, d - 1, d - 1);
        DotUpdate(w, g, m, w[m], d - 1);
        assert w[m := w[m]] == w;
        assert w[m] * (d - 1) <= w[m] * d;
        assert forall i :: 0 <= i < m ==> g[i] == g[..m][i];
      } else {
        NoneAt(g, d);
      }
      g', d' := TwoLongest(w, g1, d - 1);
    }
  }

  lemma {:induction false} CrossOver(a: nat, b: nat, x: nat, y: nat)
    requires a <= b && x <= y
    ensures a * y + b * x <= a * x + b * y
  {
    assert (b - a) * (y - x) >= 0;
    assert (b - a) * (y - x) == b * y - b * x - a * y + a * x;
  }

  /** Giving the lighter symbol the longer word costs nothing. */
  lemma {:induction false} SwapTop(w: seq<nat>, g: seq<nat>, i: nat, p: nat, d: nat)
    requires |w| == |g| && i < |g| && p < |g| && i != p
    requires g[p] == d && g[i] <= d && w[i] <= w[p]
    ensures Dot(w, g[i := d][p := g[i]]) <= Dot(w, g)
    ensures Fill(g[i := d][p := g[i]], d) == Fill(g, d)
  {
    var g1 := g[i := d];
    DotUpdate(w, g, i, w[i], d);
    DotUpdate(w, g1, p, w[p], g[i]);
    assert w[i := w[i]] == w && w[p := w[p]] == w;
    CrossOver(w[i], w[p], g[i], d);
    FillUpdate(g, i, d, d);
    FillUpdate(g1, p, g[i], d);
  }

  /** The two lightest symbols can be given the two longest words. */
  lemma {:induction false} Settle(w: seq<nat>, g: seq<nat>, d: nat, i: nat, j: nat) returns (g': seq<nat>)
    requires |w| == |g| && i < |w| && j < |w| && i != j
    requires forall k :: 0 <= k < |w| ==> w[i] <= w[k]
    requires forall k :: 0 <= k < |w| && k != i ==> w[j] <= w[k]
    requires AtMost(g, d) && Count(g, d) >= 2
    ensures |g'| == |g| && AtMost(g', d) && g'[i] == d && g'[j] == d
    ensures Fill(g', d) == Fill(g, d) && Dot(w, g') <= Dot(w, g)
  {
    hide Dot, Fill, Count;
    var y := SomeAt(g, d);
    var x := SomeAt(g[..y], d);
    var q := if x == i then y else if y == i then x else if x == j then x else y;
    g' := g;
    if x != i && y != i {
      var p := if x == j then y else x;
      SwapTop(w, g, i, p, d);
      g' := g[i := d][p := g[i]];
    }
    assert g'[i] == d && g'[q] == d && q != i;
    if q != j {
      SwapTop(w, g', j, q, d);
      g' := g'[j := d][q := g'[j]];
    }
  }

  // ---- one merge ----

  function Weights(t: seq<Tree>): (w: seq<nat>)
    ensures |w| == |t|
  {
    seq(|t|, i requires 0 <= i < |t| => t[i].Weight())
  }

  /** Any lengths for the forest give lengths for the merged forest, cheaper by the weight of the new node. */
  lemma {:induction false} MergeLengths(t: seq<Tree>, g: seq<nat>, d: nat) returns (g': seq<nat>, d': nat)
    requires |t| == |g| >= 2 && AtMost(g, d) && Fill(g, d) <= Pow2(d)
    ensures |g'| == |t| - 1 && AtMost(g', d') && Fill(g', d') <= Pow2(d')
    ensures Dot(Weights(Merge(t)), g') + Merge(t)[|t| - 2].Weight() <= Dot(Weights(t), g)
  {
    hide Dot, Fill, Lightest, Merge, Weights, Pow2;
    var w := Weights(t);
    var g1, d1 := TwoLongest(w, g, d);
    var ia := Lightest(t, |t|);
    var ib := Lightest(Drop(t, ia), |t| - 1);
    var j := if ib == ia then |t| - 1 else ib;
    LightestTwo(t, ia, ib, j);
    var g2 := Settle(w, g1, d1, ia, j);
    g' := Drop(Drop(g2, ia), ib) + [d1 - 1];
    d' := d1;
    MergedWeights(t, ia, ib, j);
    JoinDot(w, g2, d1, ia, ib, j);
    JoinFill(g2, d1, ia, ib, j);
  }

  lemma {:induction false} MergedWeights(t: seq<Tree>, ia: nat, ib: nat, j: nat)
    requires |t| >= 2 && ia == Lightest(t, |t|) && ib == Lightest(Drop(t, ia), |t| - 1)
    requires j == if ib == ia then |t| - 1 else ib
    ensures Weights(Merge(t)) == Drop(Drop(Weights(t), ia), ib) + [Weights(t)[ia] + Weights(t)[j]]
    ensures Merge(t)[|t| - 2].Weight() == Weights(t)[ia] + Weights(t)[j]
  {
    var t1 := Drop(t, ia);
    MergeIs(t, ia, ib, j);
    WeightsDrop(t, ia);
    WeightsDrop(t1, ib);
    WeightsSnoc(Drop(t1, ib), Node(t[ia], t[j]));
  }

  lemma {:induction false} MergeIs(t: seq<Tree>, ia: nat, ib: nat, j: nat)
    requires |t| >= 2 && ia == Lightest(t, |t|) && ib == Lightest(Drop(t, ia), |t| - 1)
    requires j == if ib == ia then |t| - 1 else ib
    ensures j < |t| && Merge(t) == Drop(Drop(t, ia), ib) + [Node(t[ia], t[j])]
  {
    assert Drop(t, ia)[ib] == t[j];
  }

  lemma {:induction false} WeightsSnoc(t: seq<Tree>, u: Tree)
    ensures Weights(t + [u]) == Weights(t) + [u.Weight()]
  {
  }

  lemma {:induction false} WeightsDrop(t: seq<Tree>, i: nat)
    requires i < |t|
    ensures Weights(Drop(t, i)) == Drop(Weights(t), i)
  {
  }

  lemma {:induction false} LightestTwo(t: seq<Tree>, ia: nat, ib: nat, j: nat)
    requires |t| >= 2 && ia == Lightest(t, |t|) && ib == Lightest(Drop(t, ia), |t| - 1)
    requires j == if ib == ia then |t| - 1 else ib
    ensures forall k :: 0 <= k < |t| ==> Weights(t)[ia] <= Weights(t)[k]
    ensures forall k :: 0 <= k < |t| && k != ia ==> Weights(t)[j] <= Weights(t)[k]
  {
    var w, w' := Weights(t), Weights(Drop(t, ia));
    WeightsDrop(t, ia);
    assert w'[ib] == w[j];
    forall k | 0 <= k < |t| && k != ia
      ensures w[j] <= w[k]
    {
      var k' := if k == |t| - 1 then ia else k;
      assert w'[ib] <= w'[k'];
    }
  }

  /** Two words of the greatest length are replaced by their common beginning. */
  lemma {:induction false} JoinDot(w: seq<nat>, g: seq<nat>, d: nat, ia: nat, ib: nat, j: nat)
    requires |w| == |g| >= 2 && ia < |w| && ib < |w| - 1 && d >= 1
    requires j == if ib == ia then |w| - 1 else ib
    requires g[ia] == d && g[j] == d
    ensures Dot(Drop(Drop(w, ia), ib) + [w[ia] + w[j]], Drop(Drop(g, ia), ib) + [d - 1]) + w[ia] + w[j] == Dot(w, g)
  {
    var w1, g1 := Drop(w, ia), Drop(g, ia);
    var w2, g2 := Drop(w1, ib), Drop(g1, ib);
    var a, b := w[ia], w[j];
    DotDrop(w, g, ia);
    DotDrop(w1, g1, ib);
    DotSnoc(w2, g2, a + b, d - 1);
    assert w1[ib] == b && g1[ib] == d;
    Joined(Dot(w, g), Dot(w1, g1), Dot(w2, g2), Dot(w2 + [a + b], g2 + [d - 1]), a, b, d);
  }

  lemma {:induction false} Joined(c0: nat, c1: nat, c2: nat, c3: nat, a: nat, b: nat, d: nat)
    requires d >= 1 && c1 == c0 - a * d && c2 == c1 - b * d && c3 == c2 + (a + b) * (d - 1)
    ensures c3 + a + b == c0
  {
    assert (a + b) * (d - 1) + a + b == a * d + b * d;
  }

  lemma {:induction false} DotSnoc(w: seq<nat>, g: seq<nat>, a: nat, b: nat)
    requires |w| == |g|
    ensures Dot(w + [a], g + [b]) == Dot(w, g) + a * b
  {
    assert (w + [a])[..|w|] == w && (g + [b])[..|g|] == g;
  }

  lemma {:induction false} FillSnoc(g: seq<nat>, v: nat, d: nat)
    ensures Fill(g + [v], d) == Fill(g, d) + Part(v, d)
  {
    assert (g + [v])[..|g|] == g;
  }

  lemma {:induction false} TopParts(d: nat)
    requires d >= 1
    ensures Part(d, d) == 1 && Part(d - 1, d) == 2
  {
  }

  lemma {:induction false} JoinFill(g: seq<nat>, d: nat, ia: nat, ib: nat, j: nat)
    requires ia < |g| && ib < |g| - 1 && d >= 1 && AtMost(g, d)
    requires j == if ib == ia then |g| - 1 else ib
    requires g[ia] == d && g[j] == d
    ensures Fill(Drop(Drop(g, ia), ib) + [d - 1], d) == Fill(g, d)
    ensures AtMost(Drop(Drop(g, ia), ib) + [d - 1], d)
  {
    hide Fill, Part;
    var g1 := Drop(g, ia);
    var g2 := Drop(g1, ib);
    FillDrop(g, ia, d);
    FillDrop(g1, ib, d);
    assert g1[ib] == d;
    FillSnoc(g2, d - 1, d);
    TopParts(d);
  }

  /** However the words are chosen, they cost at least the inner nodes that building adds. */
  lemma {:induction false} BuildCheapest(t: seq<Tree>, g: seq<nat>, d: nat)
    requires |t| == |g| >= 1 && AtMost(g, d) && Fill(g, d) <= Pow2(d)
    ensures Build(t).Inner() <= Dot(Weights(t), g) + Total(t, Inner)
    decreases |t|
  {
    if |t| == 1 {
      assert t[..0] == [];
    } else {
      var g', d' := MergeLengths(t, g, d);
      TotalMerge(t, Inner);
      BuildCheapest(Merge(t), g', d');
    }
  }

  // ---- from the forest back to the symbols ----

  /** The lengths of the used symbols. */
  function Pick(f: seq<nat>, h: seq<nat>): (g: seq<nat>)
    requires |f| == |h|
    ensures |g| == |Leaves(f)|
  {
    if f == [] then []
    else
      var n := |f| - 1;
      Pick(f[..n], h[..n]) + (if f[n] > 0 then [h[n]] else [])
  }

  /** `h` gives a length to the used symbols and to no other. */
  ghost predicate SameSymbols(f: seq<nat>, h: seq<nat>) {
    |f| == |h| && forall s :: 0 <= s < |f| ==> (h[s] > 0 <==> f[s] > 0)
  }

  lemma {:induction false} PickDot(f: seq<nat>, h: seq<nat>)
    requires SameSymbols(f, h)
    ensures Dot(Weights(Leaves(f)), Pick(f, h)) == Dot(f, h)
  {
    if f != [] {
      var n := |f| - 1;
      PickDot(f[..n], h[..n]);
      var t, g := Leaves(f[..n]), Pick(f[..n], h[..n]);
      if f[n] > 0 {
        assert Weights(Leaves(f)) == Weights(t) + [f[n]];
        DotSnoc(Weights(t), g, f[n], h[n]);
      } else {
        assert Leaves(f) == t && Pick(f, h) == g;
        assert f[n] * h[n] == 0;
      }
    }
  }

  lemma {:induction false} PickNone(d: nat)
    ensures Fill([], d) == 0
  {
  }

  lemma {:induction false} PickFill(f: seq<nat>, h: seq<nat>, d: nat)
    requires SameSymbols(f, h) && AtMost(h, d)
    ensures Fill(Pick(f, h), d) == KraftSum(h, d)
    ensures AtMost(Pick(f, h), d)
  {
    hide Pow2, Fill;
    PickNone(d);
    if f != [] {
      var n := |f| - 1;
      PickFill(f[..n], h[..n], d);
      var g := Pick(f[..n], h[..n]);
      assert Pick(f, h) == if f[n] > 0 then g + [h[n]] else g;
      if f[n] > 0 { FillSnoc(g, h[n], d); }
    }
  }

  /** Every leaf carries its symbol's count. */
  ghost predicate Carries(t: Tree, f: seq<nat>) {
    if t.Leaf? then t.sym < |f| && t.w == f[t.sym]
    else Carries(t.left, f) && Carries(t.right, f)
  }

  lemma {:induction false} BuildCarries(t: seq<Tree>, f: seq<nat>)
    requires |t| >= 1 && forall i :: 0 <= i < |t| ==> Carries(t[i], f)
    ensures Carries(Build(t), f)
    decreases |t|
  {
    if |t| >= 2 { BuildCarries(Merge(t), f); }
  }

  /** The lengths read off a tree cost what its inner nodes weigh. */
  lemma {:induction false} AssignDot(t: Tree, d: nat, len: seq<nat>, f: seq<nat>)
    requires |len| == |f| && Carries(t, f) && t.Below(|len|) && t.Distinct()
    requires forall s :: s in t.Syms() && s < |len| ==> len[s] == 0
    requires d + t.Height() <= 255 && (d > 0 || t.Node?)
    ensures Dot(f, Assign(t, d, len)) == Dot(f, len) + t.Inner() + d * t.Weight()
    decreases t
  {
    hide Dot;
    match t
    case Leaf(s, _) =>
      assert s in t.Syms();
      DotUpdate(f, len, s, f[s], d);
      assert f[s := f[s]] == f;
    case Node(l, r) =>
      assert t.Syms() == l.Syms() + r.Syms();
      AssignDot(r, d + 1, len, f);
      var len' := Assign(r, d + 1, len);
      forall s | s in l.Syms() && s < |len| ensures len'[s] == 0 { AssignFrame(r, d + 1, len, s); }
      AssignDot(l, d + 1, len', f);
      Deeper(d, l.Weight(), r.Weight());
  }

  lemma {:induction false} Deeper(d: nat, a: nat, b: nat)
    ensures (d + 1) * a + (d + 1) * b == d * (a + b) + (a + b)
  {
  }

  lemma {:induction false} DotZeros(f: seq<nat>)
    ensures Dot(f, Zeros(|f|)) == 0
  {
    if f != [] {
      DotZeros(f[..|f| - 1]);
      assert Zeros(|f|)[..|f| - 1] == Zeros(|f| - 1);
    }
  }

  lemma {:induction false} TreeCost(f: seq<nat>, maxlen: nat)
    requires Used(f) >= 2 && maxlen <= 255 && |f| < Fib(maxlen + 3)
    requires TreeOf(f).Height() <= maxlen
    ensures Dot(f, Lengths(f, maxlen)) == TreeOf(f).Inner()
  {
    var t, z := TreeOf(f), Zeros(|f|);
    TreeProps(f);
    TreeBelow(f);
    LeavesShape(f);
    BuildCarries(Leaves(f), f);
    AssignDot(t, 0, z, f);
    DotZeros(f);
  }

  /** When the first tree is kept, its lengths are optimal: any other lengths for the same
      symbols that satisfy Kraft's inequality, however long, cost at least as many bits. */
  lemma {:induction false} Optimal(f: seq<nat>, maxlen: nat, h: seq<nat>, d: nat)
    requires Used(f) >= 2 && maxlen <= 255 && |f| < Fib(maxlen + 3)
    requires TreeOf(f).Height() <= maxlen
    requires SameSymbols(f, h) && AtMost(h, d) && KraftSum(h, d) <= Pow2(d)
    ensures Dot(f, Lengths(f, maxlen)) <= Dot(f, h)
  {
    TreeCost(f, maxlen);
    PickDot(f, h);
    PickFill(f, h, d);
    LeavesTotals(f);
    BuildCheapest(Leaves(f), Pick(f, h), d);
  }
}
