/** df_lengths: the arrays that build a Huffman tree and read its depths, proved to compute
    `Huffman.Lengths`. */
module CodeLengths {
  import opened Bits
  import H = Huffman
  import opened Huffman

  const WRAP: nat := 0x1_0000_0000

  /** The node arrays describe the trees `tr`: node `v` weighs `cnt[v]`, and has children or is symbol `v`. */
  ghost predicate Linked(cnt: seq<nat>, left: seq<int>, right: seq<int>, tr: seq<Tree>, n: nat) {
    && |tr| <= |cnt| == |left| == |right|
    && forall v :: 0 <= v < |tr| ==> LinkedNode(cnt, left, right, tr, n, v)
  }

  ghost predicate LinkedNode(cnt: seq<nat>, left: seq<int>, right: seq<int>, tr: seq<Tree>, n: nat, v: nat)
    requires v < |tr| <= |cnt| == |left| == |right|
  {
    && cnt[v] == tr[v].Weight()
    && tr[v].Below(n)
    && if left[v] < 0 then v < n && tr[v] == Leaf(v, cnt[v])
       else left[v] < v && 0 <= right[v] < v && tr[v] == Node(tr[left[v]], tr[right[v]])
  }

  ghost predicate InRange(ids: seq<nat>, k: nat) {
    forall i :: 0 <= i < |ids| ==> ids[i] < k
  }

  /** The trees a list of node numbers stands for. */
  ghost function View(ids: seq<nat>, tr: seq<Tree>): (t: seq<Tree>)
    requires InRange(ids, |tr|)
    ensures |t| == |ids|
  {
    seq(|ids|, i requires 0 <= i < |ids| => tr[ids[i]])
  }

  lemma {:induction false} LinkedExtend(cnt: seq<nat>, left: seq<int>, right: seq<int>, tr: seq<Tree>, n: nat, a: nat, b: nat)
    requires Linked(cnt, left, right, tr, n) && a < |tr| < |cnt| && b < |tr|
    ensures var k := |tr|;
            Linked(cnt[k := cnt[a] + cnt[b]], left[k := a], right[k := b], tr + [Node(tr[a], tr[b])], n)
  {
    var k := |tr|;
    var cnt', left', right', tr' := cnt[k := cnt[a] + cnt[b]], left[k := a], right[k := b], tr + [Node(tr[a], tr[b])];
    assert LinkedNode(cnt, left, right, tr, n, a) && LinkedNode(cnt, left, right, tr, n, b);
    forall v | 0 <= v < |tr'|
      ensures LinkedNode(cnt', left', right', tr', n, v)
    {
      if v < k { assert LinkedNode(cnt, left, right, tr, n, v); }
    }
  }

  lemma {:induction false} ViewWeight(ids: seq<nat>, cnt: seq<nat>, left: seq<int>, right: seq<int>, tr: seq<Tree>, n: nat, i: nat)
    requires Linked(cnt, left, right, tr, n) && InRange(ids, |tr|) && i < |ids|
    ensures View(ids, tr)[i].Weight() == cnt[ids[i]]
  {
    assert LinkedNode(cnt, left, right, tr, n, ids[i]);
  }

  lemma {:induction false} TotalAtLeast(t: seq<Tree>, i: nat, g: Tree -> nat)
    requires i < |t|
    ensures Total(t, g) >= g(t[i])
  {
    TotalDrop(t, i, g);
  }

  /** The first scan of the heap: its lightest entry, the earliest on ties. */
  method ScanFirst(cnt: array<nat>, heap: array<nat>, nh: nat,
                   ghost l: seq<int>, ghost r: seq<int>, ghost tr: seq<Tree>, ghost n: nat)
    returns (ia: nat)
    requires Linked(cnt[..], l, r, tr, n) && 1 <= nh <= heap.Length && InRange(heap[..nh], |tr|)
    ensures ia == Lightest(View(heap[..nh], tr), nh)
  {
    ghost var ids := heap[..nh];
    ia := 0;
    var i := 1;
    while i < nh
      invariant 1 <= i <= nh && ia < i
      invariant ia == Lightest(View(ids, tr), i)
    {
      ViewWeight(ids, cnt[..], l, r, tr, n, i);
      ViewWeight(ids, cnt[..], l, r, tr, n, ia);
      if cnt[heap[i]] < cnt[heap[ia]] { ia := i; }
      i := i + 1;
    }
  }

  /** The second scan, which starts with no choice made, finds the same. */
  method ScanSecond(cnt: array<nat>, heap: array<nat>, nh: nat,
                    ghost l: seq<int>, ghost r: seq<int>, ghost tr: seq<Tree>, ghost n: nat)
    returns (ib: int)
    requires Linked(cnt[..], l, r, tr, n) && 1 <= nh <= heap.Length && InRange(heap[..nh], |tr|)
    ensures ib == Lightest(View(heap[..nh], tr), nh)
  {
    ghost var ids := heap[..nh];
    ib := -1;
    var i := 0;
    while i < nh
      invariant 0 <= i <= nh && -1 <= ib < i
      invariant if i == 0 then ib == -1 else ib == Lightest(View(ids, tr), i)
    {
      ViewWeight(ids, cnt[..], l, r, tr, n, i);
      if ib >= 0 { ViewWeight(ids, cnt[..], l, r, tr, n, ib); }
      if ib < 0 || cnt[heap[i]] < cnt[heap[ib]] { ib := i; }
      i := i + 1;
    }
  }

  /** Take out the entry the scan finds: the first of the lightest. */
  method TakeLightest(first: bool, cnt: array<nat>, heap: array<nat>, nh: nat,
                      ghost l: seq<int>, ghost r: seq<int>, ghost tr: seq<Tree>, ghost n: nat)
    returns (a: nat)
    requires Linked(cnt[..], l, r, tr, n) && 1 <= nh <= heap.Length && InRange(heap[..nh], |tr|) && cnt != heap
    modifies heap
    ensures var i := Lightest(View(old(heap[..nh]), tr), nh);
            a == old(heap[..nh])[i] && heap[..nh - 1] == Drop(old(heap[..nh]), i)
  {
    var i: int;
    if first {
      i := ScanFirst(cnt, heap, nh, l, r, tr, n);
    } else {
      i := ScanSecond(cnt, heap, nh, l, r, tr, n);
    }
    a := heap[i];
    heap[i] := heap[nh - 1];
  }

  /** The parent's count does not wrap: it is at most the total of all counts. */
  lemma {:induction false} NoWrap(t: seq<Tree>, ia: nat, ib: nat)
    requires ia < |t| && ib < |t| - 1 && Total(t, Weight) < WRAP
    ensures t[ia].Weight() + Drop(t, ia)[ib].Weight() < WRAP
  {
    TotalDrop(t, ia, Weight);
    TotalAtLeast(Drop(t, ia), ib, Weight);
  }

  lemma {:induction false} ViewDrop(ids: seq<nat>, tr: seq<Tree>, i: nat)
    requires i < |ids| && InRange(ids, |tr|)
    ensures InRange(Drop(ids, i), |tr|) && View(Drop(ids, i), tr) == Drop(View(ids, tr), i)
  {
  }

  lemma {:induction false} ViewSnoc(ids: seq<nat>, tr: seq<Tree>, u: Tree)
    requires InRange(ids, |tr|)
    ensures InRange(ids + [|tr|], |tr| + 1) && View(ids + [|tr|], tr + [u]) == View(ids, tr) + [u]
  {
  }

  /** Node `nn` becomes the parent of `a` and `b`. */
  method Join(cnt: array<nat>, left: array<int>, right: array<int>, nn: nat, a: nat, b: nat)
    requires cnt.Length == left.Length == right.Length && nn < cnt.Length && a < cnt.Length && b < cnt.Length
    requires left != right && cnt as object != left && cnt as object != right
    requires cnt[a] + cnt[b] < WRAP
    modifies cnt, left, right
    ensures cnt[..] == old(cnt[..])[nn := old(cnt[a] + cnt[b])]
    ensures left[..] == old(left[..])[nn := a] && right[..] == old(right[..])[nn := b]
  {
    cnt[nn] := (cnt[a] + cnt[b]) % WRAP;
    left[nn] := a;
    right[nn] := b;
  }

  /** One turn of the selection loop: the two lightest nodes leave the heap, their parent `nn` enters it. */
  method MergeLightest(cnt: array<nat>, left: array<int>, right: array<int>, heap: array<nat>,
                       nh0: nat, nn: nat, ghost tr: seq<Tree>, ghost n: nat)
    returns (ghost tr': seq<Tree>)
    requires cnt != heap && left != right
    requires heap as object != left && heap as object != right && cnt as object != left && cnt as object != right
    requires Linked(cnt[..], left[..], right[..], tr, n)
    requires 2 <= nh0 <= heap.Length && |tr| == nn < cnt.Length
    requires InRange(heap[..nh0], nn)
    requires Total(View(heap[..nh0], tr), Weight) < WRAP
    modifies cnt, left, right, heap
    ensures |tr'| == nn + 1
    ensures Linked(cnt[..], left[..], right[..], tr', n)
    ensures InRange(heap[..nh0 - 1], nn + 1)
    ensures View(heap[..nh0 - 1], tr') == Merge(old(View(heap[..nh0], tr)))
  {
    ghost var ids, c, l, r := heap[..nh0], cnt[..], left[..], right[..];
    ghost var t := View(ids, tr);
    var nh := nh0;
    var a := TakeLightest(true, cnt, heap, nh, l, r, tr, n);
    ghost var ia := Lightest(t, nh);
    nh := nh - 1;
    ghost var ids1 := heap[..nh];
    ViewDrop(ids, tr, ia);
    var b := TakeLightest(false, cnt, heap, nh, l, r, tr, n);
    ghost var ib := Lightest(Drop(t, ia), nh);
    ghost var ids2 := heap[..nh - 1];
    ViewDrop(ids1, tr, ib);
    ViewWeight(ids, c, l, r, tr, n, ia);
    ViewWeight(ids1, c, l, r, tr, n, ib);
    NoWrap(t, ia, ib);
    Join(cnt, left, right, nn, a, b);
    heap[nh - 1] := nn;
    assert heap[..nh] == ids2 + [nn];
    LinkedExtend(c, l, r, tr, n, a, b);
    ViewSnoc(ids2, tr, Node(tr[a], tr[b]));
    tr' := tr + [Node(tr[a], tr[b])];
  }

  // ---- reading the depths ----

  /** What `len` becomes once every subtree on the stack has been walked, the top one first. */
  ghost function Walk(st: seq<nat>, dp: seq<nat>, tr: seq<Tree>, len: seq<nat>): (r: seq<nat>)
    requires |st| == |dp| && InRange(st, |tr|)
    requires forall v :: 0 <= v < |tr| ==> tr[v].Below(|len|)
  {
    if st == [] then len
    else
      var k := |st| - 1;
      Walk(st[..k], dp[..k], tr, Assign(tr[st[k]], dp[k], len))
  }

  /** Some leaf below a subtree on the stack is deeper than `maxlen`. */
  ghost predicate Deep(st: seq<nat>, dp: seq<nat>, tr: seq<Tree>, maxlen: nat)
    requires |st| == |dp| && InRange(st, |tr|)
  {
    st != [] &&
    var k := |st| - 1;
    dp[k] + tr[st[k]].Height() > maxlen || Deep(st[..k], dp[..k], tr, maxlen)
  }

  ghost function StackSize(st: seq<nat>, tr: seq<Tree>): (r: nat)
    requires InRange(st, |tr|)
    ensures r >= |st|
  {
    if st == [] then 0 else StackSize(st[..|st| - 1], tr) + tr[st[|st| - 1]].Size()
  }

  /** The state of the walk: what is on the stack still completes to the root's assignment. */
  ghost predicate Pending(st: seq<nat>, dp: seq<nat>, tr: seq<Tree>, len: seq<nat>, over: bool, maxlen: nat,
                          root: nat, len0: seq<nat>)
    requires |st| == |dp| && InRange(st, |tr|) && root < |tr|
  {
    && |len| == |len0|
    && (forall v :: 0 <= v < |tr| ==> tr[v].Below(|len|))
    && StackSize(st, tr) <= |tr|
    && Walk(st, dp, tr, len) == Assign(tr[root], 0, len0)
    && (over || Deep(st, dp, tr, maxlen) <==> tr[root].Height() > maxlen)
  }

  lemma {:induction false} PopOne(st: seq<nat>, dp: seq<nat>, tr: seq<Tree>, len: seq<nat>, over: bool, maxlen: nat,
               root: nat, len0: seq<nat>, v: nat, d: nat)
    requires |st| == |dp| && InRange(st + [v], |tr|) && root < |tr|
    requires Pending(st + [v], dp + [d], tr, len, over, maxlen, root, len0)
    ensures InRange(st, |tr|) && StackSize(st + [v], tr) == StackSize(st, tr) + tr[v].Size()
    ensures Walk(st, dp, tr, Assign(tr[v], d, len)) == Assign(tr[root], 0, len0)
    ensures over || d + tr[v].Height() > maxlen || Deep(st, dp, tr, maxlen) <==> tr[root].Height() > maxlen
  {
    var st', dp' := st + [v], dp + [d];
    assert st'[..|st|] == st && dp'[..|st|] == dp;
    assert forall i :: 0 <= i < |st| ==> st[i] == st'[i];
  }

  lemma {:induction false} PushTwo(st: seq<nat>, dp: seq<nat>, tr: seq<Tree>, len: seq<nat>, v: nat, l: nat, r: nat, d: nat, maxlen: nat)
    requires |st| == |dp| && InRange(st, |tr|) && v < |tr| && l < |tr| && r < |tr|
    requires forall v :: 0 <= v < |tr| ==> tr[v].Below(|len|)
    requires tr[v] == Node(tr[l], tr[r])
    ensures var st', dp' := st + [l] + [r], dp + [d + 1] + [d + 1];
            && InRange(st', |tr|)
            && Walk(st', dp', tr, len) == Walk(st, dp, tr, Assign(tr[v], d, len))
            && (Deep(st', dp', tr, maxlen) <==> d + tr[v].Height() > maxlen || Deep(st, dp, tr, maxlen))
            && StackSize(st', tr) == StackSize(st, tr) + tr[v].Size() - 1
  {
    var st1, dp1 := st + [l], dp + [d + 1];
    var st', dp' := st1 + [r], dp1 + [d + 1];
    assert st'[..|st1|] == st1 && dp'[..|st1|] == dp1;
    assert st1[..|st|] == st && dp1[..|st|] == dp;
  }

  lemma {:induction false} StepLeaf(st: seq<nat>, dp: seq<nat>, tr: seq<Tree>, len: seq<nat>, over: bool, maxlen: nat,
                 root: nat, len0: seq<nat>, v: nat, d: nat)
    requires |st| == |dp| && InRange(st + [v], |tr|) && root < |tr|
    requires Pending(st + [v], dp + [d], tr, len, over, maxlen, root, len0)
    requires tr[v].Leaf? && tr[v].sym < |len|
    ensures InRange(st, |tr|) && StackSize(st, tr) < StackSize(st + [v], tr)
    ensures Pending(st, dp, tr, len[tr[v].sym := Stored(d)], over || d > maxlen, maxlen, root, len0)
  {
    PopOne(st, dp, tr, len, over, maxlen, root, len0, v, d);
  }

  lemma {:induction false} StepNode(st: seq<nat>, dp: seq<nat>, tr: seq<Tree>, len: seq<nat>, over: bool, maxlen: nat,
                 root: nat, len0: seq<nat>, v: nat, d: nat, l: nat, r: nat)
    requires |st| == |dp| && InRange(st + [v], |tr|) && root < |tr|
    requires Pending(st + [v], dp + [d], tr, len, over, maxlen, root, len0)
    requires l < |tr| && r < |tr| && tr[v] == Node(tr[l], tr[r])
    ensures InRange(st + [l] + [r], |tr|)
    ensures StackSize(st + [l] + [r], tr) < StackSize(st + [v], tr)
    ensures Pending(st + [l] + [r], dp + [d + 1] + [d + 1], tr, len, over, maxlen, root, len0)
  {
    PopOne(st, dp, tr, len, over, maxlen, root, len0, v, d);
    PushTwo(st, dp, tr, len, v, l, r, d, maxlen);
  }

  method PushChildren(st: array<nat>, dp: array<nat>, top0: nat, l: nat, r: nat, d: nat) returns (top: nat)
    requires top0 + 1 < st.Length == dp.Length && st != dp
    modifies st, dp
    ensures top == top0 + 2
    ensures st[..top] == old(st[..top0]) + [l] + [r]
    ensures dp[..top] == old(dp[..top0]) + [d] + [d]
  {
    top := top0;
    st[top] := l;
    dp[top] := d;
    top := top + 1;
    st[top] := r;
    dp[top] := d;
    top := top + 1;
  }

  lemma {:induction false} TopSplit(s: seq<nat>, k: nat)
    requires k < |s|
    ensures s[..k + 1] == s[..k] + [s[k]]
  {
  }

  method StoreDepth(len: array<nat>, v: nat, d: nat)
    requires v < len.Length
    modifies len
    ensures len[..] == old(len[..])[v := Stored(d)]
  {
    len[v] := if d != 0 then d % 256 else 1;
  }

  lemma {:induction false} Roomy(st: seq<nat>, tr: seq<Tree>)
    requires InRange(st, |tr|) && StackSize(st, tr) <= |tr|
    ensures |st| <= |tr|
  {
  }

  /** One turn of the walk: the top subtree is stored, or replaced by its children. */
  method WalkStep(left: array<int>, right: array<int>, st: array<nat>, dp: array<nat>, top0: nat, maxlen: nat,
                  len: array<nat>, over0: bool,
                  ghost cnt: seq<nat>, ghost tr: seq<Tree>, ghost root: nat, ghost len0: seq<nat>)
    returns (top: nat, over: bool)
    requires Linked(cnt, left[..], right[..], tr, len.Length) && root < |tr|
    requires len != st && len != dp && st != dp
    requires len as object != left && len as object != right
    requires 1 <= top0 <= |tr| && 2 * |tr| == st.Length == dp.Length && InRange(st[..top0], |tr|)
    requires Pending(st[..top0], dp[..top0], tr, len[..], over0, maxlen, root, len0)
    modifies st, dp, len
    ensures top <= st.Length && InRange(st[..top], |tr|)
    ensures Pending(st[..top], dp[..top], tr, len[..], over, maxlen, root, len0)
    ensures StackSize(st[..top], tr) < old(StackSize(st[..top0], tr))
  {
    over := over0;
    top := top0 - 1;
    var node, d := st[top], dp[top];
    ghost var cur := len[..];
    TopSplit(st[..], top);
    TopSplit(dp[..], top);
    assert LinkedNode(cnt, left[..], right[..], tr, len.Length, node);
    if left[node] < 0 {
      StepLeaf(st[..top], dp[..top], tr, cur, over, maxlen, root, len0, node, d);
      StoreDepth(len, node, d);
      if d > maxlen { over := true; }
    } else {
      var l: nat, r: nat := left[node], right[node];
      StepNode(st[..top], dp[..top], tr, cur, over, maxlen, root, len0, node, d, l, r);
      top := PushChildren(st, dp, top, l, r, d + 1);
    }
  }

  /** Walk the tree from `root` with an explicit stack, storing each leaf's depth in a byte. */
  method ReadDepths(left: array<int>, right: array<int>, root: nat, maxlen: nat, nn: nat, len: array<nat>,
                    ghost cnt: seq<nat>, ghost tr: seq<Tree>)
    returns (over: bool)
    requires Linked(cnt, left[..], right[..], tr, len.Length)
    requires len as object != left && len as object != right
    requires root < |tr| == nn && tr[root].Size() <= nn
    modifies len
    ensures tr[root].Below(len.Length) && len[..] == Assign(tr[root], 0, old(len[..]))
    ensures over <==> tr[root].Height() > maxlen
  {
    var st := new nat[2 * nn];
    var dp := new nat[2 * nn];
    ghost var len0 := len[..];
    st[0], dp[0] := root, 0;
    var top := 1;
    over := false;
    assert st[..top] == [root] && dp[..top] == [0];
    StartWalk(tr, root, len0, maxlen, cnt, left[..], right[..]);
    while top > 0
      modifies st, dp, len
      invariant 0 <= top <= st.Length && InRange(st[..top], nn)
      invariant Pending(st[..top], dp[..top], tr, len[..], over, maxlen, root, len0)
      decreases StackSize(st[..top], tr)
    {
      Roomy(st[..top], tr);
      top, over := WalkStep(left, right, st, dp, top, maxlen, len, over, cnt, tr, root, len0);
    }
  }

  lemma {:induction false} StartWalk(tr: seq<Tree>, root: nat, len0: seq<nat>, maxlen: nat, cnt: seq<nat>, l: seq<int>, r: seq<int>)
    requires Linked(cnt, l, r, tr, |len0|) && root < |tr| && tr[root].Size() <= |tr|
    ensures Pending([root], [0], tr, len0, false, maxlen, root, len0)
  {
    forall v | 0 <= v < |tr| ensures tr[v].Below(|len0|) { assert LinkedNode(cnt, l, r, tr, |len0|, v); }
    assert [root][..0] == [] && [0][..0] == [];
  }

  // ---- the whole of df_lengths ----

  ghost predicate Neither(a: array<nat>, left: array<int>, right: array<int>) {
    var x: object := a;
    x != left && x != right
  }

  lemma {:induction false} LeavesSnoc(f: seq<nat>, i: nat)
    requires i < |f|
    ensures Leaves(f[..i + 1]) == Leaves(f[..i]) + (if f[i] > 0 then [Leaf(i, f[i])] else [])
  {
    assert f[..i + 1][..i] == f[..i];
  }

  lemma {:induction false} NoLeaves()
    ensures Leaves([]) == []
  {
  }

  /** One node per symbol, and the used ones put on the heap. */
  method CollectLeaves(f: array<nat>, cnt: array<nat>, left: array<int>, right: array<int>, heap: array<nat>)
    returns (nh: nat, ghost tr: seq<Tree>)
    requires f.Length < heap.Length && cnt.Length == left.Length == right.Length == 2 * f.Length
    requires f != cnt && f != heap && cnt != heap && left != right
    requires Neither(f, left, right) && Neither(cnt, left, right) && Neither(heap, left, right)
    modifies cnt, left, right, heap
    ensures |tr| == f.Length && Linked(cnt[..], left[..], right[..], tr, f.Length)
    ensures nh < heap.Length && InRange(heap[..nh], f.Length)
    ensures View(heap[..nh], tr) == Leaves(f[..])
  {
    hide Leaves;
    nh := 0;
    tr := [];
    NoLeaves();
    assert f[..0] == [];
    var n, i := f.Length, 0;
    while i < n
      invariant 0 <= i <= n && nh <= i && |tr| == i
      invariant forall v :: 0 <= v < i ==> left[v] == -1 && cnt[v] == f[v] && tr[v] == Leaf(v, f[v])
      invariant InRange(heap[..nh], i)
      invariant View(heap[..nh], tr) == Leaves(f[..i])
    {
      ghost var ids := heap[..nh];
      cnt[i] := f[i];
      left[i], right[i] := -1, -1;
      LeavesSnoc(f[..], i);
      assert f[..][..i] == f[..i] && f[..][..i + 1] == f[..i + 1];
      if f[i] != 0 {
        heap[nh] := i;
        nh := nh + 1;
        assert heap[..nh] == ids + [i];
        ViewSnoc(ids, tr, Leaf(i, f[i]));
      }
      tr := tr + [Leaf(i, f[i])];
      i := i + 1;
    }
    assert f[..n] == f[..];
    assert Linked(cnt[..], left[..], right[..], tr, n);
  }

  /** Merge until one node is left, the root. */
  method MergeAll(cnt: array<nat>, left: array<int>, right: array<int>, heap: array<nat>,
                  nh0: nat, nn0: nat, ghost tr: seq<Tree>, ghost n: nat)
    returns (nn: nat, ghost tr': seq<Tree>)
    requires cnt != heap && left != right
    requires heap as object != left && heap as object != right && cnt as object != left && cnt as object != right
    requires Linked(cnt[..], left[..], right[..], tr, n)
    requires 1 <= nh0 <= heap.Length && |tr| == nn0 && nn0 + nh0 - 1 <= cnt.Length
    requires InRange(heap[..nh0], nn0)
    requires Total(View(heap[..nh0], tr), Weight) < WRAP
    modifies cnt, left, right, heap
    ensures |tr'| == nn == nn0 + nh0 - 1 && Linked(cnt[..], left[..], right[..], tr', n)
    ensures heap[0] < nn && tr'[heap[0]] == Build(old(View(heap[..nh0], tr)))
  {
    ghost var t0 := View(heap[..nh0], tr);
    var nh := nh0;
    nn := nn0;
    tr' := tr;
    while nh > 1
      invariant 1 <= nh <= nh0 && |tr'| == nn == nn0 + nh0 - nh
      invariant Linked(cnt[..], left[..], right[..], tr', n)
      invariant InRange(heap[..nh], nn)
      invariant Build(View(heap[..nh], tr')) == Build(t0)
      invariant Total(View(heap[..nh], tr'), Weight) < WRAP
    {
      ghost var t := View(heap[..nh], tr');
      TotalMerge(t, Weight);
      tr' := MergeLightest(cnt, left, right, heap, nh, nn, tr', n);
      nh := nh - 1;
      nn := nn + 1;
    }
    assert heap[..1] == [heap[0]];
  }

  method Zero(len: array<nat>)
    modifies len
    ensures len[..] == Zeros(len.Length)
  {
    var i := 0;
    while i < len.Length
      invariant 0 <= i <= len.Length
      invariant forall j :: 0 <= j < i ==> len[j] == 0
    {
      len[i] := 0;
      i := i + 1;
    }
  }

  /** f[i] = (f[i] + 1) / 2 for the used symbols. */
  method HalveCounts(f: array<nat>)
    modifies f
    ensures f[..] == Halve(old(f[..]))
  {
    var i := 0;
    while i < f.Length
      invariant 0 <= i <= f.Length
      invariant forall j :: 0 <= j < f.Length ==> f[j] == if j < i then (old(f[j]) + 1) / 2 else old(f[j])
    {
      if f[i] != 0 { f[i] := (f[i] + 1) / 2; }
      i := i + 1;
    }
  }

  method CopyCounts(freq: array<nat>) returns (f: array<nat>)
    ensures fresh(f) && f.Length == freq.Length && f[..] == freq[..]
  {
    f := new nat[freq.Length];
    var i := 0;
    while i < freq.Length
      invariant 0 <= i <= freq.Length
      invariant f[..i] == freq[..i]
    {
      f[i] := freq[i];
      i := i + 1;
    }
    assert f[..i] == f[..] && freq[..i] == freq[..];
  }

  /** Build the tree for the counts `f` and read its depths into `len`. */
  method FirstDepths(f: array<nat>, cnt: array<nat>, left: array<int>, right: array<int>, heap: array<nat>,
                     nh: nat, maxlen: nat, len: array<nat>, ghost tr: seq<Tree>)
    returns (over: bool)
    requires cnt != heap && left != right && len != cnt && len != heap && f != len && f != cnt && f != heap
    requires Neither(f, left, right) && Neither(cnt, left, right) && Neither(heap, left, right) && Neither(len, left, right)
    requires len.Length == f.Length && cnt.Length == 2 * f.Length
    requires 2 <= nh <= heap.Length && |tr| == f.Length && Linked(cnt[..], left[..], right[..], tr, f.Length)
    requires InRange(heap[..nh], f.Length) && View(heap[..nh], tr) == Leaves(f[..])
    requires Sum(f[..]) < WRAP
    modifies cnt, left, right, heap, len
    ensures TreeOf(f[..]).Below(len.Length) && len[..] == Assign(TreeOf(f[..]), 0, old(len[..]))
    ensures over <==> TreeOf(f[..]).Height() > maxlen
  {
    LeavesTotals(f[..]);
    LeavesShape(f[..]);
    TreeProps(f[..]);
    ghost var t := TreeOf(f[..]);
    var nn; ghost var tr';
    nn, tr' := MergeAll(cnt, left, right, heap, nh, f.Length, tr, f.Length);
    over := ReadDepths(left, right, heap[0], maxlen, nn, len, cnt[..], tr');
  }

  /** Canonical Huffman code lengths for the counts `freq`, none longer than `maxlen`. */
  method Lengths(freq: array<nat>, maxlen: nat, len: array<nat>)
    requires freq.Length == len.Length && freq != len
    requires freq.Length < Fib(maxlen + 3) && Sum(freq[..]) < WRAP
    modifies len
    ensures len[..] == H.Lengths(freq[..], maxlen)
  {
    var n := freq.Length;
    var cnt := new nat[2 * n];
    var left := new int[2 * n];
    var right := new int[2 * n];
    var heap := new nat[n + 1];
    var f := CopyCounts(freq);
    while true
      modifies cnt, left, right, heap, f, len
      invariant H.Lengths(f[..], maxlen) == H.Lengths(freq[..], maxlen)
      invariant Sum(f[..]) < WRAP
      decreases Sum(f[..])
    {
      Zero(len);
      var nh; ghost var tr;
      nh, tr := CollectLeaves(f, cnt, left, right, heap);
      if nh == 0 { break; }
      if nh == 1 {
        LeavesShape(f[..]);
        assert heap[..nh][0] == heap[0];
        assert View(heap[..nh], tr)[0] == tr[heap[0]];
        assert LinkedNode(cnt[..], left[..], right[..], tr, n, heap[0]);
        len[heap[0]] := 1;
        break;
      }
      var over := FirstDepths(f, cnt, left, right, heap, nh, maxlen, len, tr);
      if !over { break; }
      OverShrinks(f[..], maxlen);
      HalveCounts(f);
    }
  }
}
