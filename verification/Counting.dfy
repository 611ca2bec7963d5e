/** Counting how often each code is used, and what that says about how long the output is. */
module Counting {
  import opened Bits
  import opened Canonical
  import opened Tables
  import opened Runs
  import opened Stream
  import H = Huffman
  import opened Optimality

  /** How often each of `n` codes is used by the items; a negative code is none. */
  ghost function Tally<T>(code: T -> int, items: seq<T>, n: nat): (f: seq<nat>)
    ensures |f| == n
  {
    if items == [] then H.Zeros(n)
    else Bump(Tally(code, items[..|items| - 1], n), code(items[|items| - 1]))
  }

  function Bump(f: seq<nat>, c: int): (r: seq<nat>)
    ensures |r| == |f| && forall s :: 0 <= s < |f| ==> r[s] >= f[s]
  {
    if 0 <= c < |f| then f[c := f[c] + 1] else f
  }

  lemma {:induction false} TallySnoc<T>(code: T -> int, items: seq<T>, t: T, n: nat)
    ensures Tally(code, items + [t], n) == Bump(Tally(code, items, n), code(t))
  {
    assert (items + [t])[..|items|] == items;
  }

  lemma {:induction false} TallyUsed<T>(code: T -> int, items: seq<T>, n: nat, i: nat)
    requires i < |items| && 0 <= code(items[i]) < n
    ensures Tally(code, items, n)[code(items[i])] > 0
  {
    var k := |items| - 1;
    if i < k { TallyUsed(code, items[..k], n, i); }
  }

  lemma {:induction false} SumUpdate(f: seq<nat>, s: nat, v: nat)
    requires s < |f|
    ensures H.Sum(f[s := v]) == H.Sum(f) - f[s] + v
  {
    var k := |f| - 1;
    if s == k {
      assert f[s := v][..k] == f[..k];
    } else {
      SumUpdate(f[..k], s, v);
      assert f[s := v][..k] == f[..k][s := v];
    }
  }

  lemma {:induction false} SumZeros(n: nat)
    ensures H.Sum(H.Zeros(n)) == 0
  {
    if n != 0 {
      SumZeros(n - 1);
      assert H.Zeros(n)[..n - 1] == H.Zeros(n - 1);
    }
  }

  lemma {:induction false} BumpSum(f: seq<nat>, c: int)
    ensures H.Sum(f) <= H.Sum(Bump(f, c)) <= H.Sum(f) + 1
  {
    if 0 <= c < |f| { SumUpdate(f, c, f[c] + 1); }
  }

  lemma {:induction false} TallySum<T>(code: T -> int, items: seq<T>, n: nat)
    ensures H.Sum(Tally(code, items, n)) <= |items|
  {
    if items == [] {
      SumZeros(n);
    } else {
      TallySum(code, items[..|items| - 1], n);
      BumpSum(Tally(code, items[..|items| - 1], n), code(items[|items| - 1]));
    }
  }

  // ---- what the counts say about length ----

  /** What code `c` weighs: nothing when it is none. */
  function Weigh(g: seq<nat>, c: int): nat {
    if 0 <= c < |g| then g[c] else 0
  }

  function Times(a: nat, b: nat): nat { a * b }

  ghost function Total<T>(cost: T -> nat, items: seq<T>): nat {
    if items == [] then 0 else Total(cost, items[..|items| - 1]) + cost(items[|items| - 1])
  }

  lemma {:induction false} DotZeros(g: seq<nat>)
    ensures Dot(H.Zeros(|g|), g) == 0
  {
    if g != [] {
      DotZeros(g[..|g| - 1]);
      assert H.Zeros(|g|)[..|g| - 1] == H.Zeros(|g| - 1);
    }
  }

  lemma {:induction false} BumpDot(f: seq<nat>, g: seq<nat>, c: int)
    requires |f| == |g|
    ensures Dot(Bump(f, c), g) == Dot(f, g) + Weigh(g, c)
  {
    if 0 <= c < |f| {
      DotUpdate(f, g, c, f[c] + 1, g[c]);
      assert g[c := g[c]] == g;
    }
  }

  /** When each item's length is the weight of its two codes, counts times weights is the whole length. */
  lemma {:induction false} TalliesWeigh<T>(w: T -> seq<bool>, items: seq<T>, a: T -> int, g: seq<nat>, b: T -> int, h: seq<nat>)
    requires forall i :: 0 <= i < |items| ==> |w(items[i])| == Weigh(g, a(items[i])) + Weigh(h, b(items[i]))
    ensures |Cat(w, items)| == Dot(Tally(a, items, |g|), g) + Dot(Tally(b, items, |h|), h)
  {
    if items == [] {
      DotZeros(g);
      DotZeros(h);
    } else {
      var k := |items| - 1;
      TalliesWeigh(w, items[..k], a, g, b, h);
      BumpDot(Tally(a, items[..k], |g|), g, a(items[k]));
      BumpDot(Tally(b, items[..k], |h|), h, b(items[k]));
    }
  }

  lemma {:induction false} CatLength<T>(f: T -> seq<bool>, cost: T -> nat, items: seq<T>)
    requires forall i :: 0 <= i < |items| ==> |f(items[i])| == cost(items[i])
    ensures |Cat(f, items)| == Total(cost, items)
  {
    if items != [] { CatLength(f, cost, items[..|items| - 1]); }
  }

  lemma {:induction false} DotGrows(f: seq<nat>, f': seq<nat>, g: seq<nat>)
    requires |f| == |f'| == |g| && forall i :: 0 <= i < |f| ==> f[i] <= f'[i]
    ensures Dot(f, g) <= Dot(f', g)
  {
    if f != [] {
      var k := |f| - 1;
      DotGrows(f[..k], f'[..k], g[..k]);
      assert f[k] * g[k] <= f'[k] * g[k];
    }
  }

  lemma {:induction false} DotSplit(f: seq<nat>, g: seq<nat>, h: seq<nat>, s: seq<nat>)
    requires |f| == |g| == |h| == |s| && forall i :: 0 <= i < |s| ==> s[i] == g[i] + h[i]
    ensures Dot(f, s) == Dot(f, g) + Dot(f, h)
  {
    if f != [] {
      var k := |f| - 1;
      DotSplit(f[..k], g[..k], h[..k], s[..k]);
      assert f[k] * s[k] == f[k] * g[k] + f[k] * h[k];
    }
  }

  lemma {:induction false} DotTrim(f: seq<nat>, g: seq<nat>, n: nat)
    requires |f| == |g| && n <= |g| && forall i :: n <= i < |g| ==> g[i] == 0 || f[i] == 0
    ensures Dot(f[..n], g[..n]) == Dot(f, g)
  {
    if n == |g| {
      assert f[..n] == f && g[..n] == g;
    } else {
      var k := |g| - 1;
      DotTrim(f[..k], g[..k], n);
      assert f[..k][..n] == f[..n] && g[..k][..n] == g[..n];
    }
  }

  // ---- the codes of a literal or match ----

  /** The literal or length code, and the distance code, a symbol is written with. */
  function LitCode(t: Sym): int {
    if t.dist == 0 then t.lit else 257 + LSym(t.lit)
  }

  function DistCode(t: Sym): int {
    if t.dist == 0 then -1 else DSym(t.dist)
  }

  function RunCode(r: Run): int { r.sym }

  /** The extra bits of each literal or length code, and of each distance code. */
  function LitExtra(): (x: seq<nat>)
    ensures |x| == 286 && forall i :: 0 <= i < 286 ==> x[i] == if i < 257 then 0 else LExt(i - 257)
  {
    seq(286, i requires 0 <= i < 286 => if i < 257 then 0 else LExt(i - 257))
  }

  function Plus(a: seq<nat>, b: seq<nat>): (c: seq<nat>)
    requires |a| == |b|
    ensures |c| == |a| && forall i :: 0 <= i < |a| ==> c[i] == a[i] + b[i]
  {
    seq(|a|, i requires 0 <= i < |a| => a[i] + b[i])
  }

  function DistExtra(): (x: seq<nat>)
    ensures |x| == 30 && forall i :: 0 <= i < 30 ==> x[i] == DExt(i)
  {
    seq(30, i requires 0 <= i < 30 => DExt(i))
  }
}
