/** Canonical Huffman codes (RFC 1951, section 3.2.2), given only the code lengths.

    A length of zero means the symbol has no code. `Filled(lens, n)` counts the n-bit
    patterns that some code of at most `n` bits is a prefix of, so the codes exist when
    `Filled(lens, 15)` is at most 2^15 (Kraft's inequality), and are complete when it is
    equal to it. */
module Canonical {
  import opened Bits

  /** How many symbols have code length `l`. */
  function Count(lens: seq<nat>, l: nat): (c: nat)
    ensures c <= |lens|
  {
    if lens == [] then 0
    else Count(lens[..|lens| - 1], l) + (if lens[|lens| - 1] == l then 1 else 0)
  }

  function Filled(lens: seq<nat>, n: nat): nat {
    if n == 0 then 0 else 2 * Filled(lens, n - 1) + Count(lens, n)
  }

  /** How many symbols have a code shorter than `l` bits. */
  function Index(lens: seq<nat>, l: nat): nat {
    if l <= 1 then 0 else Index(lens, l - 1) + Count(lens, l - 1)
  }

  /** How many symbols before `s` share its length. */
  function Rank(lens: seq<nat>, s: nat): nat
    requires s < |lens|
  {
    Count(lens[..s], lens[s])
  }

  function CodeVal(lens: seq<nat>, s: nat): nat
    requires s < |lens| && lens[s] > 0
  {
    2 * Filled(lens, lens[s] - 1) + Rank(lens, s)
  }

  /** The code word of symbol `s`, in the order its bits are sent. */
  function Code(lens: seq<nat>, s: nat): (c: seq<bool>)
    requires s < |lens|
    ensures |c| == lens[s]
  {
    if lens[s] == 0 then [] else High(CodeVal(lens, s), lens[s])
  }

  /** Lengths DEFLATE can use: at most 15 bits each, and Kraft's inequality holds. */
  ghost predicate Fits(lens: seq<nat>) {
    && (forall i :: 0 <= i < |lens| ==> lens[i] <= 15)
    && Filled(lens, 15) <= Pow2(15)
  }

  /** Code words that leave no bit pattern over. */
  ghost predicate Complete(lens: seq<nat>) {
    Fits(lens) && Filled(lens, 15) == Pow2(15)
  }

  // ---- counting ----

  lemma {:induction false} CountSnoc(lens: seq<nat>, v: nat, l: nat)
    ensures Count(lens + [v], l) == Count(lens, l) + (if v == l then 1 else 0)
  {
    assert (lens + [v])[..|lens|] == lens;
  }

  lemma {:induction false} CountPrefix(lens: seq<nat>, i: nat, l: nat)
    requires i <= |lens|
    ensures Count(lens[..i], l) <= Count(lens, l)
    ensures i < |lens| && lens[i] == l ==> Count(lens[..i], l) < Count(lens, l)
  {
    var n := |lens|;
    if i < n {
      var init := lens[..n - 1];
      if i < n - 1 {
        CountPrefix(init, i, l);
        assert init[..i] == lens[..i];
      }
    } else {
      assert lens[..i] == lens;
    }
  }

  lemma {:induction false} RankBelowCount(lens: seq<nat>, s: nat)
    requires s < |lens|
    ensures Rank(lens, s) < Count(lens, lens[s])
  {
    CountPrefix(lens, s, lens[s]);
  }

  /** Two symbols of one length differ in rank. */
  lemma {:induction false} RankInjective(lens: seq<nat>, s: nat, t: nat)
    requires s < t < |lens| && lens[s] == lens[t]
    ensures Rank(lens, s) < Rank(lens, t)
  {
    CountPrefix(lens[..t], s, lens[s]);
    assert lens[..t][..s] == lens[..s];
  }

  lemma {:induction false} FitsBelow(lens: seq<nat>, n: nat)
    requires Fits(lens) && n <= 15
    ensures Filled(lens, n) <= Pow2(n)
    decreases 15 - n
  {
    if n < 15 { FitsBelow(lens, n + 1); }
  }

  /** A code word's value fits its length. */
  lemma {:induction false} CodeValBound(lens: seq<nat>, s: nat)
    requires Fits(lens) && s < |lens| && lens[s] > 0
    ensures CodeVal(lens, s) < Filled(lens, lens[s]) <= Pow2(lens[s])
  {
    FitsBelow(lens, lens[s]);
    RankBelowCount(lens, s);
  }

  // ---- bits of a code, most significant first ----

  lemma {:induction false} HighInjective(v: nat, w: nat, n: nat)
    requires v < Pow2(n) && w < Pow2(n) && High(v, n) == High(w, n)
    ensures v == w
  {
    if n != 0 {
      assert High(v, n)[..n - 1] == High(v / 2, n - 1);
      assert High(w, n)[..n - 1] == High(w / 2, n - 1);
      assert High(v, n)[n - 1] == High(w, n)[n - 1];
      HighInjective(v / 2, w / 2, n - 1);
    }
  }

  lemma {:induction false} HighPrefix(v: nat, n: nat, m: nat)
    requires m <= n
    ensures High(v, n)[..m] == High(Shr(v, n - m), m)
  {
    if m < n {
      HighPrefix(v / 2, n - 1, m);
      assert High(v, n)[..m] == High(v / 2, n - 1)[..m];
    }
  }

  /** The values of longer codes, cut to `m` bits, lie past every code of `m` bits or fewer. */
  lemma {:induction false} ShrPastShorter(lens: seq<nat>, v: nat, m: nat, n: nat)
    requires m < n && v >= 2 * Filled(lens, n - 1)
    ensures Shr(v, n - m) >= Filled(lens, m)
  {
    if m + 1 < n { ShrPastShorter(lens, v / 2, m, n - 1); }
  }

  /** No code word begins another: whichever symbol's code stands at a position, it is the only one. */
  lemma {:induction false} PrefixFree(lens: seq<nat>, s: nat, t: nat)
    requires Fits(lens) && s < |lens| && t < |lens| && s != t
    requires 0 < lens[s] <= lens[t]
    ensures !(Code(lens, s) <= Code(lens, t))
  {
    hide Count, High, Pow2;
    var m, n, v := lens[s], lens[t], CodeVal(lens, t);
    var u := Shr(v, n - m);
    assert CodeVal(lens, s) < Pow2(m) && v < Pow2(n) && CodeVal(lens, s) != u by {
      CodeValBound(lens, s);
      CodeValBound(lens, t);
      if m < n {
        ShrPastShorter(lens, v, m, n);
      } else if s < t {
        RankInjective(lens, s, t);
      } else {
        RankInjective(lens, t, s);
      }
    }
    ShrBound(v, n - m, m);
    HighPrefix(v, n, m);
    if High(CodeVal(lens, s), m) == High(u, m) {
      HighInjective(CodeVal(lens, s), u, m);
    }
  }

  // ---- decoding one symbol ----

  ghost predicate CodeAt(lens: seq<nat>, bits: seq<bool>, p: nat, s: nat) {
    s < |lens| && lens[s] > 0 && At(bits, p, Code(lens, s))
  }

  /** The symbol, among the first `n`, whose code word stands at position `p`, if any. */
  ghost function SymAmong(lens: seq<nat>, bits: seq<bool>, p: nat, n: nat): (r: Option<nat>)
    requires n <= |lens|
    ensures r.Some? ==> r.value < n && lens[r.value] > 0 && p + lens[r.value] <= |bits|
  {
    if n == 0 then None
    else if CodeAt(lens, bits, p, n - 1) then
      AtIs(bits, p, Code(lens, n - 1));
      Some(n - 1)
    else SymAmong(lens, bits, p, n - 1)
  }

  /** The symbol whose code word stands at position `p`, if any. */
  ghost function SymAt(lens: seq<nat>, bits: seq<bool>, p: nat): (r: Option<nat>)
    ensures r.Some? ==> r.value < |lens| && lens[r.value] > 0 && p + lens[r.value] <= |bits|
  {
    SymAmong(lens, bits, p, |lens|)
  }

  lemma {:induction false} SymAmongIs(lens: seq<nat>, bits: seq<bool>, p: nat, n: nat)
    requires n <= |lens|
    ensures var r := SymAmong(lens, bits, p, n);
            && (r.Some? ==> CodeAt(lens, bits, p, r.value))
            && (r.None? ==> forall s :: 0 <= s < n ==> !CodeAt(lens, bits, p, s))
  {
    if n != 0 { SymAmongIs(lens, bits, p, n - 1); }
  }

  lemma {:induction false} SameStart(bits: seq<bool>, p: nat, v: seq<bool>, w: seq<bool>)
    requires At(bits, p, v) && At(bits, p, w) && |v| <= |w|
    ensures v <= w
  {
    AtIs(bits, p, v);
    AtIs(bits, p, w);
    assert w[..|v|] == bits[p..p + |w|][..|v|] == bits[p..p + |v|];
  }

  /** Canonical codes decode uniquely, whatever follows the code word. */
  lemma {:induction false} DecodesTo(lens: seq<nat>, bits: seq<bool>, p: nat, s: nat)
    requires Fits(lens) && CodeAt(lens, bits, p, s)
    ensures SymAt(lens, bits, p) == Some(s)
  {
    SymAmongIs(lens, bits, p, |lens|);
    var t := SymAt(lens, bits, p).value;
    if t != s {
      if lens[s] <= lens[t] {
        SameStart(bits, p, Code(lens, s), Code(lens, t));
        PrefixFree(lens, s, t);
      } else {
        SameStart(bits, p, Code(lens, t), Code(lens, s));
        PrefixFree(lens, t, s);
      }
    }
  }

  // ---- Kraft's sum, symbol by symbol ----

  /** The sum of 2^(n - length) over the symbols that have a code. */
  function KraftSum(lens: seq<nat>, n: nat): nat {
    if lens == [] then 0
    else KraftSum(lens[..|lens| - 1], n) + Share(lens[|lens| - 1], n)
  }

  function Share(l: nat, n: nat): nat {
    if 0 < l <= n then Pow2(n - l) else 0
  }

  lemma {:induction false} FilledSnoc(lens: seq<nat>, v: nat, n: nat)
    ensures Filled(lens + [v], n) == Filled(lens, n) + Share(v, n)
  {
    if n != 0 {
      FilledSnoc(lens, v, n - 1);
      CountSnoc(lens, v, n);
    }
  }

  lemma {:induction false} FilledEmpty(n: nat)
    ensures Filled([], n) == 0
  {
    if n != 0 { FilledEmpty(n - 1); }
  }

  /** The patterns filled level by level are those filled symbol by symbol. */
  lemma {:induction false} FilledIsKraft(lens: seq<nat>, n: nat)
    ensures Filled(lens, n) == KraftSum(lens, n)
  {
    if lens == [] {
      FilledEmpty(n);
    } else {
      var init := lens[..|lens| - 1];
      FilledIsKraft(init, n);
      FilledSnoc(init, lens[|lens| - 1], n);
      assert lens == init + [lens[|lens| - 1]];
    }
  }

  // ---- trailing zero lengths do not matter ----

  lemma {:induction false} CountTrim(lens: seq<nat>, n: nat, l: nat)
    requires n <= |lens| && l > 0
    requires forall i :: n <= i < |lens| ==> lens[i] == 0
    ensures Count(lens[..n], l) == Count(lens, l)
  {
    if n == |lens| {
      assert lens[..n] == lens;
    } else {
      var init := lens[..|lens| - 1];
      CountTrim(init, n, l);
      assert init[..n] == lens[..n];
    }
  }

  lemma {:induction false} FilledTrim(lens: seq<nat>, n: nat, l: nat)
    requires n <= |lens|
    requires forall i :: n <= i < |lens| ==> lens[i] == 0
    ensures Filled(lens[..n], l) == Filled(lens, l)
  {
    if l != 0 {
      FilledTrim(lens, n, l - 1);
      CountTrim(lens, n, l);
    }
  }

  /** The decoder, which sees the list without its trailing zeros, uses the same code words. */
  lemma {:induction false} CodeTrim(lens: seq<nat>, n: nat, s: nat)
    requires s < n <= |lens|
    requires forall i :: n <= i < |lens| ==> lens[i] == 0
    ensures Code(lens[..n], s) == Code(lens, s)
  {
    assert lens[..n][..s] == lens[..s];
    if lens[s] > 0 { FilledTrim(lens, n, lens[s] - 1); }
  }

  lemma {:induction false} FitsTrim(lens: seq<nat>, n: nat)
    requires Fits(lens) && n <= |lens|
    requires forall i :: n <= i < |lens| ==> lens[i] == 0
    ensures Fits(lens[..n])
  {
    FilledTrim(lens, n, 15);
  }

  // ---- where the decoding table keeps each symbol ----

  lemma {:induction false} IndexMono(lens: seq<nat>, l: nat, m: nat)
    requires 1 <= l < m
    ensures Index(lens, l) + Count(lens, l) <= Index(lens, m)
  {
    if l + 1 < m { IndexMono(lens, l, m - 1); }
  }

  lemma {:induction false} IndexSnoc(lens: seq<nat>, v: nat, m: nat)
    ensures Index(lens + [v], m) == Index(lens, m) + (if 1 <= v < m then 1 else 0)
  {
    if m > 1 {
      IndexSnoc(lens, v, m - 1);
      CountSnoc(lens, v, m - 1);
    }
  }

  lemma {:induction false} IndexTotal(lens: seq<nat>, m: nat)
    ensures Index(lens, m) + (if m > 0 then Count(lens, 0) else 0) <= |lens|
  {
    if lens == [] {
      IndexEmpty(m);
    } else {
      var init, v := lens[..|lens| - 1], lens[|lens| - 1];
      IndexTotal(init, m);
      IndexSnoc(init, v, m);
      assert lens == init + [v];
    }
  }

  lemma {:induction false} IndexEmpty(m: nat)
    ensures Index([], m) == 0
  {
    if m > 1 { IndexEmpty(m - 1); }
  }
}
