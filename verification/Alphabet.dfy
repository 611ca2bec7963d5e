/** One of the three alphabets a block is written with: how often each symbol occurs, the length
    of its code word, and the code word itself (lfreq, llen and lcode and their like). */
module Alphabet {
  import opened Bits
  import opened Canonical
  import opened Stream
  import H = Huffman
  import CodeLengths
  import opened CodeWords
  import opened BitWriter
  import opened Counting

  // ---- the lengths df_lengths gives make codes DEFLATE can use ----

  lemma {:induction false} CountNone(lens: seq<nat>, l: nat)
    requires forall i :: 0 <= i < |lens| ==> lens[i] != l
    ensures Count(lens, l) == 0
  {
    if lens != [] { CountNone(lens[..|lens| - 1], l); }
  }

  /** Past the longest code, each further bit doubles what is filled. */
  lemma {:induction false} FilledPast(lens: seq<nat>, m: nat, n: nat)
    requires m <= n && forall i :: 0 <= i < |lens| ==> lens[i] <= m
    ensures Filled(lens, m) <= Pow2(m) ==> Filled(lens, n) <= Pow2(n)
    ensures Filled(lens, m) == Pow2(m) ==> Filled(lens, n) == Pow2(n)
  {
    if m < n {
      FilledPast(lens, m, n - 1);
      CountNone(lens, n);
    }
  }

  lemma {:induction false} KraftFits(lens: seq<nat>, m: nat)
    requires m <= 15 && forall i :: 0 <= i < |lens| ==> lens[i] <= m
    ensures KraftSum(lens, m) <= Pow2(m) ==> Fits(lens)
    ensures KraftSum(lens, m) == Pow2(m) ==> Complete(lens)
  {
    hide Filled, Pow2, KraftSum;
    FilledIsKraft(lens, m);
    FilledPast(lens, m, 15);
  }

  /** Code lengths for any counts satisfy Kraft's inequality, and with two symbols in use are complete. */
  lemma {:induction false} CodesFit(f: seq<nat>, maxlen: nat)
    requires 1 <= maxlen <= 15 && |f| < H.Fib(maxlen + 3)
    ensures Fits(H.Lengths(f, maxlen)) && H.Covers(f, H.Lengths(f, maxlen), maxlen)
    ensures H.Used(f) >= 2 ==> Complete(H.Lengths(f, maxlen))
  {
    hide Fits, Complete, H.Used, H.Fib, KraftSum;
    H.LengthsComplete(f, maxlen);
    KraftFits(H.Lengths(f, maxlen), maxlen);
    Pow2Mono(maxlen - 1, maxlen);
    if H.Used(f) == 0 { NoLengths(f, maxlen); }
  }

  lemma {:induction false} NoLengths(f: seq<nat>, maxlen: nat)
    requires H.Used(f) == 0 && |f| < H.Fib(maxlen + 3)
    ensures H.Lengths(f, maxlen) == H.Zeros(|f|) && KraftSum(H.Lengths(f, maxlen), maxlen) == 0
  {
    hide H.Used, H.Fib;
    H.KraftZeros(|f|, maxlen);
  }

  /** A lone code word of one bit fits. */
  lemma {:induction false} LoneFits(lens: seq<nat>)
    requires |lens| > 0 && forall i :: 0 <= i < |lens| ==> lens[i] == 0
    ensures Fits(lens[0 := 1])
  {
    hide Fits, Pow2;
    assert lens == H.Zeros(|lens|);
    H.KraftZeros(|lens|, 15);
    H.KraftUpdate(lens, 0, 1, 15);
    Pow2Mono(14, 15);
    KraftFits(lens[0 := 1], 15);
  }

  lemma {:induction false} FibValues()
    ensures H.Fib(10) == 55 && H.Fib(18) == 2584
  {
    assert H.Fib(6) == 8 && H.Fib(7) == 13;
    assert H.Fib(10) == 55 && H.Fib(11) == 89;
    assert H.Fib(14) == 377 && H.Fib(15) == 610;
  }

  /** Two symbols that occur are two leaves. */
  lemma {:induction false} UsedTwo(f: seq<nat>, s: nat, t: nat)
    requires s < t < |f| && f[s] > 0 && f[t] > 0
    ensures H.Used(f) >= 2
  {
    hide H.Leaves;
    H.LeavesShape(f);
    H.LeavesSome(f, s);
    H.LeavesSome(f, t);
  }

  lemma {:induction false} UsedSnoc(f: seq<nat>, i: nat)
    requires i < |f|
    ensures H.Used(f[..i + 1]) == H.Used(f[..i]) + (if f[i] > 0 then 1 else 0)
  {
    CodeLengths.LeavesSnoc(f, i);
  }

  lemma {:induction false} UsedUpdate(f: seq<nat>, s: nat, v: nat)
    requires s < |f| && f[s] == 0 && v > 0
    ensures H.Used(f[s := v]) == H.Used(f) + 1
  {
    var k := |f| - 1;
    if s == k {
      assert f[s := v][..k] == f[..k];
    } else {
      UsedUpdate(f[..k], s, v);
      assert f[s := v][..k] == f[..k][s := v];
    }
  }

  /** The stored code word of every symbol, written low bit first, is the word of the code `lens`. */
  ghost predicate Spells(len: seq<nat>, code: seq<nat>, lens: seq<nat>) {
    |len| == |code| && forall s :: 0 <= s < |len| ==> len[s] <= 15 && Low(code[s], len[s]) == Word(lens, s)
  }

  /** So it is for the list without its trailing zeros. */
  lemma {:induction false} SpellsTrimmed(len: seq<nat>, code: seq<nat>, n: nat)
    requires |len| == |code| && n <= |len| && forall s :: 0 <= s < |len| ==> len[s] <= 15 && StoredCode(len, s, code[s])
    requires forall s :: n <= s < |len| ==> len[s] == 0
    ensures Spells(len, code, len[..n])
  {
    forall s | 0 <= s < |len|
      ensures Low(code[s], len[s]) == Word(len[..n], s)
    {
      hide Code, Low;
      SpellOne(len, code[s], s, n);
    }
  }

  lemma {:induction false} SpellOne(len: seq<nat>, c: nat, s: nat, n: nat)
    requires s < |len| && n <= |len| && StoredCode(len, s, c)
    requires forall s :: n <= s < |len| ==> len[s] == 0
    ensures Low(c, len[s]) == Word(len[..n], s)
  {
    if s < n { CodeTrim(len, n, s); }
  }

  class Alphabet {
    const n: nat
    const freq: array<nat>
    const len: array<nat>
    const code: array<nat>

    constructor (n: nat)
      requires n <= 286
      ensures this.n == n && Shape() && fresh(freq) && fresh(len) && fresh(code)
    {
      this.n := n;
      freq := new nat[n](_ => 0);
      len := new nat[n](_ => 0);
      code := new nat[n](_ => 0);
    }

    ghost predicate Shape() {
      freq.Length == len.Length == code.Length == n <= 286 && freq != len && freq != code && len != code
    }

    method Reset()
      requires Shape()
      modifies freq
      ensures freq[..] == H.Zeros(n)
    {
      var i := 0;
      while i < n
        invariant 0 <= i <= n && forall k :: 0 <= k < i ==> freq[k] == 0
      {
        freq[i] := 0;
        i := i + 1;
      }
    }

    /** One more occurrence of symbol `s`. */
    method Note(s: nat)
      requires Shape() && s < n
      modifies freq
      ensures freq[..] == old(freq[..])[s := old(freq[s]) + 1]
    {
      freq[s] := freq[s] + 1;
    }

    /** At least two symbols are given a count, so that their code can be complete. */
    method ForceTwo()
      requires Shape() && n >= 2
      modifies freq
      ensures H.Used(freq[..]) >= 2 && H.Sum(freq[..]) <= H.Sum(old(freq[..])) + 2
      ensures forall s :: 0 <= s < n ==> freq[s] >= old(freq[s])
      ensures if H.Used(old(freq[..])) >= 2 then freq[..] == old(freq[..]) else H.Used(freq[..]) == 2
      ensures forall s :: 0 <= s < n && freq[s] != old(freq[s]) ==>
                freq[s] == 1 && old(freq[s]) == 0 && forall t :: 0 <= t < s ==> freq[t] > 0
    {
      var k := CountUsed();
      var i := 0;
      ghost var forced := 0;
      while k < 2 && i < n
        invariant 0 <= i <= n && k == H.Used(freq[..]) && forced <= k && (forced > 0 ==> k <= 2)
        invariant H.Sum(freq[..]) == H.Sum(old(freq[..])) + forced
        invariant forall s :: 0 <= s < n ==> freq[s] >= old(freq[s])
        invariant forall s :: 0 <= s < i ==> freq[s] > 0
        invariant forall s :: i <= s < n ==> freq[s] == old(freq[s])
        invariant forall s :: 0 <= s < i && freq[s] != old(freq[s]) ==> freq[s] == 1 && old(freq[s]) == 0
        invariant H.Used(old(freq[..])) >= 2 ==> freq[..] == old(freq[..])
        invariant H.Used(old(freq[..])) < 2 ==> k <= 2
      {
        if freq[i] == 0 {
          UsedUpdate(freq[..], i, 1);
          SumUpdate(freq[..], i, 1);
          freq[i] := 1;
          k := k + 1;
          forced := forced + 1;
        }
        i := i + 1;
      }
      if k < 2 { UsedTwo(freq[..], 0, 1); }
    }

    method CountUsed() returns (k: nat)
      requires Shape()
      ensures k == H.Used(freq[..])
    {
      k := 0;
      var i := 0;
      while i < n
        invariant 0 <= i <= n && k == H.Used(freq[..i])
      {
        UsedSnoc(freq[..], i);
        assert freq[..][..i] == freq[..i] && freq[..][..i + 1] == freq[..i + 1];
        if freq[i] > 0 { k := k + 1; }
        i := i + 1;
      }
      assert freq[..n] == freq[..];
    }

    /** df_lengths. */
    method MakeLengths(maxlen: nat)
      requires Shape() && 1 <= maxlen <= 15 && n < H.Fib(maxlen + 3) && H.Sum(freq[..]) < 0x1_0000_0000
      modifies len
      ensures len[..] == H.Lengths(freq[..], maxlen)
      ensures H.Covers(freq[..], len[..], maxlen) && Fits(len[..])
      ensures H.Used(freq[..]) >= 2 ==> Complete(len[..])
    {
      hide Fits, Complete, H.Fib;
      CodesFit(freq[..], maxlen);
      CodeLengths.Lengths(freq, maxlen, len);
    }

    /** df_codes. */
    method AssignCodes()
      requires Shape() && forall s :: 0 <= s < n ==> len[s] <= 15
      modifies code
      ensures Coded()
    {
      hide StoredCode;
      Codes(len, code);
    }

    ghost predicate Coded()
      requires Shape()
      reads len, code
    {
      forall s :: 0 <= s < n ==> len[s] <= 15 && StoredCode(len[..], s, code[s])
    }

    /** Lengths of zero at the end, past the first `low`, are not sent. */
    method Trim(low: nat) returns (k: nat)
      requires Shape() && low <= n
      ensures low <= k <= n && (forall s :: k <= s < n ==> len[s] == 0) && (k > low ==> len[k - 1] != 0)
    {
      k := n;
      while k > low && len[k - 1] == 0
        invariant low <= k <= n && forall s :: k <= s < n ==> len[s] == 0
      {
        k := k - 1;
      }
    }

    /** Write one symbol's code word. */
    method Put(z: BitWriter, s: nat, ghost lens: seq<nat>)
      requires Shape() && Spells(len[..], code[..], lens) && s < n && z.Valid()
      modifies z
      ensures z.Valid() && z.Stream() == old(z.Stream()) + Word(lens, s)
    {
      hide Low, Word;
      z.PutBits(code[s], len[s]);
    }
  }
}
