/** The format's own code: its code words, written out in the standard, are the canonical ones for its lengths. */
module FixedCode {
  import opened Bits
  import opened Canonical
  import opened Tables
  import opened Stream
  import opened InflateSpec
  import opened Decoding

  function Clamp(n: int, hi: nat): (r: nat)
    ensures r <= hi
  {
    if n <= 0 then 0 else if n >= hi then hi else n
  }

  lemma {:induction false} FixedLitCount(n: nat, l: nat)
    requires n <= 288 && l >= 1
    ensures Count(FixedLit()[..n], l) ==
            if l == 7 then Clamp(n - 256, 24) else if l == 8 then Clamp(n, 144) + Clamp(n - 280, 8)
            else if l == 9 then Clamp(n - 144, 112) else 0
  {
    if n != 0 {
      FixedLitCount(n - 1, l);
      assert FixedLit()[..n][..n - 1] == FixedLit()[..n - 1];
    }
  }

  lemma {:induction false} FixedLitFilled(n: nat)
    ensures Filled(FixedLit(), n) == if n < 7 then 0 else if n == 7 then 24 else if n == 8 then 200 else Pow2(n)
  {
    Pow2Values();
    if n != 0 {
      FixedLitFilled(n - 1);
      FixedLitCount(288, n);
      assert FixedLit()[..288] == FixedLit();
    }
  }

  lemma {:induction false} FixedDistCount(n: nat, l: nat)
    requires n <= 30 && l >= 1
    ensures Count(FixedDist()[..n], l) == if l == 5 then n else 0
  {
    if n != 0 {
      FixedDistCount(n - 1, l);
      assert FixedDist()[..n][..n - 1] == FixedDist()[..n - 1];
    }
  }

  lemma {:induction false} FixedDistFilled(n: nat)
    ensures n < 5 ==> Filled(FixedDist(), n) == 0
    ensures n == 5 ==> Filled(FixedDist(), n) == 30
    ensures Filled(FixedDist(), n) <= Pow2(n)
  {
    Pow2Values();
    if n != 0 {
      FixedDistFilled(n - 1);
      FixedDistCount(30, n);
      assert FixedDist()[..30] == FixedDist();
    }
  }

  /** The fixed code's lengths make a complete code for literals, and leave two distance codes unused. */
  lemma {:induction false} FixedFits()
    ensures Complete(FixedLit()) && Fits(FixedDist())
    ensures Fits(FixedLit())
  {
    hide Filled, Pow2;
    FixedLitFilled(15);
    FixedDistFilled(15);
  }

  lemma {:induction false} FixedLitRank(s: nat)
    requires s < 288
    ensures Rank(FixedLit(), s) ==
            if s < 144 then s else if s < 256 then s - 144 else if s < 280 then s - 256 else s - 280 + 144
  {
    FixedLitCount(s, FixedLen(s));
  }

  /** The code words of the standard are the canonical ones. */
  lemma {:induction false} FixedWords(s: nat)
    ensures FixedWord(s) == Word(FixedLit(), s) && FixedDistWord(s) == Word(FixedDist(), s)
  {
    hide High, Filled, Pow2;
    if s < 288 {
      FixedLitRank(s);
      FixedLitFilled(6);
      FixedLitFilled(7);
      FixedLitFilled(8);
    }
    if s < 30 {
      FixedDistFilled(4);
      FixedDistCount(s, 5);
    }
  }

  lemma {:induction false} SameWords(r: Reader, v: Writer, w: Writer, bits: seq<bool>)
    requires Undoes(r, v, bits) && forall s: nat :: v(s) == w(s)
    ensures Undoes(r, w, bits)
  {
    forall s: nat, p: nat | w(s) != [] && At(bits, p, w(s))
      ensures r(p) == Some((s, p + |w(s)|))
    {
      assert At(bits, p, v(s));
    }
  }

  /** So they are read back. */
  lemma {:induction false} FixedUndone(bits: seq<bool>)
    ensures Undoes(CodeReader(FixedLit(), bits), FixedWord, bits)
    ensures Undoes(CodeReader(FixedDist(), bits), FixedDistWord, bits)
  {
    FixedFits();
    CodesUndone(FixedLit(), bits);
    CodesUndone(FixedDist(), bits);
    hide Word, FixedWord, FixedDistWord, Undoes, FixedLit, FixedDist, Fits, Complete;
    var v, w := CodeWriter(FixedLit()), CodeWriter(FixedDist());
    forall s: nat ensures v(s) == FixedWord(s) && w(s) == FixedDistWord(s) { FixedWords(s); }
    SameWords(CodeReader(FixedLit(), bits), v, FixedWord, bits);
    SameWords(CodeReader(FixedDist(), bits), w, FixedDistWord, bits);
  }

  lemma {:induction false} FixedSome(s: nat, d: nat)
    requires s < 288 && d < 30
    ensures FixedWord(s) != [] && FixedDistWord(d) != []
  {
    FixedWords(s);
    FixedWords(d);
  }

  /** Every symbol has a code word. */
  lemma {:induction false} FixedCodable(out: seq<byte>, t: Sym)
    requires GoodSym(out, t)
    ensures Codable(LitLenWriter(FixedWord), DistWriter(FixedDistWord), t)
  {
    hide FixedWord, FixedDistWord, LengthBits, DistBits, LSymFrom, DSymFrom;
    if t.dist == 0 {
      FixedSome(t.lit, 0);
    } else {
      FixedSome(257 + LSym(t.lit), DSym(t.dist));
    }
  }

  lemma {:induction false} FixedAllCodable(out: seq<byte>, syms: seq<Sym>)
    requires GoodSyms(out, syms)
    ensures AllCodable(LitLenWriter(FixedWord), DistWriter(FixedDistWord), syms)
  {
    hide GoodSym, Codable;
    if syms != [] {
      var n := |syms| - 1;
      FixedAllCodable(out, syms[..n]);
      FixedCodable(Text(out, syms[..n]), syms[n]);
      assert forall i :: 0 <= i < n ==> syms[..n][i] == syms[i];
    }
  }
}
