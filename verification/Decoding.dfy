/** Decoding undoes encoding: the decoder's functions, run on the bits of a well-formed
    stream with anything after it, give back the stream's text. */
module Decoding {
  import opened Bits
  import opened Canonical
  import opened Runs
  import opened Tables
  import opened Stream
  import opened InflateSpec

  // ---- a reader undoes a writer ----

  /** Wherever the writer's word for a symbol stands, the reader reads that symbol and no more. */
  ghost predicate Undoes(r: Reader, w: Writer, bits: seq<bool>) {
    forall s: nat, p: nat {:trigger At(bits, p, w(s))} :: w(s) != [] && At(bits, p, w(s)) ==> r(p) == Some((s, p + |w(s)|))
  }

  /** Canonical codes that fit are undone by the canonical decoder. */
  lemma {:induction false} CodesUndone(lens: seq<nat>, bits: seq<bool>)
    requires Fits(lens)
    ensures Undoes(CodeReader(lens, bits), CodeWriter(lens), bits)
  {
    forall s: nat, p: nat | Word(lens, s) != [] && At(bits, p, Word(lens, s))
      ensures ReadSym(lens, bits, p) == Some((s, p + |Word(lens, s)|))
    {
      DecodesTo(lens, bits, p, s);
    }
  }

  /** A number after a code word is read back. */
  lemma {:induction false} WordThenField(r: Reader, w: Writer, bits: seq<bool>, p: nat, s: nat, v: nat, n: nat)
    requires Undoes(r, w, bits) && w(s) != [] && v < Pow2(n)
    requires At(bits, p, w(s) + Low(v, n))
    ensures r(p) == Some((s, p + |w(s)|))
    ensures p + |w(s)| + n <= |bits| && Field(bits, p + |w(s)|, n) == v
  {
    AtConcat(bits, p, w(s), Low(v, n));
    FieldAt(bits, p + |w(s)|, v, n);
  }

  // ---- symbols ----

  lemma {:induction false} CopyKeeps(out: seq<byte>, t: Sym)
    requires GoodSym(out, t)
    ensures |Put(out, t)| == |out| + (if t.dist == 0 then 1 else t.lit)
  {
  }

  lemma {:induction false} LengthWritten(cw: Writer, v: nat)
    requires v > 256 && LitLenWriter(cw)(v) != []
    ensures 3 <= v - 256 <= 258 && cw(257 + LSym(v - 256)) != []
    ensures LitLenWriter(cw)(v) == cw(257 + LSym(v - 256)) + LengthBits(v - 256)
  {
  }

  /** A length, after its code word: the decoder adds the base back. */
  lemma {:induction false} LengthRead(cr: Reader, cw: Writer, bits: seq<bool>, p: nat, len: nat)
    requires Undoes(cr, cw, bits) && 3 <= len <= 258 && cw(257 + LSym(len)) != []
    requires At(bits, p, cw(257 + LSym(len)) + LengthBits(len))
    ensures LitLenReader(cr, bits)(p) == Some((256 + len, p + |cw(257 + LSym(len)) + LengthBits(len)|))
  {
    LengthCovered(len);
    WordThenField(cr, cw, bits, p, 257 + LSym(len), len - LBase(LSym(len)), LExt(LSym(len)));
  }

  lemma {:induction false} LitLenUndone(cr: Reader, cw: Writer, bits: seq<bool>)
    requires Undoes(cr, cw, bits)
    ensures Undoes(LitLenReader(cr, bits), LitLenWriter(cw), bits)
  {
    hide LBase, LExt, LSymFrom, At, Low;
    var r, w := LitLenReader(cr, bits), LitLenWriter(cw);
    forall v: nat, p: nat | w(v) != [] && At(bits, p, w(v))
      ensures r(p) == Some((v, p + |w(v)|))
    {
      if v <= 256 {
        assert w(v) == cw(v);
      } else {
        LengthWritten(cw, v);
        LengthRead(cr, cw, bits, p, v - 256);
      }
    }
  }

  lemma {:induction false} DistUndone(cr: Reader, cw: Writer, bits: seq<bool>)
    requires Undoes(cr, cw, bits)
    ensures Undoes(DistReader(cr, bits), DistWriter(cw), bits)
  {
    var r, w := DistReader(cr, bits), DistWriter(cw);
    forall dist: nat, p: nat | w(dist) != [] && At(bits, p, w(dist))
      ensures r(p) == Some((dist, p + |w(dist)|))
    {
      var j := DSym(dist);
      DistanceCovered(dist);
      WordThenField(cr, cw, bits, p, j, dist - DBase(j), DExt(j));
    }
  }

  /** One symbol is passed over, its effect on the text done. */
  lemma {:induction false} OneSymbol(lr: Reader, dr: Reader, lw: Writer, dw: Writer, bits: seq<bool>, p: nat,
                                     out: seq<byte>, max: nat, t: Sym)
    requires Undoes(lr, lw, bits) && Undoes(dr, dw, bits) && GoodSym(out, t) && Codable(lw, dw, t)
    requires At(bits, p, SymBits(lw, dw, t)) && |Put(out, t)| <= max
    ensures SymbolTurn(lr, dr, p, out, max) == More(State(p + |SymBits(lw, dw, t)|, Put(out, t)))
  {
    if t.dist != 0 { AtConcat(bits, p, lw(256 + t.lit), dw(t.dist)); }
  }

  lemma {:induction false} TextPrefix(out: seq<byte>, syms: seq<Sym>, n: nat)
    requires n < |syms| && GoodSyms(out, syms)
    ensures GoodSym(Text(out, syms[..n]), syms[n]) && Text(out, syms[..n + 1]) == Put(Text(out, syms[..n]), syms[n])
    ensures |Text(out, syms[..n + 1])| <= |Text(out, syms)|
  {
    var k := |syms| - 1;
    if n < k {
      TextPrefix(out, syms[..k], n);
      CopyKeeps(Text(out, syms[..k]), syms[k]);
      assert syms[..k][..n] == syms[..n] && syms[..k][..n + 1] == syms[..n + 1];
    } else {
      assert syms[..n + 1] == syms;
    }
  }

  /** A list of items is passed over when each of them is. */
  lemma {:induction false} SkipList<T, U>(turn: State<U> -> Turn<U>, f: T -> seq<bool>, text: seq<T> -> seq<U>, s: seq<T>,
                       bits: seq<bool>, p: nat)
    requires p <= |bits| && At(bits, p, Cat(f, s))
    requires forall n :: 0 <= n < |s| ==> Passes(turn, f, text, s, p, n)
    ensures p + |Cat(f, s)| <= |bits|
    ensures Loop(turn, State(p, text([])), |bits|) == Loop(turn, State(p + |Cat(f, s)|, text(s)), |bits|)
  {
    var path := seq(|s| + 1, i requires 0 <= i <= |s| => State(p + |Cat(f, s[..i])|, text(s[..i])));
    assert s[..|s|] == s && s[..0] == [];
    assert path[0] == State(p, text([]));
    forall i | 0 <= i < |s|
      ensures Leads(turn, path[i], path[i + 1], |bits|)
    {
      assert Passes(turn, f, text, s, p, i);
      CatAt(bits, p, f, s, i);
    }
    LoopPath(turn, path, |bits|);
  }

  /** Item `n` is read where it stands, and does to the text what it should. */
  ghost predicate Passes<T, U>(turn: State<U> -> Turn<U>, f: T -> seq<bool>, text: seq<T> -> seq<U>, s: seq<T>, p: nat, n: nat)
    requires n < |s|
  {
    && f(s[n]) != []
    && turn(State(p + |Cat(f, s[..n])|, text(s[..n]))) == More(State(p + |Cat(f, s[..n])| + |f(s[n])|, text(s[..n + 1])))
  }

  ghost function TextAfter(out: seq<byte>): seq<Sym> -> seq<byte> {
    (syms: seq<Sym>) => Text(out, syms)
  }

  lemma {:induction false} SymbolPasses(lr: Reader, dr: Reader, lw: Writer, dw: Writer, bits: seq<bool>, p: nat,
                                        out: seq<byte>, max: nat, syms: seq<Sym>, n: nat)
    requires Undoes(lr, lw, bits) && Undoes(dr, dw, bits) && GoodSyms(out, syms) && n < |syms|
    requires Codable(lw, dw, syms[n]) && At(bits, p, SymsBits(lw, dw, syms)) && |Text(out, syms)| <= max
    ensures Passes(SymbolTurns(lr, dr, max), SymWriter(lw, dw), TextAfter(out), syms, p, n)
  {
    var q, o := p + |SymsBits(lw, dw, syms[..n])|, Text(out, syms[..n]);
    CatAt(bits, p, SymWriter(lw, dw), syms, n);
    TextPrefix(out, syms, n);
    OneSymbol(lr, dr, lw, dw, bits, q, o, max, syms[n]);
    assert SymbolTurns(lr, dr, max)(State(q, o)) == SymbolTurn(lr, dr, q, o, max);
  }

  /** The symbols of a block are passed over, and the decoder is left with their text. */
  lemma {:induction false} SymbolsSkip(lr: Reader, dr: Reader, lw: Writer, dw: Writer, bits: seq<bool>, p: nat, out: seq<byte>, max: nat,
                    syms: seq<Sym>)
    requires Undoes(lr, lw, bits) && Undoes(dr, dw, bits) && GoodSyms(out, syms)
    requires forall i :: 0 <= i < |syms| ==> Codable(lw, dw, syms[i])
    requires p <= |bits| && At(bits, p, SymsBits(lw, dw, syms)) && |Text(out, syms)| <= max
    ensures p + |SymsBits(lw, dw, syms)| <= |bits|
    ensures Symbols(lr, dr, bits, p, out, max) ==
            Symbols(lr, dr, bits, p + |SymsBits(lw, dw, syms)|, Text(out, syms), max)
  {
    var turn, f := SymbolTurns(lr, dr, max), SymWriter(lw, dw);
    forall n | 0 <= n < |syms|
      ensures Passes(turn, f, TextAfter(out), syms, p, n)
    {
      SymbolPasses(lr, dr, lw, dw, bits, p, out, max, syms, n);
    }
    SkipList(turn, f, TextAfter(out), syms, bits, p);
  }

  /** The end-of-block symbol ends the block. */
  lemma {:induction false} EndOfBlock(lr: Reader, dr: Reader, lw: Writer, bits: seq<bool>, p: nat, out: seq<byte>, max: nat)
    requires Undoes(lr, lw, bits) && lw(256) != [] && At(bits, p, lw(256))
    ensures p + |lw(256)| <= |bits| && Symbols(lr, dr, bits, p, out, max) == Some(State(p + |lw(256)|, out))
  {
    AtConcat(bits, p, lw(256), []);
  }

  // ---- code lengths ----

  lemma {:induction false} ClensDecode(clen: seq<nat>, bits: seq<bool>, p: nat, k: nat)
    requires |clen| == 19 && k <= 19 && forall i :: 0 <= i < 19 ==> clen[i] <= 7
    requires At(bits, p, ClenBits(clen, k))
    ensures |ClenBits(clen, k)| == 3 * k && p + 3 * k <= |bits|
    ensures forall s :: 0 <= s < 19 ==> Clens(bits, p, k)[s] == if Place(s) < k then clen[s] else 0
  {
    if k == 0 {
      AtConcat(bits, p, [], []);
    } else {
      var o := Ord(k - 1);
      AtConcat(bits, p, ClenBits(clen, k - 1), Low(clen[o], 3));
      ClensDecode(clen, bits, p, k - 1);
      ThreeBits(clen[o]);
      FieldAt(bits, p + 3 * (k - 1), clen[o], 3);
      ClensStep(clen, Clens(bits, p, k - 1), k);
    }
  }

  lemma {:induction false} ClensStep(clen: seq<nat>, c: seq<nat>, k: nat)
    requires |clen| == |c| == 19 && 1 <= k <= 19
    requires forall s :: 0 <= s < 19 ==> c[s] == if Place(s) < k - 1 then clen[s] else 0
    ensures forall s :: 0 <= s < 19 ==>
              c[Ord(k - 1) := clen[Ord(k - 1)]][s] == if Place(s) < k then clen[s] else 0
  {
    PlaceOrd(k - 1);
  }

  lemma {:induction false} ThreeBits(v: nat)
    requires v <= 7
    ensures v < Pow2(3)
  {
    Pow2Values();
  }

  lemma {:induction false} PlaceOrd(i: nat)
    requires i < 19
    ensures Place(Ord(i)) == i
  {
  }

  /** What was cut off the end was zero, so the whole list comes back. */
  lemma {:induction false} ClensWhole(clen: seq<nat>, bits: seq<bool>, p: nat, k: nat)
    requires |clen| == 19 && k <= 19 && forall i :: 0 <= i < 19 ==> clen[i] <= 7
    requires forall i :: k <= i < 19 ==> clen[Ord(i)] == 0
    requires At(bits, p, ClenBits(clen, k))
    ensures |ClenBits(clen, k)| == 3 * k && p + 3 * k <= |bits| && Clens(bits, p, k) == clen
  {
    ClensDecode(clen, bits, p, k);
    forall s | 0 <= s < 19
      ensures Clens(bits, p, k)[s] == clen[s]
    {
      var i := Place(s);
      assert clen[Ord(i)] == clen[s];
    }
  }

  /** A run in the decoder's terms: how many extra bits follow its symbol, and what it appends. */
  lemma {:induction false} RunMeans(acc: seq<nat>, r: Run)
    requires GoodRun(acc, r)
    ensures r.extra < Pow2(r.nx) && r.sym < 19
    ensures r.sym < 16 ==> r.nx == 0 && Apply(acc, r) == acc + [r.sym]
    ensures r.sym >= 16 ==> r.nx == RepeatBits(r.sym) && Apply(acc, r) == Repeated(acc, r.sym, r.extra)
    ensures r.sym == 16 ==> acc != []
  {
    Pow2Values();
  }

  function Repeated(acc: seq<nat>, s: nat, x: nat): seq<nat> {
    acc + Rep(if s == 16 && acc != [] then acc[|acc| - 1] else 0, RepeatBase(s) + x)
  }

  /** What the decoder does once a repeat symbol has been recognised. */
  lemma {:induction false} RepeatTurn(cr: Reader, bits: seq<bool>, p: nat, acc: seq<nat>, total: nat, s: nat, x: nat, q: nat)
    requires cr(p) == Some((s, q)) && 16 <= s && (s == 16 ==> acc != [])
    requires q + RepeatBits(s) <= |bits| && Field(bits, q, RepeatBits(s)) == x
    requires |acc| < total && |acc| + RepeatBase(s) + x <= total
    ensures LensTurn(cr, bits, p, acc, total) == More(State(q + RepeatBits(s), Repeated(acc, s, x)))
  {
  }

  lemma {:induction false} OneRun(cr: Reader, cw: Writer, bits: seq<bool>, p: nat, acc: seq<nat>, total: nat, r: Run)
    requires Undoes(cr, cw, bits) && cw(r.sym) != [] && GoodRun(acc, r)
    requires At(bits, p, RunBits(cw, r)) && |acc| < |Apply(acc, r)| <= total
    ensures LensTurn(cr, bits, p, acc, total) == More(State(p + |RunBits(cw, r)|, Apply(acc, r)))
  {
    RunMeans(acc, r);
    WordThenField(cr, cw, bits, p, r.sym, r.extra, r.nx);
    if r.sym >= 16 { RepeatTurn(cr, bits, p, acc, total, r.sym, r.extra, p + |cw(r.sym)|); }
  }

  lemma {:induction false} RunsPrefix(runs: seq<Run>, n: nat)
    requires n < |runs| && Good(runs)
    ensures GoodRun(Expand(runs[..n]), runs[n]) && Expand(runs[..n + 1]) == Apply(Expand(runs[..n]), runs[n])
    ensures |Expand(runs[..n])| < |Expand(runs[..n + 1])| <= |Expand(runs)|
  {
    var k := |runs| - 1;
    if n < k {
      RunsPrefix(runs[..k], n);
      assert runs[..k][..n] == runs[..n] && runs[..k][..n + 1] == runs[..n + 1];
    } else {
      assert runs[..n + 1] == runs;
    }
  }

  ghost function LengthsAfter(): seq<Run> -> seq<nat> {
    (runs: seq<Run>) => Expand(runs)
  }

  lemma {:induction false} RunPasses(cr: Reader, cw: Writer, bits: seq<bool>, p: nat, total: nat, runs: seq<Run>, n: nat)
    requires Undoes(cr, cw, bits) && Good(runs) && n < |runs| && cw(runs[n].sym) != []
    requires At(bits, p, RunsBits(cw, runs)) && |Expand(runs)| == total
    ensures Passes(LensTurns(cr, bits, total), RunWriter(cw), LengthsAfter(), runs, p, n)
  {
    hide At, Expand, Good, GoodRun, Apply, LensTurn, Undoes, Low;
    var q, acc := p + |RunsBits(cw, runs[..n])|, Expand(runs[..n]);
    CatAt(bits, p, RunWriter(cw), runs, n);
    RunsPrefix(runs, n);
    OneRun(cr, cw, bits, q, acc, total, runs[n]);
    assert LensTurns(cr, bits, total)(State(q, acc)) == LensTurn(cr, bits, q, acc, total);
  }

  /** The run-length coded lengths are expanded back. */
  lemma {:induction false} LensSkip(cr: Reader, cw: Writer, bits: seq<bool>, p: nat, total: nat, runs: seq<Run>)
    requires Undoes(cr, cw, bits) && Good(runs)
    requires forall i :: 0 <= i < |runs| ==> cw(runs[i].sym) != []
    requires p <= |bits| && At(bits, p, RunsBits(cw, runs)) && |Expand(runs)| == total
    ensures p + |RunsBits(cw, runs)| <= |bits|
    ensures Lens(cr, bits, p, [], total) == Some(State(p + |RunsBits(cw, runs)|, Expand(runs)))
  {
    var turn, f := LensTurns(cr, bits, total), RunWriter(cw);
    forall n | 0 <= n < |runs|
      ensures Passes(turn, f, LengthsAfter(), runs, p, n)
    {
      RunPasses(cr, cw, bits, p, total, runs, n);
    }
    SkipList(turn, f, LengthsAfter(), runs, bits, p);
  }
}
