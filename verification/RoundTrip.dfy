/** The round trip: inflating a stream that encodes a text, whatever bytes follow it, gives
    back that text and the stream's own length. */
module RoundTrip {
  import opened Bits
  import opened Canonical
  import opened Runs
  import opened Tables
  import opened Stream
  import opened InflateSpec
  import opened Decoding
  import opened FixedCode

  // ---- the symbols of a dynamic block ----

  lemma {:induction false} SymbolsThenEnd(lr: Reader, dr: Reader, lw: Writer, dw: Writer, bits: seq<bool>, p: nat,
                                          out: seq<byte>, max: nat, syms: seq<Sym>)
    requires Undoes(lr, lw, bits) && Undoes(dr, dw, bits) && GoodSyms(out, syms) && AllCodable(lw, dw, syms)
    requires p <= |bits| && |Text(out, syms)| <= max && lw(256) != []
    requires At(bits, p, SymsBits(lw, dw, syms) + lw(256))
    ensures Symbols(lr, dr, bits, p, out, max) == Some(State(p + |SymsBits(lw, dw, syms) + lw(256)|, Text(out, syms)))
  {
    var b := SymsBits(lw, dw, syms);
    AtConcat(bits, p, b, lw(256));
    SymbolsSkip(lr, dr, lw, dw, bits, p, out, max, syms);
    EndOfBlock(lr, dr, lw, bits, p + |b|, Text(out, syms), max);
  }

  lemma {:induction false} BothUndone(lens: seq<nat>, bits: seq<bool>)
    requires Fits(lens)
    ensures Undoes(LitLenReader(CodeReader(lens, bits), bits), LitLenWriter(CodeWriter(lens)), bits)
    ensures Undoes(DistReader(CodeReader(lens, bits), bits), DistWriter(CodeWriter(lens)), bits)
  {
    CodesUndone(lens, bits);
    LitLenUndone(CodeReader(lens, bits), CodeWriter(lens), bits);
    DistUndone(CodeReader(lens, bits), CodeWriter(lens), bits);
  }

  lemma {:induction false} BlockSymbolsDecode(llen: seq<nat>, dlen: seq<nat>, bits: seq<bool>, p: nat, out: seq<byte>,
                                              max: nat, lw: Writer, dw: Writer, syms: seq<Sym>)
    requires Fits(llen) && Fits(dlen) && lw == LitLenWriter(CodeWriter(llen)) && dw == DistWriter(CodeWriter(dlen))
    requires GoodSyms(out, syms) && AllCodable(lw, dw, syms) && lw(256) != []
    requires p <= |bits| && |Text(out, syms)| <= max && At(bits, p, SymsBits(lw, dw, syms) + lw(256))
    ensures BlockSymbols(llen, dlen, bits, p, out, max) ==
            Some(State(p + |SymsBits(lw, dw, syms) + lw(256)|, Text(out, syms)))
  {
    BothUndone(llen, bits);
    BothUndone(dlen, bits);
    SymbolsThenEnd(LitLenReader(CodeReader(llen, bits), bits), DistReader(CodeReader(dlen, bits), bits), lw, dw,
                   bits, p, out, max, syms);
  }

  // ---- the header of a dynamic block ----

  lemma {:induction false} HeaderDecodes(llen: seq<nat>, dlen: seq<nat>, clen: seq<nat>, ncl: nat, bits: seq<bool>, p: nat)
    requires 257 <= |llen| <= 286 && 1 <= |dlen| <= 30 && |clen| == 19 && 4 <= ncl <= 19
    requires (forall i :: 0 <= i < 19 ==> clen[i] <= 7) && forall i :: ncl <= i < 19 ==> clen[Ord(i)] == 0
    requires At(bits, p, DynamicHeader(llen, dlen, clen, ncl))
    ensures |DynamicHeader(llen, dlen, clen, ncl)| == 14 + 3 * ncl && p + 14 + 3 * ncl <= |bits|
    ensures Field(bits, p, 5) == |llen| - 257 && Field(bits, p + 5, 5) == |dlen| - 1 && Field(bits, p + 10, 4) == ncl - 4
    ensures Clens(bits, p + 14, ncl) == clen
  {
    hide At, Low, Field, Clens, ClenBits;
    var a, b, c, d := Low(|llen| - 257, 5), Low(|dlen| - 1, 5), Low(ncl - 4, 4), ClenBits(clen, ncl);
    assert DynamicHeader(llen, dlen, clen, ncl) == a + (b + (c + d));
    AtConcat(bits, p, a, b + (c + d));
    AtConcat(bits, p + 5, b, c + d);
    AtConcat(bits, p + 10, c, d);
    Pow2Values();
    FieldAt(bits, p, |llen| - 257, 5);
    FieldAt(bits, p + 5, |dlen| - 1, 5);
    FieldAt(bits, p + 10, ncl - 4, 4);
    ClensWhole(clen, bits, p + 14, ncl);
  }

  lemma {:induction false} RunsDecode(clen: seq<nat>, cw: Writer, runs: seq<Run>, lens: seq<nat>, bits: seq<bool>, p: nat,
                                      ncl: nat)
    requires |clen| == 19 && ncl <= 19 && Complete(clen) && cw == CodeWriter(clen)
    requires Good(runs) && Expand(runs) == lens && forall i :: 0 <= i < |runs| ==> cw(runs[i].sym) != []
    requires p + 3 * ncl <= |bits| && Clens(bits, p, ncl) == clen && At(bits, p + 3 * ncl, RunsBits(cw, runs))
    ensures ReadLens(bits, p, ncl, |lens|) == Some(State(p + 3 * ncl + |RunsBits(cw, runs)|, lens))
    ensures p + 3 * ncl + |RunsBits(cw, runs)| <= |bits|
  {
    hide CodeReader, CodeWriter, Lens, Clens, RunsBits, Good, Expand;
    CodesUndone(clen, bits);
    LensSkip(CodeReader(clen, bits), cw, bits, p + 3 * ncl, |lens|, runs);
  }

  lemma {:induction false} BodyIs(llen: seq<nat>, dlen: seq<nat>, bits: seq<bool>, p: nat, out: seq<byte>, max: nat)
    requires |llen| >= 257 && llen[256] != 0 && Fits(llen) && Fits(dlen) && p <= |bits|
    ensures DynamicBody(llen + dlen, |llen|, |dlen|, bits, p, out, max) == BlockSymbols(llen, dlen, bits, p, out, max)
  {
    var lens := llen + dlen;
    assert lens[..|llen|] == llen && lens[|llen|..] == dlen;
  }

  /** What inf_dynamic does when every part of the header is in order. */
  lemma {:induction false} DynamicIs(bits: seq<bool>, p: nat, out: seq<byte>, max: nat, nlen: nat, ndist: nat, ncode: nat,
                                     q: nat, lens: seq<nat>)
    requires p + 14 <= |bits| && 257 <= nlen <= 286 && 1 <= ndist <= 30 && 4 <= ncode <= 19
    requires Field(bits, p, 5) == nlen - 257 && Field(bits, p + 5, 5) == ndist - 1 && Field(bits, p + 10, 4) == ncode - 4
    requires ReadLens(bits, p + 14, ncode, nlen + ndist) == Some(State(q, lens)) && q <= |bits|
    ensures DynamicAt(bits, p, out, max) == DynamicBody(lens, nlen, ndist, bits, q, out, max)
  {
    hide ReadLens, DynamicBody;
  }

  /** What a good dynamic block promises, said of its parts. */
  lemma {:induction false} GoodDynamic(out: seq<byte>, b: Block, cw: Writer, lw: Writer, dw: Writer)
    requires b.Dynamic? && GoodBlock(out, b)
    requires cw == CodeWriter(b.clen) && lw == LitLenWriter(CodeWriter(b.llen)) && dw == DistWriter(CodeWriter(b.dlen))
    ensures 257 <= |b.llen| <= 286 && 1 <= |b.dlen| <= 30 && Fits(b.llen) && Fits(b.dlen) && b.llen[256] > 0
    ensures |b.clen| == 19 && 4 <= b.ncl <= 19 && Complete(b.clen)
    ensures (forall i :: 0 <= i < 19 ==> b.clen[i] <= 7) && forall i :: b.ncl <= i < 19 ==> b.clen[Ord(i)] == 0
    ensures Good(b.runs) && Expand(b.runs) == b.llen + b.dlen && forall i :: 0 <= i < |b.runs| ==> cw(b.runs[i].sym) != []
    ensures GoodSyms(out, b.syms) && AllCodable(lw, dw, b.syms)
    ensures lw(256) == Word(b.llen, 256) && lw(256) != []
  {
    hide Fits, Complete, Good, GoodSyms, Expand, Ord;
  }

  lemma {:induction false} DynamicParts(b: Block, cw: Writer, lw: Writer, dw: Writer, bits: seq<bool>, p: nat)
    returns (h: seq<bool>, r: seq<bool>, s: seq<bool>)
    requires b.Dynamic? && At(bits, p, DynamicBits(b))
    requires cw == CodeWriter(b.clen) && lw == LitLenWriter(CodeWriter(b.llen)) && dw == DistWriter(CodeWriter(b.dlen))
    requires lw(256) == Word(b.llen, 256)
    ensures h == DynamicHeader(b.llen, b.dlen, b.clen, b.ncl) && r == RunsBits(cw, b.runs) && s == SymsBits(lw, dw, b.syms) + lw(256)
    ensures |DynamicBits(b)| == |h| + |r| + |s|
    ensures At(bits, p, h) && At(bits, p + |h|, r) && At(bits, p + |h| + |r|, s)
  {
    hide At, DynamicHeader, RunsBits, SymsBits, Word, CodeWriter, LitLenWriter, DistWriter;
    h, r, s := DynamicHeader(b.llen, b.dlen, b.clen, b.ncl), RunsBits(cw, b.runs), SymsBits(lw, dw, b.syms) + lw(256);
    AtConcat(bits, p, h, r + s);
    AtConcat(bits, p + |h|, r, s);
  }

  lemma {:induction false} DynamicDecodes(b: Block, bits: seq<bool>, p: nat, out: seq<byte>, max: nat,
                                          cw: Writer, lw: Writer, dw: Writer)
    requires b.Dynamic? && GoodBlock(out, b) && p <= |bits| && |Text(out, b.syms)| <= max
    requires cw == CodeWriter(b.clen) && lw == LitLenWriter(CodeWriter(b.llen)) && dw == DistWriter(CodeWriter(b.dlen))
    requires At(bits, p, DynamicBits(b))
    ensures DynamicAt(bits, p, out, max) == Some(State(p + |DynamicBits(b)|, Text(out, b.syms)))
  {
    hide *;
    GoodDynamic(out, b, cw, lw, dw);
    var h, r, s := DynamicParts(b, cw, lw, dw, bits, p);
    HeaderDecodes(b.llen, b.dlen, b.clen, b.ncl, bits, p);
    RunsDecode(b.clen, cw, b.runs, b.llen + b.dlen, bits, p + 14, b.ncl);
    var q := p + |h| + |r|;
    DynamicIs(bits, p, out, max, |b.llen|, |b.dlen|, b.ncl, q, b.llen + b.dlen);
    BodyIs(b.llen, b.dlen, bits, q, out, max);
    BlockSymbolsDecode(b.llen, b.dlen, bits, q, out, max, lw, dw, b.syms);
  }

  // ---- a block in the format's own code ----

  lemma {:induction false} FixedDecodes(syms: seq<Sym>, bits: seq<bool>, p: nat, out: seq<byte>, max: nat)
    requires GoodSyms(out, syms) && p <= |bits| && |Text(out, syms)| <= max && At(bits, p, FixedBits(syms))
    ensures BlockSymbols(FixedLit(), FixedDist(), bits, p, out, max) == Some(State(p + |FixedBits(syms)|, Text(out, syms)))
  {
    hide GoodSyms, AllCodable, Undoes, SymsBits, At, FixedLit, FixedDist, Text, Fits, Complete, CodeReader, Symbols, FixedDistWord;
    var cl, cd := CodeReader(FixedLit(), bits), CodeReader(FixedDist(), bits);
    FixedFits();
    FixedUndone(bits);
    LitLenUndone(cl, FixedWord, bits);
    DistUndone(cd, FixedDistWord, bits);
    FixedAllCodable(out, syms);
    FixedSome(256, 0);
    hide FixedWord, LitLenReader, DistReader, DistWriter;
    SymbolsThenEnd(LitLenReader(cl, bits), DistReader(cd, bits), LitLenWriter(FixedWord), DistWriter(FixedDistWord), bits, p,
                   out, max, syms);
  }

  // ---- a stored block ----

  lemma {:induction false} ByteSame(z: seq<byte>, b: nat, s: seq<byte>, i: nat)
    requires i < |s| && b + |s| <= |z| && Unpack(z)[8 * b..8 * b + 8 * |s|] == Unpack(s)
    ensures z[b + i] == s[i]
  {
    hide Low;
    UnpackAt(z, b + i);
    UnpackAt(s, i);
    SliceOf(Unpack(z), 8 * b, 8 * |s|, 8 * i, 8);
    Pow2Values();
    LowInjective(z[b + i], s[i], 8);
  }

  lemma {:induction false} SliceOf<T>(s: seq<T>, a: nat, n: nat, b: nat, m: nat)
    requires a + n <= |s| && b + m <= n
    ensures s[a..a + n][b..b + m] == s[a + b..a + b + m]
  {
    var u, v := s[a..a + n][b..b + m], s[a + b..a + b + m];
    assert forall i :: 0 <= i < m ==> u[i] == v[i];
  }

  lemma {:induction false} BytesAt(z: seq<byte>, b: nat, s: seq<byte>)
    requires At(Unpack(z), 8 * b, Unpack(s))
    ensures b + |s| <= |z| && z[b..b + |s|] == s
  {
    AtIs(Unpack(z), 8 * b, Unpack(s));
    forall i | 0 <= i < |s|
      ensures z[b + i] == s[i]
    {
      ByteSame(z, b, s, i);
    }
    assert z[b..b + |s|] == s;
  }

  lemma {:induction false} StoredDecodes(data: seq<byte>, z: seq<byte>, p: nat, out: seq<byte>, max: nat)
    requires |data| < 0x1_0000 && |out + data| <= max && At(Unpack(z), p, StoredBits(p, data))
    ensures StoredAt(z, p, out, max) == Some(State(p + |StoredBits(p, data)|, out + data))
  {
    hide Unpack, Pad, At;
    var n, k := |data|, ByteUp(p);
    var s := StoredHeader(n) + data;
    AtConcat(Unpack(z), p, Pad(p), Unpack(s));
    PadTo(p);
    BytesAt(z, k, s);
    var w := z[k..k + 4 + n];
    assert w == s;
    assert z[k] == w[0] && z[k + 1] == w[1] && z[k + 4..k + 4 + n] == w[4..];
    assert s[4..] == data;
  }

  lemma {:induction false} PadTo(p: nat)
    ensures p + |Pad(p)| == 8 * ByteUp(p)
  {
  }

  // ---- any block, and all of them ----

  lemma {:induction false} HeadDecodes(bits: seq<bool>, p: nat, last: bool, kind: nat, rest: seq<bool>)
    requires kind < 4 && At(bits, p, [last] + (Low(kind, 2) + rest))
    ensures p + 3 <= |bits| && bits[p] == last && Field(bits, p + 1, 2) == kind && At(bits, p + 3, rest)
  {
    AtConcat(bits, p, [last], Low(kind, 2) + rest);
    AtConcat(bits, p + 1, Low(kind, 2), rest);
    AtIs(bits, p, [last]);
    assert [last][0] == bits[p..p + 1][0];
    Pow2Values();
    FieldAt(bits, p + 1, kind, 2);
  }

  lemma {:induction false} TurnIs(z: seq<byte>, p: nat, out: seq<byte>, max: nat, last: bool, kind: nat, st: State<byte>)
    requires p + 3 <= 8 * |z| && Unpack(z)[p] == last && Field(Unpack(z), p + 1, 2) == kind
    requires BodyAt(z, kind, p + 3, out, max) == Some(st)
    ensures BlockTurn(z, p, out, max) == if last then Done(st) else More(st)
  {
  }

  lemma {:induction false} StoredTurn(z: seq<byte>, p: nat, last: bool, out: seq<byte>, data: seq<byte>, max: nat)
    requires |data| < 0x1_0000 && |out + data| <= max
    requires At(Unpack(z), p, [last] + (Low(0, 2) + StoredBits(p + 3, data)))
    ensures var st := State(p + |[last] + (Low(0, 2) + StoredBits(p + 3, data))|, out + data);
            BlockTurn(z, p, out, max) == if last then Done(st) else More(st)
  {
    HeadDecodes(Unpack(z), p, last, 0, StoredBits(p + 3, data));
    StoredDecodes(data, z, p + 3, out, max);
    TurnIs(z, p, out, max, last, 0, State(p + 3 + |StoredBits(p + 3, data)|, out + data));
  }

  lemma {:induction false} DynamicTurn(z: seq<byte>, p: nat, last: bool, out: seq<byte>, b: Block, max: nat)
    requires b.Dynamic? && GoodBlock(out, b) && |Text(out, b.syms)| <= max
    requires At(Unpack(z), p, [last] + (Low(2, 2) + DynamicBits(b)))
    ensures var st := State(p + |[last] + (Low(2, 2) + DynamicBits(b))|, Text(out, b.syms));
            BlockTurn(z, p, out, max) == if last then Done(st) else More(st)
  {
    hide DynamicAt, DynamicBits, GoodBlock, Text, At, Unpack, Field, BlockTurn, Low, CodeWriter, LitLenWriter, DistWriter;
    HeadDecodes(Unpack(z), p, last, 2, DynamicBits(b));
    DynamicDecodes(b, Unpack(z), p + 3, out, max, CodeWriter(b.clen), LitLenWriter(CodeWriter(b.llen)), DistWriter(CodeWriter(b.dlen)));
    TurnIs(z, p, out, max, last, 2, State(p + 3 + |DynamicBits(b)|, Text(out, b.syms)));
  }

  lemma {:induction false} FixedTurn(z: seq<byte>, p: nat, last: bool, out: seq<byte>, syms: seq<Sym>, max: nat)
    requires GoodSyms(out, syms) && |Text(out, syms)| <= max
    requires At(Unpack(z), p, [last] + (Low(1, 2) + FixedBits(syms)))
    ensures var st := State(p + |[last] + (Low(1, 2) + FixedBits(syms))|, Text(out, syms));
            BlockTurn(z, p, out, max) == if last then Done(st) else More(st)
  {
    hide FixedBits, GoodSyms, Text, At, Unpack, Field, BlockTurn, Low, BlockSymbols, FixedLit, FixedDist;
    HeadDecodes(Unpack(z), p, last, 1, FixedBits(syms));
    FixedDecodes(syms, Unpack(z), p + 3, out, max);
    TurnIs(z, p, out, max, last, 1, State(p + 3 + |FixedBits(syms)|, Text(out, syms)));
  }

  /** Wherever a block's bits stand, one turn of the decoder reads the block and does what it means. */
  ghost predicate Follows<B(!new)>(turn: State<byte> -> Turn<byte>, f: Format<B>, bits: seq<bool>, max: nat) {
    forall p: nat, last: bool, out: seq<byte>, b: B {:trigger At(bits, p, f.bits(p, last, b)), f.text(out, b)} ::
      f.good(out, b) && At(bits, p, f.bits(p, last, b)) && |f.text(out, b)| <= max ==>
        && |out| <= |f.text(out, b)| && f.bits(p, last, b) != []
        && turn(State(p, out)) == After(last, State(p + |f.bits(p, last, b)|, f.text(out, b)))
  }

  function After(last: bool, st: State<byte>): Turn<byte> { if last then Done(st) else More(st) }

  lemma {:induction false} AnyTurn(z: seq<byte>, p: nat, last: bool, out: seq<byte>, b: Block, max: nat)
    requires GoodBlock(out, b) && At(Unpack(z), p, BlockBits(p, last, b)) && |BlockText(out, b)| <= max
    ensures |out| <= |BlockText(out, b)| && BlockBits(p, last, b) != []
    ensures BlockTurn(z, p, out, max) == After(last, State(p + |BlockBits(p, last, b)|, BlockText(out, b)))
  {
    hide At, Unpack, BlockTurn, DynamicBits, StoredBits, FixedBits, Low, Text, GoodSyms;
    match b
    case Stored(data) =>
      hide GoodBlock;
      assert |data| < 0x1_0000 by { StoredShort(out, b); }
      StoredTurn(z, p, last, out, data, max);
    case Fixed(syms) =>
      FixedTurn(z, p, last, out, syms, max);
      TextGrows(out, syms);
    case Dynamic(_, _, _, _, _, syms) =>
      hide GoodBlock;
      DynamicTurn(z, p, last, out, b, max);
      TextGrows(out, syms);
  }

  lemma {:induction false} StoredShort(out: seq<byte>, b: Block)
    requires b.Stored? && GoodBlock(out, b)
    ensures |b.data| < 0x1_0000
  {
  }

  lemma {:induction false} DeflateFollows(z: seq<byte>, max: nat)
    ensures Follows(BlockTurns(z, max), Deflate(), Unpack(z), max)
  {
    hide BlockTurn, GoodBlock, BlockBits, BlockText, At, Unpack;
    forall p: nat, last: bool, out: seq<byte>, b: Block
      | GoodBlock(out, b) && At(Unpack(z), p, BlockBits(p, last, b)) && |BlockText(out, b)| <= max
      ensures |out| <= |BlockText(out, b)| && BlockBits(p, last, b) != []
      ensures BlockTurn(z, p, out, max) == After(last, State(p + |BlockBits(p, last, b)|, BlockText(out, b)))
    {
      AnyTurn(z, p, last, out, b, max);
    }
  }

  lemma {:induction false} TextGrows(out: seq<byte>, syms: seq<Sym>)
    ensures |out| <= |Text(out, syms)|
  {
    if syms != [] { TextGrows(out, syms[..|syms| - 1]); }
  }

  /** Blocks that are not the last are passed over. */
  lemma {:induction false} BlocksSkip<B(!new)>(turn: State<byte> -> Turn<byte>, f: Format<B>, bits: seq<bool>, max: nat, bs: seq<B>)
    requires Follows(turn, f, bits, max)
    requires f.Good(bs) && |f.Text(bs)| <= max && At(bits, 0, f.Bits(bs, false))
    ensures |f.Bits(bs, false)| <= |bits|
    ensures Loop(turn, State(0, []), |bits|) == Loop(turn, State(|f.Bits(bs, false)|, f.Text(bs)), |bits|)
  {
    if bs != [] {
      var init, b := bs[..|bs| - 1], bs[|bs| - 1];
      var before := f.Bits(init, false);
      var w := f.bits(|before|, false, b);
      AtConcat(bits, 0, before, w);
      AtConcat(bits, |before|, w, []);
      assert |f.text(f.Text(init), b)| <= max;
      BlocksSkip(turn, f, bits, max, init);
    }
  }

  lemma {:induction false} BlocksDecode<B(!new)>(turn: State<byte> -> Turn<byte>, f: Format<B>, bits: seq<bool>, max: nat, bs: seq<B>)
    requires Follows(turn, f, bits, max)
    requires bs != [] && f.Good(bs) && |f.Text(bs)| <= max && At(bits, 0, f.Bits(bs, true))
    ensures Loop(turn, State(0, []), |bits|) == Some(State(|f.Bits(bs, true)|, f.Text(bs)))
  {
    var init, b := bs[..|bs| - 1], bs[|bs| - 1];
    var before := f.Bits(init, false);
    var w := f.bits(|before|, true, b);
    AtConcat(bits, 0, before, w);
    AtConcat(bits, |before|, w, []);
    assert |f.text(f.Text(init), b)| <= max;
    BlocksSkip(turn, f, bits, max, init);
  }

  lemma {:induction false} BitsStand(z: seq<byte>, t: seq<byte>, bits: seq<bool>)
    requires Unpack(z) == bits + Pad(|bits|)
    ensures At(Unpack(z + t), 0, bits) && ByteUp(|bits|) == |z|
  {
    hide Unpack, Pad;
    UnpackConcat(z, t);
    assert Unpack(z + t) == bits + (Pad(|bits|) + Unpack(t));
    PadTo(|bits|);
  }

  /** Inflating undoes encoding: for any stream `z` that encodes `x`, any bytes `t` after it,
      and any ceiling the text fits under. */
  lemma {:induction false} InflateUndoes(z: seq<byte>, x: seq<byte>, t: seq<byte>, max: nat)
    requires Encodes(z, x) && |x| <= max
    ensures Inflate(z + t, max) == Some((x, |z|))
  {
    hide BlockTurns, Deflate, Unpack, Pad, ByteUp, Format<Block>.Bits, Format<Block>.Good, Format<Block>.Text, Follows, Loop;
    var bs: seq<Block> :| EncodesBy(z, x, bs);
    var f := Deflate();
    var bits := f.Bits(bs, true);
    BitsStand(z, t, bits);
    DeflateFollows(z + t, max);
    BlocksDecode(BlockTurns(z + t, max), f, Unpack(z + t), max, bs);
  }
}
