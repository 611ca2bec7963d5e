/** The shape of a DEFLATE stream (RFC 1951, section 3.2): the bits each part is written as,
    and the text it stands for. The encoder is proved to write such a stream; the decoder to
    read back its text. */
module Stream {
  import opened Bits
  import opened Canonical
  import opened Runs
  import opened Tables

  /** A literal byte (`dist == 0`), or a match of `lit` bytes at distance `dist`. */
  datatype Sym = Sym(lit: nat, dist: nat)

  /** `out` followed by `len` bytes copied one at a time from `dist` back. */
  function Copied(out: seq<byte>, dist: nat, len: nat): (r: seq<byte>)
    requires 1 <= dist <= |out|
    ensures |r| == |out| + len && out <= r
  {
    if len == 0 then out
    else
      var o := Copied(out, dist, len - 1);
      o + [o[|o| - dist]]
  }

  ghost predicate GoodSym(out: seq<byte>, t: Sym) {
    if t.dist == 0 then t.lit < 256
    else 3 <= t.lit <= 258 && t.dist <= |out| && t.dist <= 32768
  }

  /** The text after one more symbol. */
  ghost function Put(out: seq<byte>, t: Sym): seq<byte> {
    if !GoodSym(out, t) then out
    else if t.dist == 0 then out + [t.lit]
    else Copied(out, t.dist, t.lit)
  }

  ghost function Text(out: seq<byte>, syms: seq<Sym>): seq<byte> {
    if syms == [] then out
    else Put(Text(out, syms[..|syms| - 1]), syms[|syms| - 1])
  }

  ghost predicate GoodSyms(out: seq<byte>, syms: seq<Sym>) {
    syms != [] ==>
      var init := syms[..|syms| - 1];
      GoodSyms(out, init) && GoodSym(Text(out, init), syms[|syms| - 1])
  }

  // ---- bits ----

  function Minus(a: nat, b: nat): nat { if a >= b then a - b else 0 }

  /** The code word of symbol `s`; empty when it has none. */
  function Word(lens: seq<nat>, s: nat): (w: seq<bool>)
    ensures w != [] <==> s < |lens| && lens[s] > 0
  {
    if s < |lens| then Code(lens, s) else []
  }

  /** A code as the thing that writes symbols. */
  type Writer = nat -> seq<bool>

  function CodeWriter(lens: seq<nat>): Writer {
    (s: nat) => Word(lens, s)
  }

  /** What follows a length's or a distance's code word: how far it is above the code's base. */
  function LengthBits(len: nat): seq<bool> {
    Low(Minus(len, LBase(LSym(len))), LExt(LSym(len)))
  }

  function DistBits(dist: nat): seq<bool> {
    Low(Minus(dist, DBase(DSym(dist))), DExt(DSym(dist)))
  }

  /** Writes a literal byte or the end of the block as itself, and a length `n` as `256 + n`. */
  function LitLenWriter(cw: Writer): Writer {
    (v: nat) =>
      if v <= 256 then cw(v)
      else if v < 259 || v > 514 || cw(257 + LSym(v - 256)) == [] then []
      else cw(257 + LSym(v - 256)) + LengthBits(v - 256)
  }

  function DistWriter(cw: Writer): Writer {
    (dist: nat) =>
      if dist == 0 || dist > 32768 || cw(DSym(dist)) == [] then []
      else cw(DSym(dist)) + DistBits(dist)
  }

  function SymBits(lw: Writer, dw: Writer, t: Sym): seq<bool> {
    if t.dist == 0 then lw(t.lit) else lw(256 + t.lit) + dw(t.dist)
  }

  /** The codes have a word for what the symbol needs. */
  predicate Codable(lw: Writer, dw: Writer, t: Sym) {
    if t.dist == 0 then lw(t.lit) != [] else lw(256 + t.lit) != [] && dw(t.dist) != []
  }

  ghost predicate AllCodable(lw: Writer, dw: Writer, syms: seq<Sym>) {
    forall i :: 0 <= i < |syms| ==> Codable(lw, dw, syms[i])
  }

  ghost function SymWriter(lw: Writer, dw: Writer): Sym -> seq<bool> {
    (t: Sym) => SymBits(lw, dw, t)
  }

  ghost function SymsBits(lw: Writer, dw: Writer, syms: seq<Sym>): seq<bool> {
    Cat(SymWriter(lw, dw), syms)
  }

  function RunBits(cw: Writer, r: Run): seq<bool> {
    cw(r.sym) + Low(r.extra, r.nx)
  }

  ghost function RunWriter(cw: Writer): Run -> seq<bool> {
    (r: Run) => RunBits(cw, r)
  }

  ghost function RunsBits(cw: Writer, runs: seq<Run>): seq<bool> {
    Cat(RunWriter(cw), runs)
  }

  /** The first `k` code-length code lengths, three bits each, in the format's own order. */
  function ClenBits(clen: seq<nat>, k: nat): seq<bool> {
    if k == 0 || k > 19 || |clen| != 19 then [] else ClenBits(clen, k - 1) + Low(clen[Ord(k - 1)], 3)
  }

  lemma {:induction false} TextSnoc(out: seq<byte>, syms: seq<Sym>, t: Sym)
    ensures Text(out, syms + [t]) == Put(Text(out, syms), t)
    ensures GoodSyms(out, syms + [t]) <==> GoodSyms(out, syms) && GoodSym(Text(out, syms), t)
  {
    assert (syms + [t])[..|syms|] == syms;
  }

  // ---- blocks ----

  datatype Block =
    | Stored(data: seq<byte>)
    | Fixed(syms: seq<Sym>)
    | Dynamic(llen: seq<nat>, dlen: seq<nat>, clen: seq<nat>, ncl: nat, runs: seq<Run>, syms: seq<Sym>)

  /** Zero bits up to the next byte boundary after `p` bits. */
  function Pad(p: nat): (b: seq<bool>)
    ensures |b| < 8 && (p + |b|) % 8 == 0
  {
    Low(0, (8 - p % 8) % 8)
  }

  /** A stored block's length, and its complement, two bytes each. */
  function StoredHeader(n: nat): (h: seq<byte>)
    ensures |h| == 4
  {
    [n % 256, n / 256 % 256, 255 - n % 256, 255 - n / 256 % 256]
  }

  ghost predicate GoodBlock(out: seq<byte>, b: Block) {
    match b
    case Stored(data) => |data| < 0x1_0000
    case Fixed(syms) => GoodSyms(out, syms)
    case Dynamic(llen, dlen, clen, ncl, runs, syms) =>
      && 257 <= |llen| <= 286 && 1 <= |dlen| <= 30 && Fits(llen) && Fits(dlen) && llen[256] > 0
      && |clen| == 19 && 4 <= ncl <= 19 && Complete(clen)
      && (forall i :: 0 <= i < 19 ==> clen[i] <= 7)
      && (forall i :: ncl <= i < 19 ==> clen[Ord(i)] == 0)
      && Good(runs) && Expand(runs) == llen + dlen
      && (forall i :: 0 <= i < |runs| ==> Word(clen, runs[i].sym) != [])
      && GoodSyms(out, syms) && AllCodable(LitLenWriter(CodeWriter(llen)), DistWriter(CodeWriter(dlen)), syms)
  }

  /** What a block adds to the text before it. */
  ghost function BlockText(out: seq<byte>, b: Block): seq<byte> {
    match b
    case Stored(data) => out + data
    case Fixed(syms) => Text(out, syms)
    case Dynamic(_, _, _, _, _, syms) => Text(out, syms)
  }

  function DynamicHeader(llen: seq<nat>, dlen: seq<nat>, clen: seq<nat>, ncl: nat): seq<bool> {
    Low(Minus(|llen|, 257), 5) + (Low(Minus(|dlen|, 1), 5) + (Low(Minus(ncl, 4), 4) + ClenBits(clen, ncl)))
  }

  /** A stored block after its first three bits, which end `p` bits into the stream. */
  function StoredBits(p: nat, data: seq<byte>): seq<bool> {
    Pad(p) + Unpack(StoredHeader(|data|) + data)
  }

  /** The format's own code for literals and lengths, written out (RFC 1951, section 3.2.6). */
  function FixedWord(s: nat): seq<bool> {
    if s < 144 then High(0x30 + s, 8)
    else if s < 256 then High(0x190 + (s - 144), 9)
    else if s < 280 then High(s - 256, 7)
    else if s < 288 then High(0xc0 + (s - 280), 8)
    else []
  }

  /** Its code for distances: five bits each. */
  function FixedDistWord(s: nat): seq<bool> {
    if s < 30 then High(s, 5) else []
  }

  /** A block in the format's own code after its first three bits. */
  ghost function FixedBits(syms: seq<Sym>): seq<bool> {
    SymsBits(LitLenWriter(FixedWord), DistWriter(FixedDistWord), syms) + FixedWord(256)
  }

  /** A dynamic block after its first three bits. */
  ghost function DynamicBits(b: Block): seq<bool>
    requires b.Dynamic?
  {
    DynamicHeader(b.llen, b.dlen, b.clen, b.ncl) +
    (RunsBits(CodeWriter(b.clen), b.runs) +
     (SymsBits(LitLenWriter(CodeWriter(b.llen)), DistWriter(CodeWriter(b.dlen)), b.syms) + Word(b.llen, 256)))
  }

  /** The bits of a block that starts `p` bits into the stream. */
  ghost function BlockBits(p: nat, last: bool, b: Block): seq<bool> {
    match b
    case Stored(data) => [last] + (Low(0, 2) + StoredBits(p + 3, data))
    case Fixed(syms) => [last] + (Low(1, 2) + FixedBits(syms))
    case Dynamic(_, _, _, _, _, _) => [last] + (Low(2, 2) + DynamicBits(b))
  }

  // ---- streams ----

  /** What a block means: whether it may follow a text, the text after it, and its bits. */
  datatype Format<!B> = Format(good: (seq<byte>, B) -> bool, text: (seq<byte>, B) -> seq<byte>,
                               bits: (nat, bool, B) -> seq<bool>)
  {
    ghost function Text(bs: seq<B>): seq<byte> {
      if bs == [] then [] else text(Text(bs[..|bs| - 1]), bs[|bs| - 1])
    }

    ghost predicate Good(bs: seq<B>) {
      bs != [] ==>
        var init := bs[..|bs| - 1];
        Good(init) && good(Text(init), bs[|bs| - 1])
    }

    /** The bits of the blocks; the final one is marked as the last of the stream if `last`. */
    ghost function Bits(bs: seq<B>, last: bool): seq<bool> {
      if bs == [] then []
      else
        var b := Bits(bs[..|bs| - 1], false);
        b + bits(|b|, last, bs[|bs| - 1])
    }

    lemma {:induction false} Snoc(bs: seq<B>, b: B, last: bool)
      ensures Text(bs + [b]) == text(Text(bs), b)
      ensures Good(bs + [b]) <==> Good(bs) && good(Text(bs), b)
      ensures Bits(bs + [b], last) == Bits(bs, false) + bits(|Bits(bs, false)|, last, b)
    {
      assert (bs + [b])[..|bs|] == bs;
    }
  }

  ghost function Deflate(): Format<Block> {
    Format((out, b) => GoodBlock(out, b), (out, b) => BlockText(out, b), (p, last, b) => BlockBits(p, last, b))
  }

  /** `z` is a whole stream for the text `x`: blocks, the final one marked, then padding to a byte. */
  ghost predicate Encodes(z: seq<byte>, x: seq<byte>) {
    exists bs: seq<Block> :: EncodesBy(z, x, bs)
  }

  ghost predicate EncodesBy(z: seq<byte>, x: seq<byte>, bs: seq<Block>) {
    && bs != [] && Deflate().Good(bs) && Deflate().Text(bs) == x
    && var bits := Deflate().Bits(bs, true);
       Unpack(z) == bits + Pad(|bits|)
  }
}
