/** The parts of a block as df_block writes them: symbols, runs, headers, and stored pieces. */
module BlockWriter {
  import opened Bits
  import opened Canonical
  import opened Tables
  import opened Runs
  import opened Stream
  import opened BitWriter
  import opened Alphabet

  /** What a symbol the encoder collects always is, wherever it stands. */
  predicate Plain(t: Sym) {
    if t.dist == 0 then t.lit < 256 else 3 <= t.lit <= 258 && t.dist <= 32768
  }

  lemma {:induction false} SymWords(t: Sym, llen: seq<nat>, dlen: seq<nat>)
    requires Plain(t) && Codable(LitLenWriter(CodeWriter(llen)), DistWriter(CodeWriter(dlen)), t)
    ensures if t.dist == 0 then Word(llen, t.lit) != []
            else Word(llen, 257 + LSym(t.lit)) != [] && Word(dlen, DSym(t.dist)) != []
    ensures SymBits(LitLenWriter(CodeWriter(llen)), DistWriter(CodeWriter(dlen)), t) ==
            if t.dist == 0 then Word(llen, t.lit)
            else (Word(llen, 257 + LSym(t.lit)) + LengthBits(t.lit)) + (Word(dlen, DSym(t.dist)) + DistBits(t.dist))
  {
    hide Word, LengthBits, DistBits, LSymFrom, DSymFrom;
    assert 256 + t.lit - 256 == t.lit;
  }

  /** A code word, and the extra bits it calls for. */
  method WritePart(z: BitWriter, a: Alphabet, s: nat, x: nat, n: nat, ghost lens: seq<nat>)
    requires z.Valid() && a.Shape() && Spells(a.len[..], a.code[..], lens) && s < a.n && n <= 16
    modifies z
    ensures z.Valid() && z.Stream() == old(z.Stream()) + (Word(lens, s) + Low(x, n))
  {
    hide Word, Low, Spells;
    a.Put(z, s, lens);
    if n > 0 {
      z.PutBits(x, n);
    } else {
      NoBits(x);
    }
  }

  lemma {:induction false} NoBits(x: nat)
    ensures Low(x, 0) == []
  {
  }

  /** A length or a distance is written as its code and how far it is above the code's base. */
  method WriteLength(z: BitWriter, lit: Alphabet, len: nat, ghost llen: seq<nat>)
    requires z.Valid() && lit.Shape() && lit.n == 286 && Spells(lit.len[..], lit.code[..], llen) && 3 <= len <= 258
    modifies z
    ensures z.Valid() && z.Stream() == old(z.Stream()) + (Word(llen, 257 + LSym(len)) + LengthBits(len))
  {
    hide Word, Low, LBase, LExt, DBase, DExt, Spells;
    TableEntries();
    LengthCovered(len);
    var i := FindLSym(len);
    WritePart(z, lit, 257 + i, len - LBASE[i], LEXT[i], llen);
  }

  method WriteDist(z: BitWriter, dist: Alphabet, d: nat, ghost dlen: seq<nat>)
    requires z.Valid() && dist.Shape() && dist.n == 30 && Spells(dist.len[..], dist.code[..], dlen) && 1 <= d <= 32768
    modifies z
    ensures z.Valid() && z.Stream() == old(z.Stream()) + (Word(dlen, DSym(d)) + DistBits(d))
  {
    hide Word, Low, LBase, LExt, DBase, DExt, Spells;
    TableEntries();
    DistanceCovered(d);
    var i := FindDSym(d);
    WritePart(z, dist, i, d - DBASE[i], DEXT[i], dlen);
  }

  method WriteMatch(z: BitWriter, lit: Alphabet, dist: Alphabet, len: nat, d: nat, ghost llen: seq<nat>, ghost dlen: seq<nat>)
    requires z.Valid() && lit.Shape() && dist.Shape() && lit.n == 286 && dist.n == 30
    requires Spells(lit.len[..], lit.code[..], llen) && Spells(dist.len[..], dist.code[..], dlen)
    requires 3 <= len <= 258 && 1 <= d <= 32768
    modifies z
    ensures z.Valid() && z.Stream() == old(z.Stream()) +
            ((Word(llen, 257 + LSym(len)) + LengthBits(len)) + (Word(dlen, DSym(d)) + DistBits(d)))
  {
    hide Word, LengthBits, DistBits, Spells, LSym, DSym;
    WriteLength(z, lit, len, llen);
    WriteDist(z, dist, d, dlen);
  }

  /** One literal, or one match with its extra bits. */
  method WriteSym(z: BitWriter, lit: Alphabet, dist: Alphabet, t: Sym, ghost llen: seq<nat>, ghost dlen: seq<nat>)
    requires z.Valid() && lit.Shape() && dist.Shape() && lit.n == 286 && dist.n == 30
    requires Spells(lit.len[..], lit.code[..], llen) && Spells(dist.len[..], dist.code[..], dlen)
    requires Plain(t) && Codable(LitLenWriter(CodeWriter(llen)), DistWriter(CodeWriter(dlen)), t)
    modifies z
    ensures z.Valid()
    ensures z.Stream() == old(z.Stream()) + SymBits(LitLenWriter(CodeWriter(llen)), DistWriter(CodeWriter(dlen)), t)
  {
    hide Word, LengthBits, DistBits, SymBits, Codable, LitLenWriter, DistWriter, CodeWriter, Spells, LSym, DSym;
    SymWords(t, llen, dlen);
    if t.dist == 0 {
      lit.Put(z, t.lit, llen);
    } else {
      WriteMatch(z, lit, dist, t.lit, t.dist, llen, dlen);
    }
  }

  method WriteSyms(z: BitWriter, lit: Alphabet, dist: Alphabet, sym: array<Sym>, nsym: nat,
                   ghost llen: seq<nat>, ghost dlen: seq<nat>)
    requires z.Valid() && lit.Shape() && dist.Shape() && lit.n == 286 && dist.n == 30 && nsym <= sym.Length
    requires Spells(lit.len[..], lit.code[..], llen) && Spells(dist.len[..], dist.code[..], dlen)
    requires forall k :: 0 <= k < nsym ==> Plain(sym[k])
    requires AllCodable(LitLenWriter(CodeWriter(llen)), DistWriter(CodeWriter(dlen)), sym[..nsym])
    modifies z
    ensures z.Valid() && z.Stream() ==
            old(z.Stream()) + SymsBits(LitLenWriter(CodeWriter(llen)), DistWriter(CodeWriter(dlen)), sym[..nsym])
  {
    hide Codable, SymBits, LitLenWriter, DistWriter, CodeWriter, Spells, Plain;
    ghost var lw, dw := LitLenWriter(CodeWriter(llen)), DistWriter(CodeWriter(dlen));
    var k := 0;
    while k < nsym
      invariant 0 <= k <= nsym && z.Valid() && z.Stream() == old(z.Stream()) + SymsBits(lw, dw, sym[..k])
    {
      assert sym[k] == sym[..nsym][k];
      assert sym[..k + 1] == sym[..k] + [sym[k]];
      CatSnoc(SymWriter(lw, dw), sym[..k], sym[k]);
      WriteSym(z, lit, dist, sym[k], llen, dlen);
      k := k + 1;
    }
  }

  method WriteRuns(z: BitWriter, cl: Alphabet, runs: array<Run>, nrun: nat, ghost clen: seq<nat>)
    requires z.Valid() && cl.Shape() && cl.n == 19 && nrun <= runs.Length && Spells(cl.len[..], cl.code[..], clen)
    requires forall k :: 0 <= k < nrun ==> runs[k].sym < 19 && runs[k].nx <= 7
    modifies z
    ensures z.Valid() && z.Stream() == old(z.Stream()) + RunsBits(CodeWriter(clen), runs[..nrun])
  {
    hide Word, Low, Spells;
    var k := 0;
    while k < nrun
      invariant 0 <= k <= nrun && z.Valid() && z.Stream() == old(z.Stream()) + RunsBits(CodeWriter(clen), runs[..k])
    {
      assert runs[..k + 1] == runs[..k] + [runs[k]];
      CatSnoc(RunWriter(CodeWriter(clen)), runs[..k], runs[k]);
      WritePart(z, cl, runs[k].sym, runs[k].extra, runs[k].nx, clen);
      k := k + 1;
    }
  }

  method WriteClens(z: BitWriter, cl: Alphabet, ncl: nat)
    requires z.Valid() && cl.Shape() && cl.n == 19 && ncl <= 19
    modifies z
    ensures z.Valid() && z.Stream() == old(z.Stream()) + ClenBits(cl.len[..], ncl)
  {
    hide Low, Ord;
    TableEntries();
    var i := 0;
    while i < ncl
      invariant 0 <= i <= ncl && z.Valid() && z.Stream() == old(z.Stream()) + ClenBits(cl.len[..], i)
    {
      z.PutBits(cl.len[ORDER[i]], 3);
      i := i + 1;
    }
  }

  lemma {:induction false} OneBit(b: bool)
    ensures Low(if b then 1 else 0, 1) == [b]
  {
    assert Low(0, 0) == [];
  }

  method WriteHead(z: BitWriter, last: bool, kind: nat)
    requires z.Valid() && kind < 4
    modifies z
    ensures z.Valid() && z.Stream() == old(z.Stream()) + ([last] + Low(kind, 2)) && z.bitcnt == (old(z.bitcnt) + 3) % 8
  {
    hide Low, Unpack;
    OneBit(last);
    z.PutBits(if last then 1 else 0, 1);
    z.PutBits(kind, 2);
  }

  method WriteHeader(z: BitWriter, cl: Alphabet, ncl: nat, ghost llen: seq<nat>, ghost dlen: seq<nat>, nlit: nat, ndist: nat)
    requires z.Valid() && cl.Shape() && cl.n == 19 && 4 <= ncl <= 19
    requires nlit == |llen| >= 257 && ndist == |dlen| >= 1
    modifies z
    ensures z.Valid() && z.Stream() == old(z.Stream()) + DynamicHeader(llen, dlen, cl.len[..], ncl)
  {
    hide Low, ClenBits;
    z.PutBits(nlit - 257, 5);
    z.PutBits(ndist - 1, 5);
    z.PutBits(ncl - 4, 4);
    WriteClens(z, cl, ncl);
  }

  // ---- stored blocks ----

  /** `stream` is the bits of the blocks `bs`, and their text is `text`. */
  ghost predicate Wrote(stream: seq<bool>, text: seq<byte>, bs: seq<Block>, last: bool) {
    var f := Deflate();
    f.Good(bs) && f.Text(bs) == text && f.Bits(bs, last) == stream && (last ==> bs != [])
  }

  /** One more block. */
  lemma {:induction false} WroteMore(stream: seq<bool>, text: seq<byte>, bs: seq<Block>, b: Block, last: bool)
    requires Wrote(stream, text, bs, false) && GoodBlock(text, b)
    ensures Wrote(stream + BlockBits(|stream|, last, b), BlockText(text, b), bs + [b], last)
  {
    hide GoodBlock, BlockBits, BlockText;
    Deflate().Snoc(bs, b, last);
  }

  /** What df_block reckons a block would take stored: each piece's header at its worst, and the bytes. */
  function StoredCost(n: nat): nat {
    n * 8 + (n + 65534) / 65535 * (3 + 7 + 32)
  }

  /** The length, its complement, and the bytes. */
  method WriteRaw(z: BitWriter, data: seq<byte>)
    requires z.Valid() && z.bitcnt == 0 && |data| <= 65535
    modifies z
    ensures z.Valid() && z.Stream() == old(z.Stream()) + Unpack(StoredHeader(|data|) + data)
  {
    hide Unpack, StoredHeader;
    var n := |data|;
    HeaderBytes(n, data);
    z.PutByte(n % 256);
    z.PutByte(n / 256);
    z.PutByte(255 - n % 256);
    z.PutByte(255 - n / 256 % 256);
    z.PutBytes(data);
  }

  method WriteChunk(z: BitWriter, data: seq<byte>, last: bool)
    requires z.Valid() && |data| <= 65535
    modifies z
    ensures z.Valid() && z.Stream() == old(z.Stream()) + BlockBits(|old(z.Stream())|, last, Stored(data))
  {
    hide Low, Pad, Unpack, StoredHeader, BlockBits;
    HeadLength(last);
    ChunkJoins(z.Stream(), last, data);
    WriteHead(z, last, 0);
    z.Align();
    WriteRaw(z, data);
  }

  lemma {:induction false} ChunkJoins(s: seq<bool>, last: bool, data: seq<byte>)
    ensures s + ([last] + Low(0, 2)) + Pad(|s| + 3) + Unpack(StoredHeader(|data|) + data) == s + BlockBits(|s|, last, Stored(data))
  {
    hide Low, Pad, Unpack, StoredHeader;
  }

  lemma {:induction false} HeadLength(last: bool)
    ensures |[last] + Low(0, 2)| == 3
  {
  }

  lemma {:induction false} HeaderBytes(n: nat, data: seq<byte>)
    requires n == |data| <= 65535
    ensures n / 256 < 256
    ensures Unpack(StoredHeader(n) + data) ==
            Unpack([n % 256]) + Unpack([n / 256]) + Unpack([255 - n % 256]) + Unpack([255 - n / 256 % 256]) + Unpack(data)
  {
    hide Unpack;
    var a: byte, b: byte, c: byte, d: byte := n % 256, n / 256, 255 - n % 256, 255 - n / 256 % 256;
    assert StoredHeader(n) + data == [a] + ([b] + ([c] + ([d] + data)));
    UnpackConcat([a], [b] + ([c] + ([d] + data)));
    UnpackConcat([b], [c] + ([d] + data));
    UnpackConcat([c], [d] + data);
    UnpackConcat([d], data);
  }

  lemma {:induction false} ChunkSize(p: nat, last: bool, data: seq<byte>)
    ensures |BlockBits(p, last, Stored(data))| <= 8 * |data| + 42
  {
    hide Unpack;
    assert |Unpack(StoredHeader(|data|) + data)| == 8 * (4 + |data|) by { UnpackLength(StoredHeader(|data|) + data); }
  }

  lemma {:induction false} UnpackLength(s: seq<byte>)
    ensures |Unpack(s)| == 8 * |s|
  {
  }

  /** Where the pieces end: every piece but the last is full. */
  lemma {:induction false} PieceCount(n: nat, c: nat, off: nat)
    requires off == 65535 * c < n
    ensures n - off <= 65535 ==> (n + 65534) / 65535 == c + 1
  {
  }

  /** One piece, from `off` on. */
  method WritePiece(z: BitWriter, raw: seq<byte>, off: nat, last: bool, ghost text: seq<byte>, ghost bs0: seq<Block>)
    returns (len: nat, ghost bs: seq<Block>)
    requires z.Valid() && off < |raw| && Wrote(z.Stream(), text + raw[..off], bs0, false)
    modifies z
    ensures z.Valid() && len == (if |raw| - off > 65535 then 65535 else |raw| - off)
    ensures Wrote(z.Stream(), text + raw[..off + len], bs, last && off + len >= |raw|)
    ensures |z.Stream()| <= |old(z.Stream())| + 8 * len + 42
  {
    hide Wrote, BlockBits;
    len := if |raw| - off > 65535 then 65535 else |raw| - off;
    var lastb := last && off + len >= |raw|;
    var data := raw[off..off + len];
    WroteMore(z.Stream(), text + raw[..off], bs0, Stored(data), lastb);
    ChunkSize(|z.Stream()|, lastb, data);
    WriteChunk(z, data, lastb);
    assert text + raw[..off] + data == text + raw[..off + len];
    bs := bs0 + [Stored(data)];
  }

  /** The bytes themselves, in pieces of at most 65535. */
  method WriteStored(z: BitWriter, raw: seq<byte>, last: bool, ghost text: seq<byte>, ghost bs0: seq<Block>)
    returns (ghost bs: seq<Block>)
    requires z.Valid() && raw != [] && Wrote(z.Stream(), text, bs0, false)
    modifies z
    ensures z.Valid() && Wrote(z.Stream(), text + raw, bs, last)
    ensures |z.Stream()| <= |old(z.Stream())| + StoredCost(|raw|)
  {
    hide Wrote;
    bs := bs0;
    var off: nat := 0;
    ghost var c: nat := 0;
    assert text + raw[..0] == text;
    while true
      invariant off == 65535 * c < |raw| && z.Valid() && Wrote(z.Stream(), text + raw[..off], bs, false)
      invariant |z.Stream()| <= |old(z.Stream())| + 8 * off + 42 * c
      decreases |raw| - off
    {
      PieceCount(|raw|, c, off);
      var len;
      len, bs := WritePiece(z, raw, off, last, text, bs);
      off := off + len;
      c := c + 1;
      if off >= |raw| {
        assert raw[..off] == raw;
        return;
      }
    }
  }
}
