/** def_raw: matches and literals are collected sixteen thousand at a time, counted, and written
    block by block. */
module Deflater {
  import opened Bits
  import opened Stream
  import H = Huffman
  import C = Chains
  import opened Counting
  import opened BitWriter
  import opened BlockWriter
  import opened Blocks
  import opened Tables

  // ---- the symbols collected ----

  /** The first `nsym` symbols stand for the bytes from `start` to `pos`, and are counted. */
  ghost predicate Collected(x: seq<byte>, start: nat, pos: nat, syms: seq<Sym>, lf: seq<nat>, df: seq<nat>)
  {
    && start + |syms| <= pos <= |x| && GoodSyms(x[..start], syms) && Text(x[..start], syms) == x[..pos]
    && lf == Tally(LitCode, syms, 286) && df == Tally(DistCode, syms, 30)
  }

  lemma {:induction false} CollectedNone(x: seq<byte>, start: nat)
    requires start <= |x|
    ensures Collected(x, start, start, [], H.Zeros(286), H.Zeros(30))
  {
  }

  lemma {:induction false} CollectOne(x: seq<byte>, start: nat, pos: nat, syms: seq<Sym>, lf: seq<nat>, df: seq<nat>,
                                      t: Sym, len: nat)
    requires Collected(x, start, pos, syms, lf, df) && len >= 1 && pos + len <= |x|
    requires GoodSym(x[..pos], t) && Put(x[..pos], t) == x[..pos + len]
    ensures Collected(x, start, pos + len, syms + [t], Bump(lf, LitCode(t)), Bump(df, DistCode(t)))
  {
    hide Tally, GoodSym, Put, Bump, LitCode, DistCode;
    TextSnoc(x[..start], syms, t);
    TallySnoc(LitCode, syms, t, 286);
    TallySnoc(DistCode, syms, t, 30);
  }

  /** What is sent for the bytes at `pos`: the match a plain scan finds, or else the byte itself. */
  ghost function Chosen(x: seq<byte>, hs: seq<nat>, pos: nat): Sym
    requires pos < |x|
  {
    var (len, dist) := C.Scan(x, hs, pos, pos);
    if len > 0 then Sym(len, dist) else Sym(x[pos], 0)
  }

  /** The first `k` symbols from `start` on, and where they end. */
  ghost function Greedy(x: seq<byte>, hs: seq<nat>, start: nat, k: nat): (seq<Sym>, nat) {
    if k == 0 then ([], start)
    else
      var (syms, pos) := Greedy(x, hs, start, k - 1);
      if pos >= |x| then (syms, pos)
      else
        var t := Chosen(x, hs, pos);
        (syms + [t], pos + if t.dist > 0 then t.lit else 1)
  }

  lemma {:induction false} ChosenIs(x: seq<byte>, hs: seq<nat>, pos: nat, len: nat, dist: nat)
    requires pos < |x| && C.BestMatch(x, hs, pos, len, dist)
    ensures Chosen(x, hs, pos) == if len > 0 then Sym(len, dist) else Sym(x[pos], 0)
  {
    hide C.BestMatch, C.Scan;
    C.BestIsScan(x, hs, pos, len, dist);
  }

  /** Copying from where the bytes agree gives the bytes themselves. */
  lemma {:induction false} CopiesInput(x: seq<byte>, pos: nat, dist: nat, len: nat, p: nat)
    requires 1 <= dist && p + dist == pos && pos + len <= |x|
    requires forall k :: 0 <= k < len ==> C.Same(x, p, pos, k)
    ensures Copied(x[..pos], dist, len) == x[..pos + len]
  {
    if len != 0 {
      CopiesInput(x, pos, dist, len - 1, p);
      assert C.Same(x, p, pos, len - 1);
      assert x[..pos + len] == x[..pos + len - 1] + [x[pos + len - 1]];
    }
  }

  lemma {:induction false} MatchPuts(x: seq<byte>, hs: seq<nat>, pos: nat, len: nat, dist: nat)
    requires pos <= |x| && len > 0 && C.BestMatch(x, hs, pos, len, dist)
    ensures 3 <= len <= 258 && 1 <= dist <= 32768 && pos + len <= |x|
    ensures GoodSym(x[..pos], Sym(len, dist)) && Put(x[..pos], Sym(len, dist)) == x[..pos + len]
  {
    hide C.Candidate;
    CopiesInput(x, pos, dist, len, pos - dist);
  }

  lemma {:induction false} LiteralPuts(x: seq<byte>, pos: nat)
    requires pos < |x|
    ensures GoodSym(x[..pos], Sym(x[pos], 0)) && Put(x[..pos], Sym(x[pos], 0)) == x[..pos + 1]
  {
  }

  /** `while (z.pos < e)`: every position the match covers is noted. */
  method InsertAll(c: C.Chains, pos0: nat, e: nat)
    requires c.Valid(pos0) && pos0 <= e <= |c.input|
    modifies c.head, c.prev
    ensures c.Valid(e)
  {
    hide C.Heads, C.Links, C.Hashes;
    var pos := pos0;
    while pos < e
      invariant pos0 <= pos <= e && c.Valid(pos)
    {
      c.Insert(pos);
      pos := pos + 1;
    }
  }

  /** One symbol is put in the list and its codes are counted. */
  method Collect(z: Df, t: Sym, ghost x: seq<byte>, ghost start: nat, ghost pos: nat, ghost len: nat)
    requires z.Shape() && z.nsym < BLOCK && Plain(t)
    requires Collected(x, start, pos, z.sym[..z.nsym], z.lit.freq[..], z.dist.freq[..]) && len >= 1 && pos + len <= |x|
    requires GoodSym(x[..pos], t) && Put(x[..pos], t) == x[..pos + len]
    modifies z`nsym, z.sym, z.lit.freq, z.dist.freq
    ensures z.nsym == old(z.nsym) + 1 && z.sym[..z.nsym] == old(z.sym[..z.nsym]) + [t]
    ensures Collected(x, start, pos + len, z.sym[..z.nsym], z.lit.freq[..], z.dist.freq[..])
  {
    hide Collected, GoodSym, Put, LBase, LExt, DBase, DExt, LSymFrom, DSymFrom;
    CollectOne(x, start, pos, z.sym[..z.nsym], z.lit.freq[..], z.dist.freq[..], t, len);
    ghost var syms := z.sym[..z.nsym];
    z.sym[z.nsym] := t;
    z.nsym := z.nsym + 1;
    assert z.sym[..z.nsym] == syms + [t];
    if t.dist > 0 {
      var i := FindLSym(t.lit);
      z.lit.Note(257 + i);
      i := FindDSym(t.dist);
      z.dist.Note(i);
    } else {
      z.lit.Note(t.lit);
    }
  }

  /** The arrays of the block and those of the chains are not the same arrays. */
  ghost predicate Apart(z: Df, c: C.Chains) {
    var head: object := c.head;
    var prev: object := c.prev;
    head !in z.Arrays() && prev !in z.Arrays()
  }

  /** One turn of the collecting loop: a match if there is one, or else a literal. */
  method NextSym(z: Df, c: C.Chains, ghost start: nat, pos: nat) returns (pos': nat)
    requires z.Shape() && c.Valid(pos) && pos < |c.input| && z.nsym < BLOCK && Apart(z, c)
    requires Collected(c.input, start, pos, z.sym[..z.nsym], z.lit.freq[..], z.dist.freq[..])
    modifies z`nsym, z.sym, z.lit.freq, z.dist.freq, c.head, c.prev
    ensures pos < pos' <= |c.input| && c.Valid(pos') && z.nsym == old(z.nsym) + 1
    ensures var t := Chosen(c.input, c.hs, pos);
            z.sym[..z.nsym] == old(z.sym[..z.nsym]) + [t] && pos' == pos + if t.dist > 0 then t.lit else 1
    ensures Collected(c.input, start, pos', z.sym[..z.nsym], z.lit.freq[..], z.dist.freq[..])
  {
    hide Collected, GoodSym, Put, C.Heads, C.Links, C.Hashes, C.BestMatch, Chosen;
    var x := c.input;
    var len, dist := c.Match(pos);
    ChosenIs(x, c.hs, pos, len, dist);
    if len > 0 {
      MatchPuts(x, c.hs, pos, len, dist);
      Collect(z, Sym(len, dist), x, start, pos, len);
      InsertAll(c, pos, pos + len);
      return pos + len;
    }
    LiteralPuts(x, pos);
    Collect(z, Sym(x[pos], 0), x, start, pos, 1);
    c.Insert(pos);
    return pos + 1;
  }

  /** The symbols of one block, and the end of the block counted. */
  method CollectBlock(z: Df, c: C.Chains, start: nat) returns (pos: nat)
    requires z.Shape() && c.Valid(start) && start <= |c.input| && Apart(z, c)
    modifies z`nsym, z.sym, z.lit.freq, z.dist.freq, c.head, c.prev
    ensures start <= pos <= |c.input| && c.Valid(pos) && z.Loaded(c.input[..start])
    ensures Text(c.input[..start], z.sym[..z.nsym]) == c.input[..pos]
    ensures pos < |c.input| ==> pos - start >= BLOCK
    ensures pos == start ==> z.nsym == 0
    ensures Greedy(c.input, c.hs, start, z.nsym) == (z.sym[..z.nsym], pos) && (z.nsym == BLOCK || pos == |c.input|)
  {
    hide Tally, GoodSyms, Text, C.Heads, C.Links, C.Hashes, Chosen;
    var n := |c.input|;
    pos := start;
    z.nsym := 0;
    z.lit.Reset();
    z.dist.Reset();
    CollectedNone(c.input, start);
    assert z.sym[..0] == [];
    while z.nsym < BLOCK && pos < n
      invariant start <= pos <= n && c.Valid(pos) && z.nsym <= BLOCK
      invariant Collected(c.input, start, pos, z.sym[..z.nsym], z.lit.freq[..], z.dist.freq[..])
      invariant Greedy(c.input, c.hs, start, z.nsym) == (z.sym[..z.nsym], pos)
      decreases n - pos
    {
      pos := NextSym(z, c, start, pos);
    }
    z.lit.Note(256);
  }

  // ---- the whole of def_raw ----

  /** Full blocks cover at least 16384 bytes, so their stored pieces are no more than the 16384s. */
  lemma {:induction false} PiecesFew(pos: nat, r: nat)
    requires r >= 16384
    ensures (r + 65534) / 65535 + pos / 16384 <= (pos + r) / 16384
  {
    var a, b, c := (r + 65534) / 65535, pos / 16384, r / 16384;
    assert 65535 * (a - 1) < r;
    assert a <= c;
    assert 16384 * (b + c) <= pos + r;
  }

  lemma {:induction false} LastPieces(pos: nat, r: nat)
    requires r >= 1
    ensures (r + 65534) / 65535 + pos / 16384 <= (pos + r) / 16384 + 1
  {
    if r >= 16384 {
      PiecesFew(pos, r);
    } else {
      assert (r + 65534) / 65535 <= 1;
      assert pos / 16384 <= (pos + r) / 16384;
    }
  }

  /** The most bits a stream for `n` bytes takes. */
  function Bound(n: nat): nat {
    if n == 0 then EMPTY + 7 else 8 * n + 42 * (n / 16384 + 1) + 7
  }

  /** One block: collected, then written. */
  method NextBlock(z: Df, c: C.Chains, start: nat, ghost bs0: seq<Block>) returns (pos: nat, ghost bs: seq<Block>)
    requires z.Shape() && c.Valid(start) && start <= |c.input| && Apart(z, c) && z.z.Valid()
    requires Wrote(z.z.Stream(), c.input[..start], bs0, false)
    modifies z, z.Arrays(), z.z, c.head, c.prev
    ensures start <= pos <= |c.input| && c.Valid(pos) && z.z.Valid()
    ensures Wrote(z.z.Stream(), c.input[..pos], bs, pos >= |c.input|)
    ensures pos < |c.input| ==> pos - start >= BLOCK
    ensures pos > start ==> |z.z.Stream()| <= |old(z.z.Stream())| + StoredCost(pos - start)
    ensures pos == start ==> |z.z.Stream()| <= |old(z.z.Stream())| + EMPTY
  {
    hide GoodSyms, Text, Wrote, Counted, C.Heads, C.Links, C.Hashes, StoredCost, Greedy, Tally, C.Scan;
    hide Df.Made, GoodBlock, Df.Reckoned, Df.Loaded;
    pos := CollectBlock(z, c, start);
    var raw := c.input[start..pos];
    assert c.input[..start] + raw == c.input[..pos];
    ghost var b;
    bs, b := z.Block(raw, pos >= |c.input|, c.input[..start], bs0);
  }

  ghost predicate Short(bits: nat, pos: nat) {
    bits <= 8 * pos + 42 * (pos / 16384)
  }

  lemma {:induction false} StaysShort(bits: nat, bits': nat, start: nat, pos: nat)
    requires Short(bits, start) && start < pos && bits' <= bits + StoredCost(pos - start)
    ensures pos - start >= BLOCK ==> Short(bits', pos)
    ensures bits' + 7 <= Bound(pos)
  {
    if pos - start >= BLOCK { PiecesFew(start, pos - start); }
    LastPieces(start, pos - start);
  }

  lemma {:induction false} EmptyShort(bits: nat, bits': nat)
    requires Short(bits, 0) && bits' <= bits + EMPTY
    ensures bits' + 7 <= Bound(0)
  {
  }

  lemma {:induction false} WroteNothing(text: seq<byte>)
    requires text == []
    ensures Wrote([], text, [], false) && Short(0, 0)
  {
  }

  /** Every block in turn. */
  method DefBlocks(z: Df, c: C.Chains) returns (ghost bs: seq<Block>)
    requires z.Shape() && c.Valid(0) && Apart(z, c) && z.z.Valid() && z.z.Stream() == []
    modifies z, z.Arrays(), z.z, c.head, c.prev
    ensures z.z.Valid() && Wrote(z.z.Stream(), c.input, bs, true)
    ensures |z.z.Stream()| + 7 <= Bound(|c.input|)
  {
    hide Wrote, C.Heads, C.Links, C.Hashes, Short, StoredCost, Bound, Greedy;
    var n := |c.input|;
    var pos: nat := 0;
    bs := [];
    WroteNothing(c.input[..pos]);
    while true
      invariant pos <= n && (pos < n || n == 0) && c.Valid(pos) && z.z.Valid()
      invariant Wrote(z.z.Stream(), c.input[..pos], bs, false) && Short(|z.z.Stream()|, pos)
      decreases n - pos
    {
      ghost var start, bits := pos, |z.z.Stream()|;
      pos, bs := NextBlock(z, c, pos, bs);
      if pos > start { StaysShort(bits, |z.z.Stream()|, start, pos); } else { EmptyShort(bits, |z.z.Stream()|); }
      if pos >= n {
        assert c.input[..pos] == c.input;
        return;
      }
    }
  }

  lemma {:induction false} WholeStream(bytes: seq<byte>, x: seq<byte>, stream: seq<bool>, bs: seq<Block>)
    requires Wrote(stream, x, bs, true) && Unpack(bytes) == stream + Pad(|stream|)
    ensures Encodes(bytes, x) && 8 * |bytes| <= |stream| + 7
  {
    hide Unpack, Format<Block>.Bits, Format<Block>.Good, Format<Block>.Text;
    assert EncodesBy(bytes, x, bs);
    UnpackLength(bytes);
  }

  /** def_raw: the stream is appended to `out`; it encodes `x`, and is never much longer than `x`. */
  method DefRaw(x: seq<byte>, out0: seq<byte>) returns (out: seq<byte>)
    requires |x| < 0x8000_0000
    ensures out0 <= out && Encodes(out[|out0|..], x)
    ensures 8 * |out[|out0|..]| <= Bound(|x|)
  {
    hide Wrote, Unpack, Pad, Low, Encodes, Bound, C.Heads, C.Links, C.Hashes;
    var z := new Df(out0);
    var c := new C.Chains(x);
    ghost var bs := DefBlocks(z, c);
    ghost var stream := z.z.Stream();
    z.z.Align();
    out := z.z.out;
    NoBits(z.z.bitbuf);
    WholeStream(out[|out0|..], x, stream, bs);
  }
}
