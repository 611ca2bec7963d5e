/** The decoder itself (mods/inflate.c): a bit buffer over the input, and output that grows. Each
    method is proved to do what the functions in InflateSpec say. Once `err` is set it stays
    set, and nothing more is promised. */
module Inflater {
  import opened Bits
  import opened Canonical
  import opened Runs
  import opened Tables
  import opened Stream
  import opened InflateSpec
  import opened FixedCode
  import opened DecodeTable

  // ---- the bit buffer ----

  /** The low `cnt` bits of `v` are the bits just before position `end`. */
  ghost predicate Holds(bits: seq<bool>, end: nat, v: nat, cnt: nat) {
    cnt <= end <= |bits| && v < Pow2(cnt) && At(bits, end - cnt, Low(v, cnt))
  }

  lemma {:induction false} TakeByte(z: seq<byte>, pos: nat, v: nat, cnt: nat)
    requires pos < |z| && v < Pow2(cnt)
    ensures Or(v, Shl(z[pos], cnt)) < Pow2(cnt + 8)
    ensures Holds(Unpack(z), 8 * pos, v, cnt) ==> Holds(Unpack(z), 8 * pos + 8, Or(v, Shl(z[pos], cnt)), cnt + 8)
  {
    hide At, Low, Unpack, Or;
    Pow2Values();
    ShlIs(z[pos], cnt);
    OrJoin(v, cnt, z[pos], 8);
    UnpackAt(z, pos);
    AtIs(Unpack(z), 8 * pos, Low(z[pos], 8));
    if Holds(Unpack(z), 8 * pos, v, cnt) { AtConcat(Unpack(z), 8 * pos - cnt, Low(v, cnt), Low(z[pos], 8)); }
  }

  lemma {:induction false} GiveBits(bits: seq<bool>, end: nat, v: nat, cnt: nat, need: nat)
    requires need <= cnt && v < Pow2(cnt)
    ensures Shr(v, need) < Pow2(cnt - need)
    ensures Holds(bits, end, v, cnt) ==>
              && Holds(bits, end, Shr(v, need), cnt - need)
              && Field(bits, end - cnt, need) == Mask(v, need)
  {
    hide At, Low, Field, Mask, Shr;
    ShrBound(v, need, cnt - need);
    LowSplit(v, need, cnt - need);
    LowMask(v, need);
    if Holds(bits, end, v, cnt) {
      AtConcat(bits, end - cnt, Low(v, need), Low(Shr(v, need), cnt - need));
      FieldAt(bits, end - cnt, Mask(v, need), need);
    }
  }

  /** A buffer of at most 32 bits is an unsigned 32-bit number. */
  lemma {:induction false} FitsWord(v: nat, cnt: nat)
    requires v < Pow2(cnt) && cnt <= 32
    ensures v < 0x1_0000_0000
  {
    Pow2Mono(cnt, 32);
    assert Pow2(32) == 0x1_0000_0000 by { Pow2Values(); Pow2Add(16, 16); }
  }

  /** A result is right: an error exactly when the specification has no answer. */
  ghost predicate Agrees(want: Option<nat>, err: bool, got: int) {
    (err <==> want.None?) && (!err ==> want.value == got)
  }

  // ---- a symbol, bit by bit ----

  lemma {:induction false} OrZero(v: nat)
    ensures Or(v, 0) == v
  {
    if v != 0 { OrZero(v / 2); }
  }

  lemma {:induction false} OrLowest(c: nat, b: nat)
    requires b < 2
    ensures Or(2 * c, b) == 2 * c + b
  {
    if c != 0 { OrZero(c); }
  }

  /** The `n` bits at `p`, taken most significant first, make `c`. */
  ghost predicate Reads(bits: seq<bool>, p: nat, n: nat, c: nat) {
    c < Pow2(n) && At(bits, p, High(c, n))
  }

  lemma {:induction false} ReadsMore(bits: seq<bool>, p: nat, n: nat, c: nat, b: nat)
    requires Reads(bits, p, n, c) && p + n < |bits| && b == Field(bits, p + n, 1)
    ensures b < 2 && Reads(bits, p, n + 1, 2 * c + b)
  {
    hide At;
    FieldIs(bits, p + n, 1);
    AtIs(bits, p + n, [bits[p + n]]);
    assert b == Bit(bits[p + n]);
    assert High(2 * c + b, n + 1) == High(c, n) + [bits[p + n]];
    AtConcat(bits, p, High(c, n), [bits[p + n]]);
  }

  /** No symbol with a code shorter than `len` bits stands at `p`. */
  ghost predicate NoneShorter(lens: seq<nat>, bits: seq<bool>, p: nat, len: nat) {
    forall s: nat :: CodeAt(lens, bits, p, s) ==> lens[s] >= len
  }

  lemma {:induction false} SymbolHere(lens: seq<nat>, sym: seq<nat>, bits: seq<bool>, p: nat, len: nat, code: nat)
    requires Fits(lens) && Sorted(lens, sym, |lens|) && 1 <= len <= 15 && Reads(bits, p, len, code)
    requires 2 * Filled(lens, len - 1) <= code < 2 * Filled(lens, len - 1) + Count(lens, len)
    ensures var i := Index(lens, len) + (code - 2 * Filled(lens, len - 1));
            i < |sym| && SymAt(lens, bits, p) == Some(sym[i]) && sym[i] < |lens| && lens[sym[i]] == len
  {
    hide At, High, Filled, Fits, SymAt, Index;
    var k := code - 2 * Filled(lens, len - 1);
    assert lens[..|lens|] == lens;
    assert RankedAt(lens, sym, len, k, |lens|);
    var s := sym[Index(lens, len) + k];
    assert CodeAt(lens, bits, p, s);
    DecodesTo(lens, bits, p, s);
  }

  lemma {:induction false} SymbolLonger(lens: seq<nat>, bits: seq<bool>, p: nat, len: nat, code: nat)
    requires Fits(lens) && len >= 1 && Reads(bits, p, len, code) && NoneShorter(lens, bits, p, len)
    requires code >= 2 * Filled(lens, len - 1) + Count(lens, len)
    ensures NoneShorter(lens, bits, p, len + 1)
  {
    hide At, High, Filled, Fits;
    forall s: nat | CodeAt(lens, bits, p, s) && lens[s] == len
      ensures false
    {
      SameStart(bits, p, Code(lens, s), High(code, len));
      CodeValBound(lens, s);
      HighInjective(CodeVal(lens, s), code, len);
      RankBelowCount(lens, s);
    }
  }

  /** The input ends, or the longest codes have been passed, before any code word is complete. */
  lemma {:induction false} NoSymbol(lens: seq<nat>, bits: seq<bool>, p: nat, len: nat)
    requires Fits(lens) && NoneShorter(lens, bits, p, len) && (p + len > |bits| || len > 15)
    ensures SymAt(lens, bits, p) == None
  {
    hide At, Filled, Code;
    SymAmongIs(lens, bits, p, |lens|);
  }

  lemma {:induction false} StartReads(lens: seq<nat>, bits: seq<bool>, p: nat)
    requires p <= |bits|
    ensures Reads(bits, p, 0, 0) && NoneShorter(lens, bits, p, 1) && Filled(lens, 0) == 0 && Index(lens, 1) == 0
  {
    AtIs(bits, p, []);
    assert bits[p..p + 0] == [];
  }

  lemma {:induction false} NextLength(lens: seq<nat>, n: nat)
    requires n >= 1
    ensures Filled(lens, n) == 2 * Filled(lens, n - 1) + Count(lens, n) && Index(lens, n + 1) == Index(lens, n) + Count(lens, n)
  {
  }

  lemma {:induction false} LengthIs(lens: seq<nat>, bits: seq<bool>, p: nat)
    ensures LitLenReader(CodeReader(lens, bits), bits)(p) ==
            match SymAt(lens, bits, p)
            case None => None
            case Some(s) => LengthAt(bits, s, p + lens[s])
  {
    hide SymAt, LengthAt;
  }

  lemma {:induction false} DistanceIs(lens: seq<nat>, bits: seq<bool>, p: nat)
    ensures DistReader(CodeReader(lens, bits), bits)(p) ==
            match SymAt(lens, bits, p)
            case None => None
            case Some(s) => DistanceAt(bits, s, p + lens[s])
  {
    hide SymAt, DistanceAt;
  }

  /** What follows a length: its distance and the copy. */
  ghost function AfterLength(len: Option<(nat, nat)>, dr: Reader, out: seq<byte>, max: nat): Turn<byte> {
    match len
    case None => Bad
    case Some((v, q)) => if v < 256 then Bad else MatchTurn(dr, q, v - 256, out, max)
  }

  class Inf {
    const input: seq<byte>
    const max: nat
    var pos: nat
    var bitbuf: uint32
    var bitcnt: nat
    var err: bool
    var out: seq<byte>

    constructor (input: seq<byte>, max: nat)
      ensures this.input == input && this.max == max && Valid() && !err && At() == 0 && out == []
    {
      this.input, this.max := input, max;
      pos, bitbuf, bitcnt, err, out := 0, 0, 0, false, [];
      new;
      StartHolds(input);
    }

    ghost predicate Valid()
      reads this
    {
      && pos <= |input| && bitcnt < 16 && bitcnt <= 8 * pos && bitbuf < Pow2(bitcnt)
      && (!err ==> bitcnt < 8 && Holds(Unpack(input), 8 * pos, bitbuf, bitcnt))
    }

    /** How many bits of the input have been used. */
    ghost function At(): nat
      requires Valid()
      reads this
    {
      8 * pos - bitcnt
    }

    /** The next byte goes above the bits in hand. */
    method MoreBits(v: uint32) returns (w: uint32)
      requires pos < |input| && bitcnt <= 24 && v < Pow2(bitcnt)
      modifies this`pos, this`bitcnt
      ensures pos == old(pos) + 1 && bitcnt == old(bitcnt) + 8 && w < Pow2(bitcnt)
      ensures old(Holds(Unpack(input), 8 * pos, v, bitcnt)) ==> Holds(Unpack(input), 8 * pos, w, bitcnt)
    {
      hide Holds, Low;
      TakeByte(input, pos, v, bitcnt);
      FitsWord(Or(v, Shl(input[pos], bitcnt)), bitcnt + 8);
      w := Or(v, Shl(input[pos], bitcnt));
      pos := pos + 1;
      bitcnt := bitcnt + 8;
    }

    /** inf_bits: the next `need` bits, least significant first. */
    method TakeBits(need: nat) returns (r: nat)
      requires Valid() && need <= 15
      modifies this`pos, this`bitcnt, this`bitbuf, this`err
      ensures Valid() && (old(err) ==> err)
      ensures !old(err) ==> (err <==> old(At()) + need > 8 * |input|)
      ensures !err ==> At() == old(At()) + need <= 8 * |input| && r == Field(Unpack(input), old(At()), need)
    {
      hide Holds, Low, Field, Mask, Shr;
      var v: uint32 := bitbuf;
      while bitcnt < need
        invariant pos <= |input| && bitcnt < 16 + need && v < Pow2(bitcnt) && bitcnt >= old(bitcnt)
        invariant 8 * pos - bitcnt == old(8 * pos - bitcnt)
        invariant !err ==> Holds(Unpack(input), 8 * pos, v, bitcnt) && bitcnt < 8 + need
        invariant err == old(err)
        decreases need - bitcnt
        modifies this`pos, this`bitcnt, this`err
      {
        if pos >= |input| {
          Pow2Mono(old(bitcnt), bitcnt);
          err := true;
          return 0;
        }
        v := MoreBits(v);
      }
      GiveBits(Unpack(input), 8 * pos, v, bitcnt, need);
      FitsWord(Shr(v, need), bitcnt - need);
      bitbuf := Shr(v, need);
      bitcnt := bitcnt - need;
      r := Mask(v, need);
    }

    /** One more bit of a code word. */
    method CodeBit(code: nat, ghost p: nat, ghost n: nat) returns (code': nat)
      requires Valid() && (!err ==> At() == p + n && code % 2 == 0 && Reads(Unpack(input), p, n, code / 2))
      modifies this`pos, this`bitcnt, this`bitbuf, this`err
      ensures Valid() && (old(err) ==> err) && (!old(err) ==> (err <==> p + n >= 8 * |input|))
      ensures !err ==> At() == p + n + 1 <= 8 * |input| && Reads(Unpack(input), p, n + 1, code') && code <= code'
    {
      hide Reads, Field, Holds, Unpack, Or;
      code' := code;
      var b := TakeBits(1);
      if err { return; }
      ReadsMore(Unpack(input), p, n, code / 2, b);
      OrLowest(code / 2, b);
      code' := Or(code, b);
    }

    /** The code words of one length are consecutive numbers, from `first`; -1 when `code` is past them. */
    method LookUp(h: Huf, ghost lens: seq<nat>, ghost p: nat, len: nat, code: nat, first: nat, index: nat) returns (s: int)
      requires h.Table(lens) && Fits(lens) && 1 <= len <= 15
      requires Reads(Unpack(input), p, len, code) && NoneShorter(lens, Unpack(input), p, len)
      requires first == 2 * Filled(lens, len - 1) <= code && index == Index(lens, len)
      ensures s >= -1
      ensures s >= 0 ==> SymAt(lens, Unpack(input), p) == Some(s as nat) && s < |lens| && lens[s] == len
      ensures s < 0 ==> NoneShorter(lens, Unpack(input), p, len + 1) && code - first >= h.cnt[len]
      ensures Filled(lens, len) == first + h.cnt[len] && Index(lens, len + 1) == index + h.cnt[len]
    {
      hide Fits, SymAt, Reads, NoneShorter, Filled, Holds, Sorted, Index, Unpack;
      NextLength(lens, len);
      if code - first < h.cnt[len] {
        SymbolHere(lens, h.sym[..], Unpack(input), p, len, code);
        return h.sym[index + (code - first)];
      }
      SymbolLonger(lens, Unpack(input), p, len, code);
      return -1;
    }

    /** inf_sym: one symbol, against a canonical table. */
    method TakeSymbol(h: Huf, ghost lens: seq<nat>) returns (s: int)
      requires Valid() && h.Table(lens) && Fits(lens)
      modifies this`pos, this`bitcnt, this`bitbuf, this`err
      ensures Valid() && (old(err) ==> err) && (err ==> s == -1)
      ensures !old(err) ==> Agrees(SymAt(lens, Unpack(input), old(At())), err, s)
      ensures !err ==> 0 <= s < |lens| && At() == old(At()) + lens[s] <= 8 * |input|
    {
      hide Fits, SymAt, Reads, NoneShorter, Filled, Holds, Sorted, Index, Unpack;
      ghost var p := At();
      s := -1;
      ghost var bits := Unpack(input);
      var code, first, index := 0, 0, 0;
      var len := 1;
      StartReads(lens, bits, p);
      while len < 16
        invariant 1 <= len <= 16 && Valid() && (err <==> old(err)) && (err ==> len == 1)
        invariant !err ==> At() == p + len - 1 && code % 2 == 0 && Reads(bits, p, len - 1, code / 2) && NoneShorter(lens, bits, p, len)
        invariant first == 2 * Filled(lens, len - 1) <= code && index == Index(lens, len)
      {
        code := CodeBit(code, p, len - 1);
        if err {
          if !old(err) { NoSymbol(lens, bits, p, len); }
          return -1;
        }
        s := LookUp(h, lens, p, len, code, first, index);
        if s >= 0 { return; }
        index := index + h.cnt[len];
        first := (first + h.cnt[len]) * 2;
        code := code * 2;
        len := len + 1;
      }
      NoSymbol(lens, bits, p, 16);
      err := true;
      return -1;
    }

    // ---- literals and matches ----

    /** What happened is what the specification says of one turn. */
    ghost predicate Took(turn: Turn<byte>, done: bool)
      requires Valid()
      reads this
    {
      match turn
      case Bad => err
      case More(st) => !err && !done && st == State(At(), out)
      case Done(st) => !err && done && st == State(At(), out)
    }

    ghost predicate Gives(want: Option<State<byte>>)
      requires Valid()
      reads this
    {
      if err then want == None else want == Some(State(At(), out))
    }

    /** inf_put: append one byte, respecting the ceiling. */
    method PutByte(c: byte)
      modifies this`err, this`out
      ensures err == (old(err) || |old(out)| >= max)
      ensures out == if |old(out)| >= max then old(out) else old(out) + [c]
    {
      if |out| >= max {
        err := true;
        return;
      }
      out := out + [c];
    }

    /** inf_copy: a byte at a time, so a match may reach into itself. */
    method CopyMatch(dist: nat, len: nat)
      requires !err
      modifies this`err, this`out
      ensures err == (dist == 0 || dist > |old(out)| || |old(out)| + len > max)
      ensures !err ==> out == Copied(old(out), dist, len)
    {
      if dist == 0 || dist > |out| || |out| + len > max {
        err := true;
        return;
      }
      var from := |out| - dist;
      var o := out;
      var i := 0;
      while i < len
        invariant 0 <= i <= len && o == Copied(out, dist, i)
      {
        o := o + [o[from + i]];
        i := i + 1;
      }
      out := o;
    }

    /** The distance that follows a length. */
    method TakeDistance(dc: Huf, ghost dlen: seq<nat>) returns (dist: nat)
      requires Valid() && dc.Table(dlen) && Fits(dlen)
      modifies this`pos, this`bitcnt, this`bitbuf, this`err
      ensures Valid() && (old(err) ==> err) && (!err ==> old(At()) <= At())
      ensures !old(err) ==> DistReader(CodeReader(dlen, Unpack(input)), Unpack(input))(old(At())) ==
                            if err then None else Some((dist, At()))
    {
      hide Fits, Holds, SymAt, Field, Unpack, DistReader, CodeReader;
      dist := 0;
      DistanceIs(dlen, Unpack(input), At());
      var s := TakeSymbol(dc, dlen);
      if err || s < 0 || s >= 30 {
        err := true;
        return;
      }
      TableEntries();
      var x := TakeBits(DEXT[s]);
      dist := DBASE[s] + x;
    }

    method TakeMatch(dc: Huf, ghost dlen: seq<nat>, len: nat)
      requires Valid() && dc.Table(dlen) && Fits(dlen)
      modifies this
      ensures Valid() && (old(err) ==> err) && (!err ==> old(At()) <= At())
      ensures !old(err) ==>
                Took(MatchTurn(DistReader(CodeReader(dlen, Unpack(input)), Unpack(input)), old(At()), len, old(out), max), false)
    {
      hide Fits, Holds, Unpack, DistReader, CodeReader, Copied;
      var dist := TakeDistance(dc, dlen);
      if err { return; }
      CopyMatch(dist, len);
    }

    /** Symbol 257 and up: a length with its extra bits, then its distance. */
    method TakeLength(s: nat, dc: Huf, ghost dlen: seq<nat>)
      requires Valid() && !err && dc.Table(dlen) && Fits(dlen) && s >= 257
      modifies this
      ensures Valid() && (!err ==> old(At()) <= At())
      ensures Took(AfterLength(LengthAt(Unpack(input), s, old(At())),
                               DistReader(CodeReader(dlen, Unpack(input)), Unpack(input)), old(out), max), false)
    {
      hide Fits, Holds, Field, Unpack, DistReader, MatchTurn, CodeReader;
      var i := s - 257;
      if i >= 29 {
        err := true;
        return;
      }
      TableEntries();
      var x := TakeBits(LEXT[i]);
      var len := LBASE[i] + x;
      TakeMatch(dc, dlen, len);
    }

    /** One turn of inf_codes. */
    method TakeOne(lc: Huf, dc: Huf, ghost llen: seq<nat>, ghost dlen: seq<nat>) returns (done: bool)
      requires Valid() && !err && lc.Table(llen) && dc.Table(dlen) && Fits(llen) && Fits(dlen)
      modifies this
      ensures Valid() && (!err ==> old(At()) < At() <= 8 * |input|)
      ensures var bits := Unpack(input);
              Took(SymbolTurn(LitLenReader(CodeReader(llen, bits), bits), DistReader(CodeReader(dlen, bits), bits),
                              old(At()), old(out), max), done)
    {
      hide Fits, Holds, SymAt, Field, Unpack, LitLenReader, DistReader, MatchTurn;
      ghost var p := At();
      done := false;
      LengthIs(llen, Unpack(input), p);
      var s := TakeSymbol(lc, llen);
      if err || s < 0 { return; }
      if s < 256 {
        PutByte(s);
        return;
      }
      if s == 256 { return true; }
      TakeLength(s, dc, dlen);
    }

    /** inf_codes: literals and matches until the end-of-block symbol or an error. */
    method TakeCodes(lc: Huf, dc: Huf, ghost llen: seq<nat>, ghost dlen: seq<nat>)
      requires Valid() && !err && lc.Table(llen) && dc.Table(dlen) && Fits(llen) && Fits(dlen)
      modifies this
      ensures Valid() && Gives(BlockSymbols(llen, dlen, Unpack(input), old(At()), old(out), max))
    {
      hide Fits, Holds, SymbolTurn, LitLenReader, DistReader, Unpack;
      ghost var bits := Unpack(input);
      ghost var turn := SymbolTurns(LitLenReader(CodeReader(llen, bits), bits), DistReader(CodeReader(dlen, bits), bits), max);
      while true
        invariant Valid() && !err && At() <= |bits|
        invariant Loop(turn, State(At(), out), |bits|) == BlockSymbols(llen, dlen, bits, old(At()), old(out), max)
        decreases |bits| - At()
      {
        var done := TakeOne(lc, dc, llen, dlen);
        if err || done { return; }
      }
    }

    // ---- stored and fixed blocks ----

    /** inf_stored: the bits left in the byte are dropped, and the length's complement is not looked at. */
    method TakeStored()
      requires Valid() && !err
      modifies this
      ensures Valid() && Gives(StoredAt(input, old(At()), old(out), max))
    {
      hide Holds, Unpack, Or, Shl;
      NothingHeld(input, pos);
      bitbuf := 0;
      bitcnt := 0;
      if pos + 4 > |input| {
        err := true;
        return;
      }
      TwoBytes(input[pos], input[pos + 1]);
      var len := Or(input[pos], Shl(input[pos + 1], 8));
      pos := pos + 4;
      if pos + len > |input| || |out| + len > max {
        err := true;
        return;
      }
      out := out + input[pos..pos + len];
      pos := pos + len;
      NothingHeld(input, pos);
    }

    /** inf_fixed: a block in the format's own code. */
    method TakeFixed()
      requires Valid() && !err
      modifies this
      ensures Valid() && Gives(BlockSymbols(FixedLit(), FixedDist(), Unpack(input), old(At()), old(out), max))
    {
      hide Holds, Unpack, Fits, BlockSymbols, FixedLit, FixedDist;
      FixedFits();
      var ll := FillFixedLit();
      var dl := FillFixedDist();
      var lc := BuildFixed(ll[..]);
      var dc := BuildFixed(dl[..]);
      TakeCodes(lc, dc, FixedLit(), FixedDist());
    }

    // ---- dynamic blocks ----

    method TakeCounts() returns (nlen: nat, ndist: nat, ncode: nat)
      requires Valid() && !err
      modifies this`pos, this`bitcnt, this`bitbuf, this`err
      ensures Valid() && (err <==> old(At()) + 14 > 8 * |input|) && nlen >= 257 && ndist >= 1
      ensures !err ==>
                var bits, p := Unpack(input), old(At());
                && At() == p + 14 <= |bits| && nlen == Field(bits, p, 5) + 257
                && ndist == Field(bits, p + 5, 5) + 1 && ncode == Field(bits, p + 10, 4) + 4 <= 19
    {
      hide Holds, Field;
      nlen := TakeBits(5);
      nlen := nlen + 257;
      ndist := TakeBits(5);
      ndist := ndist + 1;
      ncode := TakeBits(4);
      ncode := ncode + 4;
      if !err { FieldBelow(Unpack(input), old(At()) + 10); }
    }

    /** One of the code-length code's own lengths. */
    method TakeClen(lens: array<nat>, i: nat)
      requires Valid() && lens.Length == 320 && i < 19
      modifies this`pos, this`bitcnt, this`bitbuf, this`err, lens
      ensures Valid() && (old(err) ==> err) && (!old(err) ==> (err <==> old(At()) + 3 > 8 * |input|))
      ensures !err ==> At() == old(At()) + 3 <= 8 * |input|
                       && lens[..19] == old(lens[..19])[Ord(i) := Field(Unpack(input), old(At()), 3)]
    {
      hide Holds, Field, Ord;
      TableEntries();
      var x := TakeBits(3);
      lens[ORDER[i]] := x;
    }

    /** The code-length code's own lengths, in the format's order. */
    method TakeClens(lens: array<nat>, ncode: nat)
      requires Valid() && !err && lens.Length == 320 && ncode <= 19
      modifies this`pos, this`bitcnt, this`bitbuf, this`err, lens
      ensures Valid() && (err <==> old(At()) + 3 * ncode > 8 * |input|)
      ensures !err ==> At() == old(At()) + 3 * ncode <= 8 * |input| && lens[..19] == Clens(Unpack(input), old(At()), ncode)
    {
      hide Holds, Field, Ord;
      ClearLens(lens);
      var i := 0;
      while i < ncode
        invariant 0 <= i <= ncode && Valid() && (err <==> old(At()) + 3 * i > 8 * |input|)
        invariant !err ==> At() == old(At()) + 3 * i <= 8 * |input| && lens[..19] == Clens(Unpack(input), old(At()), i)
      {
        TakeClen(lens, i);
        i := i + 1;
      }
    }

    /** How many lengths a repeat symbol stands for. */
    method TakeRepeat(s: nat) returns (n: nat)
      requires Valid() && !err && s >= 16
      modifies this`pos, this`bitcnt, this`bitbuf, this`err
      ensures Valid() && (err <==> old(At()) + RepeatBits(s) > 8 * |input|)
      ensures !err ==> At() == old(At()) + RepeatBits(s) <= 8 * |input|
                       && n == RepeatBase(s) + Field(Unpack(input), old(At()), RepeatBits(s))
    {
      hide Holds, Field;
      if s == 16 {
        n := TakeBits(2);
        n := n + 3;
      } else if s == 17 {
        n := TakeBits(3);
        n := n + 3;
      } else {
        n := TakeBits(7);
        n := n + 11;
      }
    }

    ghost predicate TookLens(turn: Turn<nat>, lens: seq<nat>)
      requires Valid()
      reads this
    {
      match turn
      case Bad => err
      case More(st) => !err && st == State(At(), lens)
      case Done(st) => false
    }

    /** A repeat: the last length again, or zeros. */
    method TakeRepeated(s: nat, lens: array<nat>, i: nat, total: nat) returns (i': nat)
      requires Valid() && !err && s >= 16 && i < total <= lens.Length && Small(lens[..i])
      modifies this`pos, this`bitcnt, this`bitbuf, this`err, lens
      ensures Valid() && i' <= total && Small(lens[..i']) && (!err ==> old(At()) <= At() <= 8 * |input|)
      ensures TookLens(RepeatAt(Unpack(input), s, old(At()), old(lens[..i]), total), lens[..i'])
    {
      hide Holds, Field, Unpack;
      i' := i;
      if s == 16 && i == 0 {
        err := true;
        return;
      }
      var l := if s == 16 then lens[i - 1] else 0;
      var n := TakeRepeat(s);
      if err || i + n > total {
        err := true;
        return;
      }
      i' := FillLens(lens, i, n, l);
    }

    /** One turn of the loop that reads code lengths. */
    method TakeLength1(cc: Huf, ghost clen: seq<nat>, lens: array<nat>, i: nat, total: nat) returns (i': nat)
      requires Valid() && !err && cc.Table(clen) && Fits(clen) && lens != cc.cnt && lens != cc.sym
      requires i < total <= lens.Length && Small(lens[..i])
      modifies this`pos, this`bitcnt, this`bitbuf, this`err, lens
      ensures Valid() && i' <= total && Small(lens[..i']) && (!err ==> old(At()) < At() <= 8 * |input|)
      ensures TookLens(LensTurn(CodeReader(clen, Unpack(input)), Unpack(input), old(At()), old(lens[..i]), total), lens[..i'])
    {
      hide Holds, Field, Unpack, SymAt, Fits, RepeatAt;
      i' := i;
      ghost var acc := lens[..i];
      var s := TakeSymbol(cc, clen);
      if err || s < 0 { return; }
      if s < 16 {
        lens[i] := s;
        assert lens[..i + 1] == acc + [s];
        return i + 1;
      }
      i' := TakeRepeated(s, lens, i, total);
    }

    /** The literal and distance code lengths, coded with the code of lengths `clen`. */
    method TakeCoded(cc: Huf, ghost clen: seq<nat>, lens: array<nat>, total: nat)
      requires Valid() && !err && cc.Table(clen) && Fits(clen) && lens != cc.cnt && lens != cc.sym && total <= lens.Length
      modifies this`pos, this`bitcnt, this`bitbuf, this`err, lens
      ensures Valid() && (!err ==> Small(lens[..total]))
      ensures GivesLens(Lens(CodeReader(clen, Unpack(input)), Unpack(input), old(At()), [], total), lens[..total])
    {
      hide Holds, Unpack, LensTurn, Fits, CodeReader, Small;
      ghost var bits := Unpack(input);
      ghost var turn := LensTurns(CodeReader(clen, bits), bits, total);
      var i: nat := 0;
      assert lens[..0] == [] && Small([]) by { SmallNone(); }
      while i < total
        invariant i <= total && Valid() && !err && At() <= |bits| && Small(lens[..i])
        invariant Loop(turn, State(At(), lens[..i]), |bits|) == Lens(CodeReader(clen, bits), bits, old(At()), [], total)
        decreases |bits| - At()
      {
        i := TakeLength1(cc, clen, lens, i, total);
        if err { return; }
      }
      LensEnd(CodeReader(clen, bits), bits, At(), lens[..i], total);
    }

    ghost predicate GivesLens(want: Option<State<nat>>, lens: seq<nat>)
      requires Valid()
      reads this
    {
      if err then want == None else want == Some(State(At(), lens))
    }

    /** The table of the code-length code, which has to be complete. */
    method TakeTable(lens: array<nat>, ncode: nat) returns (cc: Huf)
      requires Valid() && !err && lens.Length == 320 && ncode <= 19
      modifies this`pos, this`bitcnt, this`bitbuf, this`err, lens
      ensures Valid() && fresh(cc) && fresh(cc.cnt) && fresh(cc.sym)
      ensures err <==> old(At()) + 3 * ncode > 8 * |input| || !Usable(Clens(Unpack(input), old(At()), ncode))
      ensures !err ==> var clen := Clens(Unpack(input), old(At()), ncode);
                       At() == old(At()) + 3 * ncode <= 8 * |input| && cc.Table(clen) && Fits(clen)
    {
      hide Holds, Filled, Clens, Fits;
      cc := new Huf(19);
      TakeClens(lens, ncode);
      if err { return; }
      ghost var clen := lens[..19];
      ClensSmall(Unpack(input), old(At()), ncode);
      BuildDecides(clen);
      var left := cc.Build(lens[..19]);
      if left != 0 { err := true; }
    }

    /** All the code lengths of a dynamic block. */
    method TakeLens(lens: array<nat>, ncode: nat, total: nat)
      requires Valid() && !err && lens.Length == 320 && ncode <= 19 && total <= 320
      modifies this`pos, this`bitcnt, this`bitbuf, this`err, lens
      ensures Valid() && (!err ==> Small(lens[..total]))
      ensures GivesLens(ReadLens(Unpack(input), old(At()), ncode, total), lens[..total])
    {
      hide Holds, Usable, Lens, Clens, CodeReader, Small, Fits;
      var cc := TakeTable(lens, ncode);
      if err { return; }
      TakeCoded(cc, Clens(Unpack(input), old(At()), ncode), lens, total);
    }

    /** The two codes of a dynamic block are built and its symbols read. */
    method TakeBody(lens: array<nat>, nlen: nat, ndist: nat)
      requires Valid() && !err && lens.Length == 320 && 257 <= nlen <= 288 && ndist <= 30 && Small(lens[..nlen + ndist])
      modifies this
      ensures Valid() && Gives(DynamicBody(lens[..nlen + ndist], nlen, ndist, Unpack(input), old(At()), old(out), max))
    {
      hide Holds, Unpack, BlockSymbols, Filled, Fits;
      ghost var all := lens[..nlen + ndist];
      if lens[256] == 0 {
        err := true;
        return;
      }
      var llen, dlen := lens[..nlen], lens[nlen..nlen + ndist];
      assert llen == all[..nlen] && dlen == all[nlen..];
      var lok, lc := BuildChecked(llen, 288);
      if !lok {
        err := true;
        return;
      }
      var dok, dc := BuildChecked(dlen, 30);
      if !dok {
        err := true;
        return;
      }
      TakeCodes(lc, dc, llen, dlen);
    }

    /** inf_dynamic: a block that brings its own codes. */
    method TakeDynamic()
      requires Valid() && !err
      modifies this
      ensures Valid() && Gives(DynamicAt(Unpack(input), old(At()), old(out), max))
    {
      hide Holds, Field, Unpack, ReadLens, DynamicBody, Small;
      var lens := new nat[320];
      var nlen, ndist, ncode := TakeCounts();
      if err || nlen > 286 || ndist > 30 {
        err := true;
        return;
      }
      TakeLens(lens, ncode, nlen + ndist);
      if err { return; }
      TakeBody(lens, nlen, ndist);
    }

    /** One turn of inf_raw: a block's three first bits, then its body. */
    method TakeBlock() returns (last: bool)
      requires Valid() && !err
      modifies this
      ensures Valid() && Took(BlockTurn(input, old(At()), old(out), max), last)
      ensures !err ==> old(At()) < At() <= 8 * |input|
    {
      hide Holds, Field, StoredAt, BlockSymbols, DynamicAt, FixedLit, FixedDist, Unpack;
      var b, kind := TakeHead();
      last := b == 1;
      if err { return; }
      if kind == 0 {
        TakeStored();
      } else if kind == 1 {
        TakeFixed();
      } else if kind == 2 {
        TakeDynamic();
      } else {
        err := true;
      }
    }

    method TakeHead() returns (b: nat, kind: nat)
      requires Valid() && !err
      modifies this`pos, this`bitcnt, this`bitbuf, this`err
      ensures Valid() && (err <==> old(At()) + 3 > 8 * |input|)
      ensures !err ==> At() == old(At()) + 3 <= |Unpack(input)| && kind == Field(Unpack(input), old(At()) + 1, 2)
                       && (b == 1 <==> Unpack(input)[old(At())])
    {
      hide Holds, Field;
      b := TakeBits(1);
      kind := TakeBits(2);
      if !err { OneBit(Unpack(input), old(At())); }
    }
  }

  lemma {:induction false} OneBit(bits: seq<bool>, p: nat)
    requires p + 1 <= |bits|
    ensures Field(bits, p, 1) == Bit(bits[p])
  {
    FieldIs(bits, p, 1);
  }

  method BuildChecked(lens: seq<nat>, n: nat) returns (ok: bool, h: Huf)
    requires Small(lens) && |lens| <= n
    ensures fresh(h) && fresh(h.cnt) && fresh(h.sym) && ok == Fits(lens) && (ok ==> h.Table(lens))
  {
    hide Filled;
    h := new Huf(n);
    BuildDecides(lens);
    var left := h.Build(lens);
    ok := left >= 0;
  }

  /** inf_raw: the whole text of a raw stream, and how many bytes of the input it took; None if damaged. */
  method InfRaw(input: seq<byte>, max: nat) returns (r: Option<(seq<byte>, nat)>)
    ensures r == Inflate(input, max)
  {
    hide BlockTurn, Holds, Unpack;
    var z := new Inf(input, max);
    while true
      invariant z.input == input && z.max == max && z.Valid() && !z.err && z.At() <= 8 * |input|
      invariant Loop(BlockTurns(input, max), State(z.At(), z.out), 8 * |input|)
             == Loop(BlockTurns(input, max), State(0, []), 8 * |input|)
      decreases 8 * |input| - z.At()
    {
      var last := z.TakeBlock();
      if z.err { return None; }
      if last { return Some((z.out, z.pos)); }
    }
  }

  lemma {:induction false} SmallNone()
    ensures Small([])
  {
  }

  lemma {:induction false} LensEnd(cr: Reader, bits: seq<bool>, p: nat, acc: seq<nat>, total: nat)
    requires |acc| == total && p <= |bits|
    ensures Loop(LensTurns(cr, bits, total), State(p, acc), |bits|) == Some(State(p, acc))
  {
  }

  lemma {:induction false} ClensSmall(bits: seq<bool>, p: nat, k: nat)
    requires p + 3 * k <= |bits| && k <= 19
    ensures forall i :: 0 <= i < 19 ==> Clens(bits, p, k)[i] <= 7
  {
    hide Ord;
    if k != 0 {
      ClensSmall(bits, p, k - 1);
      Pow2Values();
    }
  }

  /** No symbol used: the lengths fit. */
  lemma {:induction false} NoneFilled(lens: seq<nat>, n: nat)
    requires Count(lens, 0) == |lens|
    ensures Filled(lens, n) == 0
  {
    if n != 0 {
      NoneFilled(lens, n - 1);
      NoCodes(lens);
    }
  }

  /** What inf_build answers decides whether the lengths fit, and whether they are complete. */
  lemma {:induction false} BuildDecides(lens: seq<nat>)
    requires Small(lens) || forall i :: 0 <= i < |lens| ==> lens[i] <= 7
    ensures Small(lens) && (Count(lens, 0) == |lens| ==> Fits(lens))
    ensures Usable(lens) <==> Count(lens, 0) == |lens| || (Fits(lens) && Pow2(15) - Filled(lens, 15) == 0)
  {
    hide Filled, Pow2;
    if Count(lens, 0) == |lens| { NoneFilled(lens, 15); }
  }

  ghost predicate Small(lens: seq<nat>) {
    forall i :: 0 <= i < |lens| ==> lens[i] <= 15
  }

  method ClearLens(lens: array<nat>)
    requires lens.Length == 320
    modifies lens
    ensures lens[..19] == Zeros(19)
  {
    var i := 0;
    while i < 19
      invariant 0 <= i <= 19 && forall k :: 0 <= k < i ==> lens[k] == 0
    {
      lens[i] := 0;
      i := i + 1;
    }
  }

  method FillLens(lens: array<nat>, i: nat, n: nat, l: nat) returns (i': nat)
    requires i + n <= lens.Length && Small(lens[..i]) && l <= 15
    modifies lens
    ensures i' == i + n && lens[..i'] == old(lens[..i]) + Rep(l, n) && Small(lens[..i'])
  {
    i' := i;
    var k: nat := n;
    while k > 0
      invariant i' + k == i + n
      invariant forall j :: 0 <= j < i ==> lens[j] == old(lens[j])
      invariant forall j :: i <= j < i' ==> lens[j] == l
    {
      lens[i'] := l;
      k, i' := k - 1, i' + 1;
    }
    assert forall j :: 0 <= j < i ==> old(lens[..i])[j] == old(lens[j]);
  }

  lemma {:induction false} FieldBelow(bits: seq<bool>, p: nat)
    requires p + 4 <= |bits|
    ensures Field(bits, p, 4) < 16
  {
    Pow2Values();
  }

  method BuildFixed(lens: seq<nat>) returns (h: Huf)
    requires Fits(lens)
    ensures fresh(h) && fresh(h.cnt) && fresh(h.sym) && h.Table(lens)
  {
    hide Filled;
    h := new Huf(|lens|);
    var left := h.Build(lens);
  }

  method FillFixedDist() returns (dl: array<nat>)
    ensures fresh(dl) && dl.Length == 30 && dl[..] == FixedDist()
  {
    dl := new nat[30];
    var i := 0;
    while i < 30
      invariant 0 <= i <= 30 && forall k :: 0 <= k < i ==> dl[k] == 5
    {
      dl[i] := 5;
      i := i + 1;
    }
  }

  method FillFixedLit() returns (ll: array<nat>)
    ensures fresh(ll) && ll.Length == 288 && ll[..] == FixedLit()
  {
    ll := new nat[288];
    var i := 0;
    while i < 144
      invariant 0 <= i <= 144 && forall k :: 0 <= k < i ==> ll[k] == FixedLen(k)
    {
      ll[i] := 8;
      i := i + 1;
    }
    while i < 256
      invariant 144 <= i <= 256 && forall k :: 0 <= k < i ==> ll[k] == FixedLen(k)
    {
      ll[i] := 9;
      i := i + 1;
    }
    while i < 280
      invariant 256 <= i <= 280 && forall k :: 0 <= k < i ==> ll[k] == FixedLen(k)
    {
      ll[i] := 7;
      i := i + 1;
    }
    while i < 288
      invariant 280 <= i <= 288 && forall k :: 0 <= k < i ==> ll[k] == FixedLen(k)
    {
      ll[i] := 8;
      i := i + 1;
    }
  }

  lemma {:induction false} NothingHeld(z: seq<byte>, pos: nat)
    requires pos <= |z|
    ensures Holds(Unpack(z), 8 * pos, 0, 0)
  {
    AtIs(Unpack(z), 8 * pos, []);
    assert Unpack(z)[8 * pos..8 * pos + 0] == [];
  }

  lemma {:induction false} StartHolds(z: seq<byte>)
    ensures Holds(Unpack(z), 0, 0, 0)
  {
  }
}
