/** The two wrappers of a raw stream: zlib (RFC 1950) and gzip (RFC 1952), written and read. */
module Containers {
  import opened Bits
  import opened Stream
  import opened InflateSpec
  import opened Inflater
  import opened Deflater
  import opened RoundTrip
  import opened Checksums

  // ---- zlib ----

  /** Two bytes as a number, the most significant first. */
  function Be(a: nat, b: nat): nat { 256 * a + b }

  /** inf_zlib: what it makes of `z`, and how many bytes of it that took. */
  ghost function InflateZlib(z: seq<byte>, max: nat): Option<(seq<byte>, nat)> {
    if |z| < 2 || z[0] % 16 != 8 || Be(z[0], z[1]) % 31 != 0 || (z[1] / 32) % 2 == 1 then None
    else
      match Inflate(z[2..], max)
      case None => None
      case Some((x, u)) => Some((x, u + 2 + 4))
  }

  method InfZlib(z: seq<byte>, max: nat) returns (r: Option<(seq<byte>, nat)>)
    ensures r == InflateZlib(z, max)
  {
    hide Inflate;
    if |z| < 2 || z[0] % 16 != 8 || Be(z[0], z[1]) % 31 != 0 { return None; }
    if (z[1] / 32) % 2 == 1 { return None; }
    r := InfRaw(z[2..], max);
    if r.None? { return; }
    r := Some((r.value.0, r.value.1 + 2 + 4));
  }

  /** The most significant byte first. */
  function Be16(v: nat): seq<byte> { [v / 256 % 256, v % 256] }

  ghost predicate ZlibOf(z: seq<byte>, x: seq<byte>) {
    exists raw: seq<byte> :: Encodes(raw, x) &&
      z == [0x78, 0x9c] + (raw + (Be16(SumB(x) % 65521) + Be16(SumA(x) % 65521)))
  }

  lemma {:induction false} ZlibBytes()
    ensures Shr(0x789c, 8) == 0x78 && Mask(0x789c, 8) == 0x9c
  {
    assert Shr(0x789, 4) == 0x78;
    assert Mask(0x789, 4) == 9;
  }

  lemma {:induction false} HeaderBits()
    ensures Or(0x7800, Shl(2, 6)) == 0x7880 && Or(0x7880, 31 - 0x7880 % 31) == 0x789c
  {
    hide Or, Shl;
    Pow2Values();
    ShlIs(2, 6);
    ShlIs(0x78, 8);
    ShlIs(0xf1, 7);
    OrAdds(0x80, 8, 0x78);
    OrAdds(0x1c, 7, 0xf1);
    OrFlip(0x7800, 0x80);
    OrFlip(0x7880, 0x1c);
  }

  lemma {:induction false} OrFlip(v: nat, w: nat)
    ensures Or(v, w) == Or(w, v)
    decreases v + w
  {
    if v == 0 {
      OrZero(w);
    } else if w == 0 {
      OrZero(v);
    } else {
      OrFlip(v / 2, w / 2);
    }
  }

  lemma {:induction false} ZlibHeader()
    ensures Or(0x7800, Shl(2, 6)) == 0x7880 && Or(0x7880, 31 - 0x7880 % 31) == 0x789c
    ensures Shr(0x789c, 8) == 0x78 && Mask(0x789c, 8) == 0x9c
  {
    hide Or, Shl, Shr, Mask;
    HeaderBits();
    ZlibBytes();
  }

  /** def_zlib: header, raw stream, Adler-32 of the text. */
  method DefZlib(x: seq<byte>, out0: seq<byte>) returns (out: seq<byte>)
    requires |x| < 0x8000_0000
    ensures out0 <= out && ZlibOf(out[|out0|..], x) && 8 * |out[|out0|..]| <= Bound(|x|) + 48
  {
    hide Encodes, Or, Shl, Shr, Mask, SumA, SumB, Bound;
    ZlibHeader();
    var hdr := Or(0x7800, Shl(2, 6));
    hdr := Or(hdr, 31 - hdr % 31);
    out := out0 + [Shr(hdr, 8), Mask(hdr, 8)];
    ghost var head := out;
    out := DefRaw(x, out);
    ghost var raw := out[|head|..];
    var a, b := Adler(x);
    out := out + Be16(b) + Be16(a);
    assert out[|out0|..] == [0x78, 0x9c] + (raw + (Be16(b) + Be16(a)));
  }

  /** A zlib stream is read back whole, whatever follows it. */
  lemma {:induction false} ZlibUndoes(z: seq<byte>, x: seq<byte>, t: seq<byte>, max: nat)
    requires ZlibOf(z, x) && |x| <= max
    ensures InflateZlib(z + t, max) == Some((x, |z|))
  {
    hide Encodes, Inflate, SumA, SumB;
    var raw: seq<byte> :| Encodes(raw, x) && z == [0x78, 0x9c] + (raw + (Be16(SumB(x) % MOD) + Be16(SumA(x) % MOD)));
    var tail := Be16(SumB(x) % MOD) + Be16(SumA(x) % MOD);
    InflateUndoes(raw, x, tail + t, max);
    assert (z + t)[2..] == raw + (tail + t);
  }

  // ---- gzip ----

  /** The first NUL at or after `i`, or the end. */
  function NameEnd(z: seq<byte>, i: nat): (r: nat)
    ensures r >= i
    decreases |z| - i
  {
    if i < |z| && z[i] != 0 then NameEnd(z, i + 1) else i
  }

  method SkipName(z: seq<byte>, i: nat) returns (r: nat)
    ensures r == NameEnd(z, i) + 1
  {
    r := i;
    while r < |z| && z[r] != 0
      invariant r >= i && NameEnd(z, r) == NameEnd(z, i)
      decreases |z| - r
    {
      r := r + 1;
    }
    r := r + 1;
  }

  predicate Flag(flg: nat, k: nat) { Shr(flg, k) % 2 == 1 }

  /** Past each optional field, if its flag says it is there. */
  function AfterExtra(z: seq<byte>, flg: nat, i: nat): Option<nat> {
    if !Flag(flg, 2) then Some(i)
    else if i + 2 > |z| then None
    else Some(i + 2 + Be(z[i + 1], z[i]))
  }

  function AfterName(z: seq<byte>, on: bool, i: nat): nat {
    if on then NameEnd(z, i) + 1 else i
  }

  /** Where the deflate data of a gzip member starts; None when its header is refused. */
  function GzipStart(z: seq<byte>): (r: Option<nat>)
    ensures r.Some? ==> r.value < |z|
  {
    if |z| < 18 || z[0] != 0x1f || z[1] != 0x8b || z[2] != 8 || z[3] >= 32 then None
    else
      match AfterExtra(z, z[3], 10)
      case None => None
      case Some(i) =>
        var j := AfterName(z, Flag(z[3], 4), AfterName(z, Flag(z[3], 3), i)) + (if Flag(z[3], 1) then 2 else 0);
        if j >= |z| then None else Some(j)
  }

  ghost function InflateGzip(z: seq<byte>, max: nat): Option<(seq<byte>, nat)> {
    match GzipStart(z)
    case None => None
    case Some(i) =>
      match Inflate(z[i..], max)
      case None => None
      case Some((x, u)) => Some((x, i + u + 8))
  }

  method FindStart(z: seq<byte>) returns (r: Option<nat>)
    ensures r == GzipStart(z)
  {
    hide NameEnd, Shr;
    if |z| < 18 || z[0] != 0x1f || z[1] != 0x8b { return None; }
    if z[2] != 8 { return None; }
    var flg := z[3];
    if flg >= 32 { return None; }
    var i: nat := 10;
    if Flag(flg, 2) {
      if i + 2 > |z| { return None; }
      i := i + 2 + Be(z[i + 1], z[i]);
    }
    if Flag(flg, 3) { i := SkipName(z, i); }
    if Flag(flg, 4) { i := SkipName(z, i); }
    if Flag(flg, 1) { i := i + 2; }
    if i >= |z| { return None; }
    return Some(i);
  }

  /** inf_gzip. */
  method InfGzip(z: seq<byte>, max: nat) returns (r: Option<(seq<byte>, nat)>)
    ensures r == InflateGzip(z, max)
  {
    hide Inflate, GzipStart;
    var i := FindStart(z);
    if i.None? { return None; }
    r := InfRaw(z[i.value..], max);
    if r.None? { return; }
    r := Some((r.value.0, i.value + r.value.1 + 8));
  }

  /** A gzip header as RFC 1952 section 2.3 lays it out: the fixed part, then whichever fields are there. */
  datatype Header = Header(text: bool, rest: seq<byte>, extra: Option<seq<byte>>, name: Option<seq<byte>>,
                           comment: Option<seq<byte>>, check: Option<seq<byte>>)
  {
    predicate Good() {
      && |rest| == 6 && (extra.Some? ==> |extra.value| < 0x1_0000)
      && (name.Some? ==> 0 !in name.value) && (comment.Some? ==> 0 !in comment.value)
      && (check.Some? ==> |check.value| == 2)
    }

    function Flags(): (f: byte)
    {
      Bit(text) + 2 * Bit(check.Some?) + 4 * Bit(extra.Some?) + 8 * Bit(name.Some?) + 16 * Bit(comment.Some?)
    }

    function Extra(): seq<byte> {
      if extra.Some? then [|extra.value| % 256, |extra.value| / 256 % 256] + extra.value else []
    }

    function Bytes(): seq<byte> {
      [0x1f, 0x8b, 8, Flags()] + (rest + (Extra() + (Name(name) + (Name(comment) + (if check.Some? then check.value else [])))))
    }
  }

  function Name(n: Option<seq<byte>>): seq<byte> {
    if n.Some? then n.value + [0] else []
  }

  predicate Stands(z: seq<byte>, p: nat, w: seq<byte>) {
    p + |w| <= |z| && z[p..p + |w|] == w
  }

  lemma {:induction false} StandsSplit(z: seq<byte>, p: nat, v: seq<byte>, w: seq<byte>)
    requires Stands(z, p, v + w)
    ensures Stands(z, p, v) && Stands(z, p + |v|, w)
  {
    var u := z[p..p + |v + w|];
    assert u[..|v|] == z[p..p + |v|] && u[|v|..] == z[p + |v|..p + |v| + |w|];
    assert (v + w)[..|v|] == v && (v + w)[|v|..] == w;
  }

  lemma {:induction false} NameEndIs(z: seq<byte>, i: nat, n: seq<byte>)
    requires Stands(z, i, n + [0]) && 0 !in n
    ensures NameEnd(z, i) == i + |n|
    decreases |n|
  {
    StandsSplit(z, i, n, [0]);
    if n == [] {
      assert z[i..i + 1][0] == z[i];
    } else {
      assert z[i] == n[0] by { assert z[i..i + |n|][0] == z[i]; }
      assert n[1..] + [0] == (n + [0])[1..];
      assert z[i + 1..i + 1 + |n|] == z[i..i + |n + [0]|][1..];
      NameEndIs(z, i + 1, n[1..]);
    }
  }

  lemma {:induction false} AfterNameIs(z: seq<byte>, i: nat, n: Option<seq<byte>>)
    requires Stands(z, i, Name(n)) && (n.Some? ==> 0 !in n.value)
    ensures AfterName(z, n.Some?, i) == i + |Name(n)|
  {
    if n.Some? { NameEndIs(z, i, n.value); }
  }

  lemma {:induction false} AfterExtraIs(z: seq<byte>, h: Header, i: nat)
    requires h.Good() && Stands(z, i, h.Extra()) && Flag(h.Flags(), 2) == h.extra.Some?
    ensures AfterExtra(z, h.Flags(), i) == Some(i + |h.Extra()|)
  {
    hide Shr;
    if h.extra.Some? {
      var n := |h.extra.value|;
      StandsSplit(z, i, [n % 256, n / 256 % 256], h.extra.value);
      assert z[i..i + 2][0] == z[i] && z[i..i + 2][1] == z[i + 1];
    }
  }

  lemma {:induction false} FlagDigit(b: bool, m: nat, k: nat)
    ensures Flag(Bit(b) + 2 * m, 0) == b && Flag(Bit(b) + 2 * m, k + 1) == Flag(m, k)
  {
    assert (Bit(b) + 2 * m) / 2 == m;
  }

  lemma {:induction false} FlagsRead(h: Header)
    ensures h.Flags() < 32 && Flag(h.Flags(), 2) == h.extra.Some? && Flag(h.Flags(), 3) == h.name.Some?
    ensures Flag(h.Flags(), 4) == h.comment.Some? && Flag(h.Flags(), 1) == h.check.Some?
  {
    hide Flag;
    var f4 := Bit(h.comment.Some?) + 2 * 0;
    var f3 := Bit(h.name.Some?) + 2 * f4;
    var f2 := Bit(h.extra.Some?) + 2 * f3;
    var f1 := Bit(h.check.Some?) + 2 * f2;
    assert h.Flags() == Bit(h.text) + 2 * f1;
    FlagDigit(h.text, f1, 0);
    FlagDigit(h.text, f1, 1);
    FlagDigit(h.text, f1, 2);
    FlagDigit(h.text, f1, 3);
    FlagDigit(h.check.Some?, f2, 0);
    FlagDigit(h.check.Some?, f2, 1);
    FlagDigit(h.check.Some?, f2, 2);
    FlagDigit(h.extra.Some?, f3, 0);
    FlagDigit(h.extra.Some?, f3, 1);
    FlagDigit(h.name.Some?, f4, 0);
    FlagDigit(h.comment.Some?, 0, 0);
  }

  lemma {:induction false} FieldsStand(h: Header, z: seq<byte>)
    requires h.Good() && h.Bytes() <= z
    ensures Stands(z, 10, h.Extra()) && Stands(z, 10 + |h.Extra()|, Name(h.name))
    ensures Stands(z, 10 + |h.Extra()| + |Name(h.name)|, Name(h.comment))
    ensures |h.Bytes()| == 10 + |h.Extra()| + |Name(h.name)| + |Name(h.comment)| + (if h.check.Some? then 2 else 0)
    ensures z[0] == 0x1f && z[1] == 0x8b && z[2] == 8 && z[3] == h.Flags()
  {
    hide Name, Header.Extra, Header.Flags;
    var c := if h.check.Some? then h.check.value else [];
    var s := [0x1f, 0x8b, 8, h.Flags()];
    assert Stands(z, 0, h.Bytes());
    StandsSplit(z, 0, s, h.rest + (h.Extra() + (Name(h.name) + (Name(h.comment) + c))));
    StandsSplit(z, 4, h.rest, h.Extra() + (Name(h.name) + (Name(h.comment) + c)));
    StandsSplit(z, 10, h.Extra(), Name(h.name) + (Name(h.comment) + c));
    StandsSplit(z, 10 + |h.Extra()|, Name(h.name), Name(h.comment) + c);
    StandsSplit(z, 10 + |h.Extra()| + |Name(h.name)|, Name(h.comment), c);
    assert z[..4][0] == z[0] && z[..4][1] == z[1] && z[..4][2] == z[2] && z[..4][3] == z[3];
  }

  /** Whatever optional fields the header has, the data is found right after them. */
  lemma {:induction false} GzipStartIs(h: Header, t: seq<byte>)
    requires h.Good() && |t| >= 8
    ensures GzipStart(h.Bytes() + t) == Some(|h.Bytes()|)
  {
    hide Name, Header.Extra, Header.Flags, Header.Bytes, Flag, AfterName, AfterExtra, Stands;
    var z := h.Bytes() + t;
    FlagsRead(h);
    FieldsStand(h, z);
    AfterExtraIs(z, h, 10);
    AfterNameIs(z, 10 + |h.Extra()|, h.name);
    AfterNameIs(z, 10 + |h.Extra()| + |Name(h.name)|, h.comment);
  }

  /** A gzip member, with any optional fields, is read back whole, whatever follows it. */
  lemma {:induction false} GzipUndoes(h: Header, raw: seq<byte>, trailer: seq<byte>, x: seq<byte>, t: seq<byte>, max: nat)
    requires h.Good() && Encodes(raw, x) && |trailer| == 8 && |x| <= max
    ensures InflateGzip(h.Bytes() + (raw + trailer) + t, max) == Some((x, |h.Bytes() + (raw + trailer)|))
  {
    hide Encodes, Inflate, Header.Bytes, GzipStart;
    var z := h.Bytes() + (raw + trailer) + t;
    assert z == h.Bytes() + (raw + (trailer + t));
    GzipStartIs(h, raw + (trailer + t));
    assert z[|h.Bytes()|..] == raw + (trailer + t);
    InflateUndoes(raw, x, trailer + t, max);
  }

  /** Four bytes, the least significant first. */
  function Le32(v: nat): (s: seq<byte>)
    ensures |s| == 4
  {
    [v % 256, v / 256 % 256, v / 0x1_0000 % 256, v / 0x100_0000 % 256]
  }

  /** The header def_gzip writes: no optional field. */
  function PlainHeader(mtime: int): (h: Header)
    ensures h.Good()
  {
    Header(false, Le32(mtime % 0x1_0000_0000) + [0, 3], None, None, None, None)
  }

  ghost predicate GzipOf(z: seq<byte>, x: seq<byte>, mtime: int) {
    exists raw: seq<byte> :: Encodes(raw, x) &&
      z == PlainHeader(mtime).Bytes() + (raw + (Le32(Crc(x)) + Le32(|x| % 0x1_0000_0000)))
  }

  /** def_gzip: header, raw stream, CRC-32 and length of the text. */
  method DefGzip(x: seq<byte>, mtime: int, out0: seq<byte>) returns (out: seq<byte>)
    requires |x| < 0x8000_0000
    ensures out0 <= out && GzipOf(out[|out0|..], x, mtime)
  {
    hide Encodes, Crc, Le32;
    out := out0 + [0x1f, 0x8b, 8, 0] + Le32(mtime % 0x1_0000_0000) + [0, 3];
    ghost var head := out;
    PlainBytes(mtime);
    out := DefRaw(x, out);
    ghost var raw := out[|head|..];
    var crc := Crc32(x);
    out := out + Le32(crc) + Le32(|x| % 0x1_0000_0000);
    assert out[|out0|..] == PlainHeader(mtime).Bytes() + (raw + (Le32(Crc(x)) + Le32(|x| % 0x1_0000_0000)));
  }

  lemma {:induction false} PlainBytes(mtime: int)
    ensures PlainHeader(mtime).Bytes() == [0x1f, 0x8b, 8, 0] + Le32(mtime % 0x1_0000_0000) + [0, 3]
  {
    hide Le32;
  }

  /** What def_gzip writes, inf_gzip reads back. */
  lemma {:induction false} DefGzipUndone(z: seq<byte>, x: seq<byte>, mtime: int, t: seq<byte>, max: nat)
    requires GzipOf(z, x, mtime) && |x| <= max
    ensures InflateGzip(z + t, max) == Some((x, |z|))
  {
    hide Encodes, Inflate, Crc, Le32, GzipStart;
    var raw: seq<byte> :| Encodes(raw, x) && z == PlainHeader(mtime).Bytes() + (raw + (Le32(Crc(x)) + Le32(|x| % 0x1_0000_0000)));
    Le32Sizes(Crc(x), |x| % 0x1_0000_0000);
    GzipUndoes(PlainHeader(mtime), raw, Le32(Crc(x)) + Le32(|x| % 0x1_0000_0000), x, t, max);
  }

  lemma {:induction false} Le32Sizes(v: nat, w: nat)
    ensures |Le32(v) + Le32(w)| == 8
  {
  }

  // ---- end to end ----

  /** Compress, append anything, expand: the text and the stream's own length come back. */
  method RawThereAndBack(x: seq<byte>, t: seq<byte>, max: nat) returns (r: Option<(seq<byte>, nat)>, size: nat)
    requires |x| < 0x8000_0000 && |x| <= max
    ensures r == Some((x, size)) && 8 * size <= Bound(|x|)
  {
    hide Encodes, Inflate, Bound;
    var z := DefRaw(x, []);
    assert z[0..] == z;
    InflateUndoes(z, x, t, max);
    size := |z|;
    r := InfRaw(z + t, max);
  }
}
