/** bi_rddelim: what `read` takes from a file, a byte at a time where the descriptor cannot be put back,
    and a block at a time where it can. */
module Reading {
  import opened Bits

  const IOCH: nat := 4096

  // ---- what is taken ----

  /** How many characters have begun, and how many bytes the last one still needs. */
  datatype Count = Count(chars: nat, need: nat)

  predicate Continues(c: byte) { 0x80 <= c < 0xc0 }

  /** bi_u8more. */
  function More(c: byte): nat {
    if 0xc0 <= c < 0xe0 then 1 else if 0xe0 <= c < 0xf0 then 2 else if 0xf0 <= c < 0xf8 then 3 else 0
  }

  /** bi_u8step's count after one more byte. */
  function Step(k: Count, c: byte): Count {
    if k.need > 0 && Continues(c) then k.(need := k.need - 1) else Count(k.chars + 1, More(c))
  }

  predicate Enough(k: Count, want: nat) { want > 0 && k.chars >= want && k.need == 0 }

  /** bi_u8chars. */
  function Chars(s: seq<byte>): nat {
    if s == [] then 0 else Chars(s[..|s| - 1]) + (if Continues(s[|s| - 1]) then 0 else 1)
  }

  /** What `read` is asked for. */
  datatype Ask = Ask(delim: byte, want: nat, exact: bool)

  /** What it has after that: the bytes, how many of the file were used, and whether it was not at the end. */
  datatype Got = Got(out: seq<byte>, used: nat, ok: bool)

  /** A NUL is dropped unless it is the delimiter. */
  predicate Kept(a: Ask, c: byte) { c != 0 || a.delim == 0 }

  function Count1(a: Ask, k: Count, c: byte): Count {
    if a.want > 0 && Kept(a, c) then Step(k, c) else k
  }

  /** Reading the rest of a file, byte by byte. */
  function Take(rest: seq<byte>, a: Ask, k: Count, out: seq<byte>): Got {
    if rest == [] then Got(out, 0, a.want > 0 && k.chars >= a.want)
    else
      var c := rest[0];
      if !a.exact && k.need == 0 && c == a.delim then Got(out, 1, true)
      else
        var out' := if Kept(a, c) then out + [c] else out;
        if Kept(a, c) && Enough(Count1(a, k, c), a.want) then Got(out', 1, true)
        else
          var g := Take(rest[1..], a, Count1(a, k, c), out');
          g.(used := g.used + 1)
  }

  /** The whole of one `read`, what is already in the buffer counting. */
  function Read(rest: seq<byte>, a: Ask, b: seq<byte>): Got {
    var chars := if a.want > 0 then Chars(b) else 0;
    if a.want > 0 && chars >= a.want then Got(b, 0, true) else Take(rest, a, Count(chars, 0), b)
  }

  // ---- the file ----

  class File {
    const data: seq<byte>
    var pos: nat

    constructor (data: seq<byte>, pos: nat)
      requires pos <= |data|
      ensures this.data == data && this.pos == pos && Valid()
    {
      this.data, this.pos := data, pos;
    }

    ghost predicate Valid()
      reads this
    {
      pos <= |data|
    }

    ghost function Rest(): seq<byte>
      requires Valid()
      reads this
    {
      data[pos..]
    }

    /** read(): some bytes, as many as `hint` says but at least one and no more than asked; none at the end. */
    method Fetch(max: nat, hint: nat) returns (buf: seq<byte>)
      requires Valid() && max > 0
      modifies this
      ensures Valid() && |buf| <= max && old(pos) + |buf| == pos && buf == data[old(pos)..pos]
      ensures buf == [] <==> old(Rest()) == []
    {
      var n := if hint < 1 then 1 else if hint > max then max else hint;
      var k := if pos + n > |data| then |data| - pos else n;
      buf := data[pos..pos + k];
      pos := pos + k;
    }

    /** lseek back by `n`. */
    method Back(n: nat)
      requires Valid() && n <= pos
      modifies this
      ensures Valid() && pos == old(pos) - n
    {
      pos := pos - n;
    }
  }

  method CountChars(p: seq<byte>) returns (c: nat)
    ensures c == Chars(p)
  {
    c := 0;
    var i := 0;
    while i < |p|
      invariant 0 <= i <= |p| && c == Chars(p[..i])
    {
      assert p[..i + 1][..i] == p[..i];
      if !Continues(p[i]) { c := c + 1; }
      i := i + 1;
    }
    assert p[..i] == p;
  }

  /** The answer so far and what is still to come, `n` bytes on. */
  ghost predicate Along(want: Got, rest: seq<byte>, a: Ask, k: Count, out: seq<byte>, n: nat) {
    var g := Take(rest, a, k, out);
    want == g.(used := g.used + n)
  }

  lemma {:induction false} AlongNext(want: Got, rest: seq<byte>, a: Ask, k: Count, out: seq<byte>, n: nat)
    requires rest != [] && Along(want, rest, a, k, out, n)
    ensures var c := rest[0];
            if !a.exact && k.need == 0 && c == a.delim then want == Got(out, n + 1, true)
            else
              var out' := if Kept(a, c) then out + [c] else out;
              if Kept(a, c) && Enough(Count1(a, k, c), a.want) then want == Got(out', n + 1, true)
              else Along(want, rest[1..], a, Count1(a, k, c), out', n + 1)
  {
    hide Kept, Enough, Count1;
  }

  /** The byte path: one byte a read. */
  method ByteRead(f: File, a: Ask, b: seq<byte>) returns (out: seq<byte>, ok: bool)
    requires f.Valid()
    modifies f
    ensures f.Valid() && f.pos >= old(f.pos) && Got(out, f.pos - old(f.pos), ok) == Read(old(f.Rest()), a, b)
  {
    hide Take, Along, Enough, Kept, Count1;
    out := b;
    var chars := 0;
    if a.want > 0 { chars := CountChars(b); }
    if a.want > 0 && chars >= a.want { return out, true; }
    var k := Count(chars, 0);
    ghost var want := Take(f.Rest(), a, k, out);
    AlongStart(f.Rest(), a, k, out);
    while true
      invariant f.Valid() && f.pos >= old(f.pos) && Along(want, f.Rest(), a, k, out, f.pos - old(f.pos))
      decreases |f.data| - f.pos
    {
      ghost var rest := f.Rest();
      var buf := f.Fetch(1, 1);
      if buf == [] {
        AlongEnd(want, rest, a, k, out, f.pos - old(f.pos));
        return out, a.want > 0 && k.chars >= a.want;
      }
      var c := buf[0];
      AlongNext(want, rest, a, k, out, f.pos - 1 - old(f.pos));
      assert c == rest[0] && f.Rest() == rest[1..];
      if !a.exact && c == a.delim && k.need == 0 { return out, true; }
      k := Count1(a, k, c);
      if Kept(a, c) {
        out := out + [c];
        if Enough(k, a.want) { return out, true; }
      }
    }
  }

  lemma {:induction false} AlongStart(rest: seq<byte>, a: Ask, k: Count, out: seq<byte>)
    ensures Along(Take(rest, a, k, out), rest, a, k, out, 0)
  {
  }

  lemma {:induction false} AlongEnd(want: Got, rest: seq<byte>, a: Ask, k: Count, out: seq<byte>, n: nat)
    requires rest == [] && Along(want, rest, a, k, out, n)
    ensures want == Got(out, n, a.want > 0 && k.chars >= a.want)
  {
  }

  // ---- blocks ----

  /** What is added of a block: all but the NULs, unless NUL is the delimiter. */
  function Added(s: seq<byte>, delim: byte): seq<byte> {
    if s == [] then []
    else Added(s[..|s| - 1], delim) + (if s[|s| - 1] != 0 || delim == 0 then [s[|s| - 1]] else [])
  }

  lemma {:induction false} AddedConcat(s: seq<byte>, t: seq<byte>, delim: byte)
    ensures Added(s + t, delim) == Added(s, delim) + Added(t, delim)
  {
    if t == [] {
      assert s + t == s;
    } else {
      var n := |t| - 1;
      assert (s + t)[..|s + t| - 1] == s + t[..n];
      AddedConcat(s, t[..n], delim);
    }
  }

  lemma {:induction false} AddedWhole(s: seq<byte>, delim: byte)
    requires delim == 0 || 0 !in s
    ensures Added(s, delim) == s
  {
    if s != [] { AddedWhole(s[..|s| - 1], delim); }
  }

  /** bi_rdadd: the runs between NULs. */
  method Add(b0: seq<byte>, p0: seq<byte>, delim: byte) returns (b: seq<byte>)
    ensures b == b0 + Added(p0, delim)
  {
    b := b0;
    if delim == 0 {
      AddedWhole(p0, delim);
      return b + p0;
    }
    var p := p0;
    var z: nat := FindNul(p);
    while z < |p|
      invariant z <= |p| && 0 !in p[..z] && (z < |p| ==> p[z] == 0) && b + Added(p, delim) == b0 + Added(p0, delim)
      decreases |p|
    {
      PastNul(p, z, delim);
      b := b + p[..z];
      p := p[z + 1..];
      z := FindNul(p);
    }
    assert p[..z] == p;
    AddedWhole(p, delim);
    b := b + p;
  }

  lemma {:induction false} PastNul(p: seq<byte>, z: nat, delim: byte)
    requires z < |p| && 0 !in p[..z] && p[z] == 0 && delim != 0
    ensures Added(p, delim) == p[..z] + Added(p[z + 1..], delim)
  {
    hide Added;
    var t := p[z + 1..];
    assert p == p[..z] + ([0] + t);
    AddedConcat(p[..z], [0] + t, delim);
    AddedConcat([0], t, delim);
    AddedWhole(p[..z], delim);
    NulDropped(delim);
    assert [] + Added(t, delim) == Added(t, delim);
  }

  lemma {:induction false} NulDropped(delim: byte)
    requires delim != 0
    ensures Added([0], delim) == []
  {
    assert [0][..0] == [];
  }

  method FindNul(p: seq<byte>) returns (z: nat)
    ensures z <= |p| && 0 !in p[..z] && (z < |p| ==> p[z] == 0)
  {
    z := 0;
    while z < |p| && p[z] != 0
      invariant z <= |p| && 0 !in p[..z]
    {
      z := z + 1;
    }
  }

  lemma {:induction false} AddedNext(s: seq<byte>, i: nat, delim: byte)
    requires i < |s|
    ensures Added(s[..i + 1], delim) == Added(s[..i], delim) + (if s[i] != 0 || delim == 0 then [s[i]] else [])
  {
    assert s[..i + 1][..i] == s[..i];
  }

  /** What became of a block: the delimiter ended it, enough was taken, or it was used up. */
  datatype Scanned = Ended(i: nat) | Cut(i: nat) | All

  /** The loop over one block: its bytes are counted but not yet added. */
  method Scan(buf: seq<byte>, a: Ask, k0: Count, ghost want: Got, ghost out: seq<byte>, ghost n: nat, ghost rest: seq<byte>)
    returns (r: Scanned, k: Count)
    requires buf <= rest && Along(want, rest, a, k0, out, n)
    ensures r.Ended? ==> r.i < |buf| && want == Got(out + Added(buf[..r.i], a.delim), n + r.i + 1, true)
    ensures r.Cut? ==> 1 <= r.i <= |buf| && want == Got(out + Added(buf[..r.i], a.delim), n + r.i, true)
    ensures r.All? ==> Along(want, rest[|buf|..], a, k, out + Added(buf, a.delim), n + |buf|)
  {
    hide Along, Enough, Step, Added;
    k := k0;
    var i := 0;
    ScanStart(buf, out, a.delim, rest);
    while i < |buf|
      invariant 0 <= i <= |buf| && Along(want, rest[i..], a, k, out + Added(buf[..i], a.delim), n + i)
    {
      var c := buf[i];
      AlongNext(want, rest[i..], a, k, out + Added(buf[..i], a.delim), n + i);
      AddedNext(buf, i, a.delim);
      OutNext(out, Added(buf[..i], a.delim), c);
      assert rest[i..][0] == c && rest[i..][1..] == rest[i + 1..];
      if !a.exact && k.need == 0 && c == a.delim { return Ended(i), k; }
      k := Count1(a, k, c);
      if a.want > 0 && Kept(a, c) && Enough(k, a.want) { return Cut(i + 1), k; }
      NotWanted(k, a.want);
      i := i + 1;
    }
    assert buf[..i] == buf;
    return All, k;
  }

  lemma {:induction false} ScanStart(buf: seq<byte>, out: seq<byte>, delim: byte, rest: seq<byte>)
    ensures buf[..0] == [] && out + Added([], delim) == out && rest[0..] == rest
  {
  }

  lemma {:induction false} OutNext(out: seq<byte>, s: seq<byte>, c: byte)
    ensures out + (s + [c]) == out + s + [c] && out + (s + []) == out + s
  {
    assert s + [] == s;
  }

  lemma {:induction false} NotWanted(k: Count, want: nat)
    ensures want == 0 ==> !Enough(k, want)
  {
  }

  /** The block path: blocks of whatever size the reads return, and a seek back to just past what was taken. */
  method BlockRead(f: File, a: Ask, b: seq<byte>, sizes: nat -> nat) returns (out: seq<byte>, ok: bool)
    requires f.Valid()
    modifies f
    ensures f.Valid() && f.pos >= old(f.pos) && Got(out, f.pos - old(f.pos), ok) == Read(old(f.Rest()), a, b)
  {
    hide Take, Along, Enough, Kept, Count1, Added;
    out := b;
    var chars := 0;
    if a.want > 0 { chars := CountChars(b); }
    if a.want > 0 && chars >= a.want { return out, true; }
    var k := Count(chars, 0);
    ghost var want := Take(f.Rest(), a, k, out);
    AlongStart(f.Rest(), a, k, out);
    var turn := 0;
    while true
      invariant f.Valid() && f.pos >= old(f.pos) && turn >= 0 && Along(want, f.Rest(), a, k, out, f.pos - old(f.pos))
      decreases |f.data| - f.pos
    {
      ghost var rest := f.Rest();
      ghost var n := f.pos - old(f.pos);
      var buf := f.Fetch(IOCH, sizes(turn));
      turn := turn + 1;
      if buf == [] {
        AlongEnd(want, rest, a, k, out, n);
        return out, a.want > 0 && k.chars >= a.want;
      }
      assert buf <= rest && rest[|buf|..] == f.Rest();
      var r;
      r, k := Scan(buf, a, k, want, out, n, rest);
      match r
      case Ended(i) =>
        out := Add(out, buf[..i], a.delim);
        f.Back(|buf| - (i + 1));
        return out, true;
      case Cut(i) =>
        out := Add(out, buf[..i], a.delim);
        if i < |buf| { f.Back(|buf| - i); }
        return out, true;
      case All =>
        out := Add(out, buf, a.delim);
    }
  }

  /** The same file read both ways, whatever sizes the block reads return: the same bytes, the same offset after,
      the same answer. */
  method BothWays(data: seq<byte>, pos: nat, a: Ask, b: seq<byte>, sizes: nat -> nat)
    returns (out1: seq<byte>, ok1: bool, pos1: nat, out2: seq<byte>, ok2: bool, pos2: nat)
    requires pos <= |data|
    ensures out1 == out2 && ok1 == ok2 && pos1 == pos2
  {
    hide Read;
    var f := new File(data, pos);
    out1, ok1 := ByteRead(f, a, b);
    pos1 := f.pos;
    var g := new File(data, pos);
    out2, ok2 := BlockRead(g, a, b, sizes);
    pos2 := g.pos;
  }
}
