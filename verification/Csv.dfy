/** mods/csv.c: records written with quotes where they are needed (csv_put, csv_line), and read back
    a byte at a time (csv_rec). */
module Csv {
  import opened Bits

  // ---- writing ----

  /** A field holds something that has to be quoted. */
  predicate Special(v: string, sep: char) {
    exists i :: 0 <= i < |v| && (v[i] == sep || v[i] in "\"\r\n")
  }

  function Doubled(v: string): string {
    if v == "" then "" else (if v[0] == '"' then "\"\"" else [v[0]]) + Doubled(v[1..])
  }

  function Put(v: string, sep: char): string {
    if Special(v, sep) then "\"" + Doubled(v) + "\"" else v
  }

  function Line(fields: seq<string>, sep: char): string {
    if fields == [] then ""
    else if |fields| == 1 then Put(fields[0], sep)
    else Put(fields[0], sep) + ([sep] + Line(fields[1..], sep))
  }

  method IsSpecial(v: string, sep: char) returns (s: bool)
    ensures s == Special(v, sep)
  {
    var i := 0;
    while i < |v|
      invariant 0 <= i <= |v| && forall j :: 0 <= j < i ==> v[j] != sep && v[j] !in "\"\r\n"
    {
      if v[i] == sep || v[i] in "\"\r\n" { return true; }
      i := i + 1;
    }
    return false;
  }

  /** csv_put. */
  method PutField(o0: string, v: string, sep: char) returns (o: string)
    ensures o == o0 + Put(v, sep)
  {
    var s := IsSpecial(v, sep);
    if !s { return o0 + v; }
    o := o0 + "\"";
    var p := v;
    while p != ""
      invariant o + Doubled(p) == o0 + "\"" + Doubled(v)
      decreases |p|
    {
      if p[0] == '"' { o := o + "\""; }
      o := o + [p[0]];
      p := p[1..];
    }
    assert Doubled("") == "" && o == o0 + "\"" + Doubled(v);
    o := o + "\"";
    assert o == o0 + ("\"" + Doubled(v) + "\"");
  }

  lemma {:induction false} LineSnoc(fields: seq<string>, v: string, sep: char)
    requires fields != []
    ensures Line(fields + [v], sep) == Line(fields, sep) + ([sep] + Put(v, sep))
  {
    hide Put;
    if |fields| > 1 {
      assert (fields + [v])[1..] == fields[1..] + [v];
      LineSnoc(fields[1..], v, sep);
    } else {
      assert (fields + [v])[1..] == [v];
    }
  }

  /** csv_line. */
  method WriteLine(fields: seq<string>, sep: char) returns (o: string)
    ensures o == Line(fields, sep)
  {
    hide Put;
    o := "";
    var first := true;
    var i := 0;
    while i < |fields|
      invariant 0 <= i <= |fields| && o == Line(fields[..i], sep) && first == (i == 0)
    {
      assert fields[..i + 1] == fields[..i] + [fields[i]];
      if !first {
        LineSnoc(fields[..i], fields[i], sep);
        o := o + [sep];
      }
      first := false;
      o := PutField(o, fields[i], sep);
      i := i + 1;
    }
    assert fields[..i] == fields;
  }

  // ---- reading ----

  /** Fields read so far, the field being read, whether inside quotes, whether it was quoted, whether anything was read. */
  datatype Rd = Rd(fs: seq<string>, f: string, q: bool, was: bool, any: bool)

  function Add(r: Rd, c: char): Rd { r.(f := r.f + [c]) }

  /** csv_rec's loop on the text still to be read: what it has read, and what is left. */
  function Scan(p: string, sep: char, r0: Rd): (s: (Rd, string))
    ensures |s.1| <= |p|
    decreases |p|
  {
    if p == "" then (r0, p)
    else
      var c, r := p[0], r0.(any := true);
      if r.q then
        if c == '"' then
          if |p| > 1 && p[1] == '"' then Scan(p[2..], sep, Add(r, '"')) else Scan(p[1..], sep, r.(q := false))
        else Scan(p[1..], sep, Add(r, c))
      else if c == '"' && r.f == "" && !r.was then Scan(p[1..], sep, r.(q := true, was := true))
      else if c == sep then Scan(p[1..], sep, r.(fs := r.fs + [r.f], f := "", was := false))
      else if c == '\r' then
        if |p| > 1 && p[1] == '\n' then (r, p[2..]) else Scan(p[1..], sep, Add(r, c))
      else if c == '\n' then (r, p[1..])
      else Scan(p[1..], sep, Add(r, c))
  }

  const START: Rd := Rd([], "", false, false, false)

  /** One record, and the text after it; None at the end of the text. */
  function Record(p: string, sep: char): Option<(seq<string>, string)> {
    var (r, rest) := Scan(p, sep, START);
    if r.any then Some((r.fs + [r.f], rest)) else None
  }

  /** A reader's byte-order mark, in the bytes of UTF-8. */
  function PastMark(p: string): string {
    if |p| >= 3 && p[0] == 0xef as char && p[1] == 0xbb as char && p[2] == 0xbf as char then p[3..] else p
  }

  predicate MarkStands(t: string, i: nat) {
    i + 3 <= |t| && t[i] == 0xef as char && t[i + 1] == 0xbb as char && t[i + 2] == 0xbf as char
  }

  lemma {:induction false} MarkAt(t: string, i: nat)
    requires i <= |t|
    ensures PastMark(t[i..]) == if MarkStands(t, i) then t[i + 3..] else t[i..]
  {
  }

  class Reader {
    const t: string
    const sep: char
    var ti: nat
    var bom: bool

    constructor (t: string, sep: char, bom: bool)
      ensures Valid() && this.t == t && this.sep == sep && this.bom == bom && Rest() == t
    {
      this.t, this.sep, this.bom, ti := t, sep, bom, 0;
    }

    ghost predicate Valid()
      reads this
    {
      ti <= |t|
    }

    /** The text still to be read. */
    ghost function Rest(): string
      requires Valid()
      reads this
    {
      t[ti..]
    }

    /** csv_get: the next byte, if there is one. */
    method Get() returns (c: Option<char>)
      requires Valid()
      modifies this`ti
      ensures Valid() && if old(Rest()) == "" then c == None && Rest() == "" else c == Some(old(Rest())[0]) && Rest() == old(Rest())[1..]
      ensures if old(ti) < |t| then ti == old(ti) + 1 && c == Some(t[old(ti)]) else ti == old(ti) && c == None
    {
      if ti >= |t| { return None; }
      c := Some(t[ti]);
      ti := ti + 1;
    }

    /** csv_unget: a byte just read is put back. */
    method Unget(c: Option<char>)
      requires Valid() && (c.Some? ==> ti > 0 && t[ti - 1] == c.value)
      modifies this`ti
      ensures Valid() && Rest() == if c.Some? then [c.value] + old(Rest()) else old(Rest())
      ensures ti == if c.Some? then old(ti) - 1 else old(ti)
    {
      if c.None? { return; }
      if ti > 0 { ti := ti - 1; }
    }

    /** A byte-order mark at the very start is passed over, if that is asked for. */
    method SkipMark()
      requires Valid()
      modifies this
      ensures Valid() && !bom && Rest() == if old(bom) then PastMark(old(Rest())) else old(Rest())
    {
      if !bom { return; }
      bom := false;
      MarkAt(t, ti);
      TakeMark();
    }

    method TakeMark()
      requires Valid()
      modifies this`ti
      ensures Valid() && ti == if MarkStands(t, old(ti)) then old(ti) + 3 else old(ti)
    {
      hide Rest;
      var c := Get();
      if c == Some(0xef as char) {
        var c2 := Get();
        var c3 := Get();
        if !(c2 == Some(0xbb as char) && c3 == Some(0xbf as char)) {
          Unget(c3);
          Unget(c2);
          Unget(c);
        }
      } else {
        Unget(c);
      }
    }

    /** After a quote inside quotes: another one makes a quote, anything else ends them. */
    method Quote(r: Rd) returns (r': Rd)
      requires Valid()
      modifies this`ti
      ensures Valid()
      ensures if old(Rest()) != "" && old(Rest())[0] == '"' then r' == Add(r, '"') && Rest() == old(Rest())[1..]
              else r' == r.(q := false) && Rest() == old(Rest())
    {
      var n := Get();
      if n == Some('"') { return Add(r, '"'); }
      Unget(n);
      return r.(q := false);
    }

    /** After a carriage return: a line feed ends the record, anything else does not. */
    method Ended() returns (over: bool)
      requires Valid()
      modifies this`ti
      ensures Valid() && over == (old(Rest()) != "" && old(Rest())[0] == '\n')
      ensures Rest() == if over then old(Rest())[1..] else old(Rest())
    {
      var n := Get();
      if n == Some('\n') { return true; }
      Unget(n);
      return false;
    }

    /** csv_rec. */
    method Rec() returns (fs: Option<seq<string>>)
      requires Valid()
      modifies this
      ensures Valid() && !bom
      ensures var p := if old(bom) then PastMark(old(Rest())) else old(Rest());
              match Record(p, sep) case None => fs == None && Rest() == "" case Some((want, rest)) => fs == Some(want) && Rest() == rest
    {
      SkipMark();
      ghost var p := Rest();
      var r := START;
      while true
        invariant Valid() && !bom && Scan(Rest(), sep, r) == Scan(p, sep, START) && (!r.any ==> r == START)
        decreases |Rest()|
      {
        ghost var was := Rest();
        var c := Get();
        if c.None? { break; }
        r := r.(any := true);
        if r.q {
          if c == Some('"') { r := Quote(r); } else { r := Add(r, c.value); }
        } else if c == Some('"') && r.f == "" && !r.was {
          r := r.(q := true, was := true);
        } else if c == Some(sep) {
          r := r.(fs := r.fs + [r.f], f := "", was := false);
        } else if c == Some('\r') {
          var over := Ended();
          if over {
            assert was[2..] == Rest();
            break;
          }
          r := Add(r, '\r');
        } else if c == Some('\n') {
          break;
        } else {
          r := Add(r, c.value);
        }
      }
      if !r.any { return None; }
      return Some(r.fs + [r.f]);
    }
  }
}
