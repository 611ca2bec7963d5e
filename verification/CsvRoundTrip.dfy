/** Records that were written are read back: fields with separators, quotes and line breaks in them,
    whichever line ending follows each record. */
module CsvRoundTrip {
  import opened Bits
  import opened Csv

  predicate Separator(sep: char) { sep != '"' && sep != '\r' && sep != '\n' && sep != '\0' }

  predicate LineEnd(e: string) { e == "\n" || e == "\r\n" }

  lemma {:induction false} SpecialTail(v: string, sep: char)
    requires v != "" && Special(v[1..], sep)
    ensures Special(v, sep)
  {
    var i :| 0 <= i < |v[1..]| && (v[1..][i] == sep || v[1..][i] in "\"\r\n");
    assert v[i + 1] == v[1..][i];
  }

  /** A field with nothing special in it is read as it stands. */
  lemma {:induction false} PlainRead(v: string, rest: string, sep: char, r: Rd)
    requires !r.q && !Special(v, sep)
    ensures Scan(v + rest, sep, r) == Scan(rest, sep, r.(f := r.f + v, any := r.any || v != ""))
  {
    if v == "" {
      assert v + rest == rest && r.f + v == r.f;
    } else {
      var c, w := v[0], v[1..];
      assert c != sep && c !in "\"\r\n";
      if Special(w, sep) { SpecialTail(v, sep); }
      assert (v + rest)[1..] == w + rest;
      PlainRead(w, rest, sep, Add(r.(any := true), c));
      assert r.f + [c] + w == r.f + v;
    }
  }

  /** Inside quotes everything is read as it stands, and doubled quotes as one, up to the closing quote. */
  lemma {:induction false} QuotedRead(v: string, rest: string, sep: char, r: Rd)
    requires r.q && (rest == "" || rest[0] != '"')
    ensures Scan(Doubled(v) + ("\"" + rest), sep, r) == Scan(rest, sep, r.(f := r.f + v, q := false, any := true))
  {
    var p := Doubled(v) + ("\"" + rest);
    if v == "" {
      assert p == "\"" + rest && p[1..] == rest && r.f + v == r.f;
    } else {
      var c, w := v[0], v[1..];
      var k := if c == '"' then 2 else 1;
      assert p[k..] == Doubled(w) + ("\"" + rest);
      QuotedRead(w, rest, sep, Add(r.(any := true), c));
      assert r.f + [c] + w == r.f + v;
    }
  }

  /** A field, up to the separator or line ending after it. */
  lemma {:induction false} FieldRead(v: string, rest: string, sep: char, r: Rd)
    requires !r.q && !r.was && r.f == "" && rest != "" && rest[0] != '"'
    ensures exists was: bool, any: bool ::
              Scan(Put(v, sep) + rest, sep, r) == Scan(rest, sep, r.(f := v, was := was, any := any))
  {
    hide Scan;
    if Special(v, sep) {
      var p := Put(v, sep) + rest;
      assert p == "\"" + (Doubled(v) + ("\"" + rest));
      OpenQuote(Doubled(v) + ("\"" + rest), sep, r);
      QuotedRead(v, rest, sep, r.(q := true, was := true, any := true));
      assert "" + v == v;
      assert Scan(p, sep, r) == Scan(rest, sep, r.(f := v, was := true, any := true));
    } else {
      PlainRead(v, rest, sep, r);
      assert "" + v == v;
      assert Scan(v + rest, sep, r) == Scan(rest, sep, r.(f := v, was := false, any := r.any || v != ""));
    }
  }

  lemma {:induction false} OpenQuote(rest: string, sep: char, r: Rd)
    requires !r.q && !r.was && r.f == ""
    ensures Scan("\"" + rest, sep, r) == Scan(rest, sep, r.(q := true, was := true, any := true))
  {
    assert ("\"" + rest)[1..] == rest;
  }

  lemma {:induction false} SepRead(rest: string, sep: char, r: Rd)
    requires !r.q && Separator(sep)
    ensures Scan([sep] + rest, sep, r) == Scan(rest, sep, r.(fs := r.fs + [r.f], f := "", was := false, any := true))
  {
    assert ([sep] + rest)[1..] == rest;
  }

  lemma {:induction false} EndRead(e: string, rest: string, sep: char, r: Rd)
    requires !r.q && Separator(sep) && LineEnd(e)
    ensures Scan(e + rest, sep, r) == (r.(any := true), rest)
  {
    var p := e + rest;
    if e == "\n" { assert p[1..] == rest; } else { assert p[0] == '\r' && p[1] == '\n' && p[2..] == rest; }
  }

  /** A line, up to and past its ending. */
  lemma {:induction false} LineRead(fields: seq<string>, e: string, rest: string, sep: char, r: Rd)
    requires fields != [] && !r.q && !r.was && r.f == "" && Separator(sep) && LineEnd(e)
    ensures var (s, left) := Scan(Line(fields, sep) + (e + rest), sep, r);
            left == rest && s.any && s.fs + [s.f] == r.fs + fields
    decreases |fields|
  {
    hide Scan, Put;
    var v := fields[0];
    if |fields| == 1 {
      FieldRead(v, e + rest, sep, r);
      var was: bool, any: bool :| Scan(Put(v, sep) + (e + rest), sep, r) == Scan(e + rest, sep, r.(f := v, was := was, any := any));
      EndRead(e, rest, sep, r.(f := v, was := was, any := any));
      assert [v] == fields;
    } else {
      var more := Line(fields[1..], sep) + (e + rest);
      assert Line(fields, sep) + (e + rest) == Put(v, sep) + ([sep] + more);
      FieldRead(v, [sep] + more, sep, r);
      var was: bool, any: bool :| Scan(Put(v, sep) + ([sep] + more), sep, r) == Scan([sep] + more, sep, r.(f := v, was := was, any := any));
      var r1 := r.(f := v, was := was, any := any);
      SepRead(more, sep, r1);
      LineRead(fields[1..], e, rest, sep, r1.(fs := r1.fs + [v], f := "", was := false, any := true));
      assert r.fs + [v] + fields[1..] == r.fs + fields;
    }
  }

  /** Records, each with its own line ending. */
  function Text(recs: seq<seq<string>>, ends: seq<string>, sep: char): string
    requires |recs| == |ends|
  {
    if recs == [] then "" else Line(recs[0], sep) + (ends[0] + Text(recs[1..], ends[1..], sep))
  }

  /** One record is read back, and the text after it is left. */
  lemma {:induction false} RecordRead(fields: seq<string>, e: string, rest: string, sep: char)
    requires fields != [] && Separator(sep) && LineEnd(e)
    ensures Record(Line(fields, sep) + (e + rest), sep) == Some((fields, rest))
  {
    hide Scan;
    LineRead(fields, e, rest, sep, START);
    assert [] + fields == fields;
  }

  /** csv_line, record after record, each with the ending it is given. */
  method WriteAll(recs: seq<seq<string>>, ends: seq<string>, sep: char) returns (text: string)
    requires |recs| == |ends|
    ensures text == Text(recs, ends, sep)
  {
    hide Scan, Line, LineEnd, Separator;
    text := "";
    var i := |recs|;
    while i > 0
      invariant 0 <= i <= |recs| && text == Text(recs[i..], ends[i..], sep)
    {
      i := i - 1;
      var line := WriteLine(recs[i], sep);
      assert recs[i..][1..] == recs[i + 1..] && ends[i..][1..] == ends[i + 1..];
      text := line + (ends[i] + text);
    }
    assert recs[0..] == recs && ends[0..] == ends;
  }

  /** csv_rec until it says there is nothing more. */
  method ReadAll(r: Reader, ghost recs: seq<seq<string>>, ghost ends: seq<string>) returns (got: seq<seq<string>>)
    requires r.Valid() && !r.bom && |recs| == |ends| && Separator(r.sep)
    requires (forall i :: 0 <= i < |ends| ==> LineEnd(ends[i])) && forall i :: 0 <= i < |recs| ==> recs[i] != []
    requires r.Rest() == Text(recs, ends, r.sep)
    modifies r
    ensures got == recs
  {
    hide Scan, Line, Record, LineEnd, Separator;
    got := [];
    ghost var left, with := recs, ends;
    EndOfText(r.sep);
    while true
      invariant r.Valid() && !r.bom && |left| == |with| && got + left == recs
      invariant (forall i :: 0 <= i < |with| ==> LineEnd(with[i])) && forall i :: 0 <= i < |left| ==> left[i] != []
      invariant r.Rest() == Text(left, with, r.sep)
      decreases |left|
    {
      if left != [] {
        RecordRead(left[0], with[0], Text(left[1..], with[1..], r.sep), r.sep);
      }
      var fs := r.Rec();
      if fs.None? { break; }
      got := got + [fs.value];
      left, with := left[1..], with[1..];
    }
  }

  /** Writing records and reading until there are no more gives the same records. */
  method ThereAndBack(recs: seq<seq<string>>, ends: seq<string>, sep: char) returns (got: seq<seq<string>>)
    requires |recs| == |ends| && Separator(sep) && (forall i :: 0 <= i < |ends| ==> LineEnd(ends[i]))
    requires forall i :: 0 <= i < |recs| ==> recs[i] != []
    ensures got == recs
  {
    var text := WriteAll(recs, ends, sep);
    var r := new Reader(text, sep, false);
    got := ReadAll(r, recs, ends);
  }

  lemma {:induction false} EndOfText(sep: char)
    ensures Record("", sep) == None
  {
  }

  /** A field is written as it stands exactly when it holds neither the separator, a quote nor a line break. */
  lemma {:induction false} PutPlain(v: string, sep: char)
    ensures Put(v, sep) == v <==> forall i :: 0 <= i < |v| ==> v[i] != sep && v[i] != '"' && v[i] != '\r' && v[i] != '\n'
  {
    if Special(v, sep) { DoubledLong(v); }
  }

  lemma {:induction false} DoubledLong(v: string)
    ensures |Doubled(v)| >= |v|
  {
    if v != "" { DoubledLong(v[1..]); }
  }

  // ---- fields that were never quoted ----

  /** A field without quotes around it: it does not begin with one, but may hold them. */
  predicate Bare(v: string, sep: char) {
    (v != "" ==> v[0] != '"') && forall i :: 0 <= i < |v| ==> v[i] != sep && v[i] != '\r' && v[i] != '\n'
  }

  lemma {:induction false} BareRest(v: string, rest: string, sep: char, r: Rd)
    requires !r.q && r.f != "" && forall i :: 0 <= i < |v| ==> v[i] != sep && v[i] != '\r' && v[i] != '\n'
    ensures Scan(v + rest, sep, r) == Scan(rest, sep, r.(f := r.f + v, any := r.any || v != ""))
  {
    if v == "" {
      assert v + rest == rest && r.f + v == r.f;
    } else {
      assert (v + rest)[1..] == v[1..] + rest;
      BareRest(v[1..], rest, sep, Add(r.(any := true), v[0]));
      assert r.f + [v[0]] + v[1..] == r.f + v;
    }
  }

  lemma {:induction false} BareRead(v: string, rest: string, sep: char, r: Rd)
    requires Bare(v, sep) && !r.q && !r.was && r.f == ""
    ensures Scan(v + rest, sep, r) == Scan(rest, sep, r.(f := v, any := r.any || v != ""))
  {
    if v == "" {
      assert v + rest == rest;
    } else {
      assert (v + rest)[1..] == v[1..] + rest;
      assert "" + [v[0]] == [v[0]] && [v[0]] + v[1..] == v;
      BareRest(v[1..], rest, sep, Add(r.(any := true), v[0]));
    }
  }

  /** The fields as they stand, with separators between them. */
  function BareLine(fields: seq<string>, sep: char): string
    requires fields != []
  {
    if |fields| == 1 then fields[0] else fields[0] + ([sep] + BareLine(fields[1..], sep))
  }

  lemma {:induction false} BareLineRead(fields: seq<string>, e: string, rest: string, sep: char, r: Rd)
    requires fields != [] && !r.q && !r.was && r.f == "" && Separator(sep) && LineEnd(e)
    requires forall i :: 0 <= i < |fields| ==> Bare(fields[i], sep)
    ensures var (s, left) := Scan(BareLine(fields, sep) + (e + rest), sep, r);
            left == rest && s.any && s.fs + [s.f] == r.fs + fields
    decreases |fields|
  {
    hide Scan, Bare;
    var v := fields[0];
    if |fields| == 1 {
      BareRead(v, e + rest, sep, r);
      EndRead(e, rest, sep, r.(f := v, any := r.any || v != ""));
      assert [v] == fields;
    } else {
      var more := BareLine(fields[1..], sep) + (e + rest);
      assert BareLine(fields, sep) + (e + rest) == v + ([sep] + more);
      BareRead(v, [sep] + more, sep, r);
      var r1 := r.(f := v, any := r.any || v != "");
      SepRead(more, sep, r1);
      BareLineRead(fields[1..], e, rest, sep, r1.(fs := r1.fs + [v], f := "", was := false, any := true));
      assert r.fs + [v] + fields[1..] == r.fs + fields;
    }
  }

  /** A line of such fields is one record, quotes inside a field standing for themselves. */
  lemma {:induction false} BareRecordRead(fields: seq<string>, e: string, rest: string, sep: char)
    requires fields != [] && Separator(sep) && LineEnd(e) && forall i :: 0 <= i < |fields| ==> Bare(fields[i], sep)
    ensures Record(BareLine(fields, sep) + (e + rest), sep) == Some((fields, rest))
  {
    hide Scan, Bare;
    BareLineRead(fields, e, rest, sep, START);
    assert [] + fields == fields;
  }
}
