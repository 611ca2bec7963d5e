/** The shell's ways of quoting a value so that it reads back as itself: s_sq, xquote and al_quote. */
module Quoting {
  import opened Bits

  predicate AlNum(c: char) { '0' <= c <= '9' || 'a' <= c <= 'z' || 'A' <= c <= 'Z' }

  // ---- single quotes ----

  /** The inside of a single-quoted word: a quote closes it, is escaped, and opens it again. */
  function Sqb(v: string): string {
    if v == "" then "" else (if v[0] == '\'' then "'\\''" else [v[0]]) + Sqb(v[1..])
  }

  function Sq(v: string): string { "'" + Sqb(v) + "'" }

  lemma {:induction false} SqbPlain(a: string, w: string)
    requires '\'' !in a
    ensures Sqb(a + w) == a + Sqb(w)
  {
    if a == "" {
      assert a + w == w;
    } else {
      assert (a + w)[1..] == a[1..] + w;
      SqbPlain(a[1..], w);
      assert a == [a[0]] + a[1..];
    }
  }

  /** memchr: the first quote, or the end. */
  method FindQuote(p: string) returns (q: nat)
    ensures q <= |p| && '\'' !in p[..q] && (q < |p| ==> p[q] == '\'')
  {
    q := 0;
    while q < |p| && p[q] != '\''
      invariant q <= |p| && '\'' !in p[..q]
    {
      q := q + 1;
    }
  }

  /** s_sqb: what comes before each quote is copied whole. */
  method PutInside(o0: string, v: string) returns (o: string)
    ensures o == o0 + Sqb(v)
  {
    o := o0;
    var p := v;
    var q: nat := FindQuote(p);
    while q < |p|
      invariant q <= |p| && '\'' !in p[..q] && (q < |p| ==> p[q] == '\'') && o + Sqb(p) == o0 + Sqb(v)
      decreases |p|
    {
      CutAtQuote(o, p, q);
      o := o + p[..q];
      o := o + "'\\''";
      p := p[q + 1..];
      q := FindQuote(p);
    }
    SqbPlain(p, "");
    assert p + "" == p && p[..q] == p;
    o := o + p;
  }

  lemma {:induction false} CutAtQuote(o: string, p: string, q: nat)
    requires q < |p| && '\'' !in p[..q] && p[q] == '\''
    ensures o + Sqb(p) == o + p[..q] + "'\\''" + Sqb(p[q + 1..])
  {
    assert p == p[..q] + p[q..] && p[q..][1..] == p[q + 1..];
    SqbPlain(p[..q], p[q..]);
  }

  /** s_sq. */
  method PutSq(o0: string, v: string) returns (o: string)
    ensures o == o0 + Sq(v)
  {
    hide Sqb;
    o := PutInside(o0 + "'", v);
    o := o + "'";
    assert o == o0 + ("'" + Sqb(v) + "'");
  }

  // ---- xquote ----

  /** A byte that needs no backslash. */
  predicate Safe(c: char, first: bool) {
    c >= 0x80 as char || AlNum(c) || c in "_./-:=@+%" || (!first && (c == '~' || c == '#'))
  }

  predicate Control(c: char) { c < 0x20 as char || c == 0x7f as char }

  predicate HasControl(v: string) { exists i :: 0 <= i < |v| && Control(v[i]) }

  function Slashed(v: string, first: bool): string {
    if v == "" then "" else (if Safe(v[0], first) then [v[0]] else ['\\', v[0]]) + Slashed(v[1..], false)
  }

  function Octal(n: nat): char { (n % 8) as char + '0' }

  /** One byte between `$'` and `'`. */
  function Ansi1(c: char): string {
    if c == '\n' then "\\n"
    else if c == '\t' then "\\t"
    else if c == '\r' then "\\r"
    else if c == '\\' || c == '\'' then ['\\', c]
    else if Control(c) then ['\\', Octal(c as nat / 64), Octal(c as nat / 8), Octal(c as nat)]
    else [c]
  }

  function Ansi(v: string): string {
    if v == "" then "" else Ansi1(v[0]) + Ansi(v[1..])
  }

  function XQuote(v: string, bs: bool): string {
    if HasControl(v) then "$'" + Ansi(v) + "'"
    else if bs && v != "" then Slashed(v, true)
    else Sq(v)
  }

  method FindControl(v: string) returns (ctl: bool)
    ensures ctl == HasControl(v)
  {
    ctl := false;
    var i := 0;
    while i < |v|
      invariant 0 <= i <= |v| && ctl == exists k :: 0 <= k < i && Control(v[k])
    {
      if Control(v[i]) { ctl := true; }
      i := i + 1;
    }
  }

  /** xquote. */
  method Quote(v: string, bs: bool) returns (o: string)
    ensures o == XQuote(v, bs)
  {
    hide Sqb, HasControl, Ansi, Slashed;
    var ctl := FindControl(v);
    if !ctl && bs && v != "" {
      o := PutSlashed("", v);
      assert "" + Slashed(v, true) == Slashed(v, true);
    } else if !ctl {
      o := PutSq("", v);
      assert "" + Sq(v) == Sq(v);
    } else {
      o := PutAnsi("$'", v);
      o := o + "'";
    }
  }

  method PutSlashed(o0: string, v: string) returns (o: string)
    ensures o == o0 + Slashed(v, true)
  {
    o := o0;
    var i := 0;
    assert v[0..] == v;
    while i < |v|
      invariant 0 <= i <= |v| && o + Slashed(v[i..], i == 0) == o0 + Slashed(v, true)
    {
      assert v[i..][1..] == v[i + 1..];
      if !Safe(v[i], i == 0) { o := o + "\\"; }
      o := o + [v[i]];
      i := i + 1;
    }
    assert v[i..] == "";
  }

  method PutAnsi(o0: string, v: string) returns (o: string)
    ensures o == o0 + Ansi(v)
  {
    hide Ansi1;
    o := o0;
    var i := 0;
    assert v[0..] == v;
    while i < |v|
      invariant 0 <= i <= |v| && o + Ansi(v[i..]) == o0 + Ansi(v)
    {
      assert v[i..][1..] == v[i + 1..];
      AnsiNext(o, v[i..]);
      o := o + Ansi1(v[i]);
      i := i + 1;
    }
    assert v[i..] == "";
  }

  lemma {:induction false} AnsiNext(o: string, v: string)
    requires v != ""
    ensures o + Ansi(v) == o + Ansi1(v[0]) + Ansi(v[1..])
  {
    hide Ansi1;
  }

  // ---- al_quote ----

  predicate Bare(c: char) { AlNum(c) || c in "_+-%^=./:,@" }

  function Escaped(v: string): string {
    if v == "" then "" else (if Bare(v[0]) then [v[0]] else ['\\', v[0]]) + Escaped(v[1..])
  }

  function AQuote(v: string): string {
    if v == "" || '\n' in v then Sq(v) else Escaped(v)
  }

  /** al_quote, for an argument with no mask. */
  method PutArgument(o0: string, v: string) returns (o: string)
    ensures o == o0 + AQuote(v)
  {
    hide Sqb;
    if v == "" || '\n' in v {
      o := PutSq(o0, v);
      return;
    }
    o := o0;
    var i := 0;
    assert v[0..] == v;
    while i < |v|
      invariant 0 <= i <= |v| && o + Escaped(v[i..]) == o0 + Escaped(v)
    {
      assert v[i..][1..] == v[i + 1..];
      if !Bare(v[i]) { o := o + "\\"; }
      o := o + [v[i]];
      i := i + 1;
    }
    assert v[i..] == "";
  }
}
