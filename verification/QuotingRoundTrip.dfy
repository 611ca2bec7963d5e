/** What the quoters write, the lexer reads back: one word, no expansion in it, whose text is the value. */
module QuotingRoundTrip {
  import opened Bits
  import opened CText
  import opened Quoting
  import opened Lexer

  // ---- what a word says ----

  /** The text of the parts of a word. */
  function Text(parts: seq<Part>): string {
    if parts == [] then ""
    else
      var x := parts[|parts| - 1];
      Text(parts[..|parts| - 1]) + (if x.Txt? then x.t else "")
  }

  predicate NoExp(parts: seq<Part>) {
    forall i :: 0 <= i < |parts| ==> parts[i].Txt?
  }

  /** What has been read so far, the part being read included. */
  function Said(l: Lx): string { Text(l.parts) + l.b }

  lemma {:induction false} FlushSays(l: Lx)
    ensures Said(Flush(l)) == Said(l) && Flush(l).b == "" && (NoExp(l.parts) ==> NoExp(Flush(l).parts))
    ensures Flush(l) == l.(parts := Flush(l).parts, b := "") && (l.b != "" ==> Flush(l).parts != []) && (l.parts != [] ==> Flush(l).parts != [])
  {
    if l.b != "" {
      var parts := l.parts + [Txt(l.cq, l.b)];
      assert parts[..|l.parts|] == l.parts;
      assert Text(parts) + "" == Text(parts);
    }
  }

  lemma {:induction false} PutSays(l: Lx, q: bool, c: char)
    ensures var r := Put(l, q, c);
            && Said(r) == Said(l) + [c] && (NoExp(l.parts) ==> NoExp(r.parts)) && r.b != ""
            && r == l.(parts := r.parts, b := r.b, cq := r.cq)
  {
    hide Flush;
    FlushSays(l);
    assert Text(l.parts) + (l.b + [c]) == Text(l.parts) + l.b + [c];
    assert "" + [c] == [c];
  }

  /** Two states that will read on alike and have said the same, one of them `v` more. */
  ghost predicate Reached(l: Lx, r: Lx, v: string, rest: string) {
    && Said(r) == Said(l) + v && (NoExp(l.parts) ==> NoExp(r.parts)) && r.p == rest
    && r.q == l.q && r.gd == l.gd && r.more == l.more && (r.seen || r.b != "" || v == "")
  }

  /** The character is read as it stands and goes on the word. */
  predicate Ordinary(c: char, d: char) {
    && c !in " \t\n'\"\\$`" && !Meta(c) && (d == '(' ==> c !in "?*+@!")
  }

  lemma {:induction false} OrdinaryLex(l: Lx, e: Around, c: char, q: string)
    requires l.p == [c] + q && !l.q && l.gd == 0 && Ordinary(c, Ch(q, 0))
    ensures Lex(l, e) == Lex(Put(l, false, c).(p := q), e)
  {
    hide Put, Escape;
    assert l.p[1..] == q && Ch(l.p, 1) == Ch(q, 0);
    PutKeeps(l, false, c);
  }

  lemma {:induction false} PutKeeps(l: Lx, q: bool, c: char)
    ensures Put(l, q, c).p == l.p
  {
  }

  lemma {:induction false} SlashLex(l: Lx, e: Around, c: char, q: string)
    requires l.p == ['\\', c] + q && !l.q && l.gd == 0 && c != '\n'
    ensures Lex(l, e) == Lex(Put(l, true, c).(p := q, seen := true), e)
  {
    hide Put, Escape;
    assert l.p[2..] == q;
    PutKeeps(l, true, c);
  }

  /** What may end a word: nothing more, a blank, a line break, or a separator that opens nothing. */
  predicate Stops(rest: string) { rest == "" || rest[0] in " \t\n;|&)" }

  lemma {:induction false} StopLex(l: Lx, e: Around)
    requires Stops(l.p) && !l.q && l.gd == 0
    ensures Lex(l, e) == l
  {
    hide Put, Escape;
  }

  // ---- single quotes ----

  /** Said so far is a quarter of the state that matters; the rest of a step's effect is spelled out. */
  ghost predicate Goes(l: Lx, e: Around, got: Lx, v: string, rest: string) {
    exists r: Lx :: Reached(l, r, v, rest) && r.seen && got == Lex(r, e)
  }

  lemma {:induction false} SingleReads(l: Lx, e: Around, v: string, rest: string)
    requires l.p == Sqb(v) + ("'" + rest) && !l.q && l.gd == 0 && l.seen
    ensures Goes(l, e, Single(l, e), v, rest)
    decreases |v|
  {
    hide Lex, Put, Single;
    if v == "" {
      assert l.p == "'" + rest && l.p[1..] == rest;
      SingleEnds(l, e);
      assert Reached(l, Lexer.Drop(l, 1), v, rest);
    } else if v[0] == '\'' {
      var q := "'" + (Sqb(v[1..]) + ("'" + rest));
      assert l.p == "'" + (['\\', '\''] + q);
      SingleEnds(l, e);
      var m := Lexer.Drop(l, 1);
      assert m.p == ['\\', '\''] + q;
      SlashLex(m, e, '\'', q);
      var n := Put(m, true, '\'').(p := q, seen := true);
      PutSays(m, true, '\'');
      QuoteOpens(n, e, Sqb(v[1..]) + ("'" + rest));
      var o := n.(p := Sqb(v[1..]) + ("'" + rest));
      SingleReads(o, e, v[1..], rest);
      GoesOn(l, o, e, Single(l, e), [v[0]], v[1..], rest);
      assert [v[0]] + v[1..] == v;
    } else {
      var q := Sqb(v[1..]) + ("'" + rest);
      assert l.p == [v[0]] + q && l.p[1..] == q;
      SingleTakes(l, e);
      var o := Put(l, true, v[0]).(p := q);
      PutSays(l, true, v[0]);
      PutKeeps(l, true, v[0]);
      SingleReads(o, e, v[1..], rest);
      GoesOn(l, o, e, Single(l, e), [v[0]], v[1..], rest);
      assert [v[0]] + v[1..] == v;
    }
  }

  lemma {:induction false} SingleEnds(l: Lx, e: Around)
    requires l.p != "" && l.p[0] == '\''
    ensures Single(l, e) == Lex(Lexer.Drop(l, 1), e)
  {
    hide Lex;
  }

  lemma {:induction false} SingleTakes(l: Lx, e: Around)
    requires l.p != "" && l.p[0] != '\''
    ensures Single(l, e) == Single(Put(l, true, l.p[0]).(p := l.p[1..]), e)
  {
    hide Lex, Put;
    PutKeeps(l, true, l.p[0]);
  }

  /** A quote opens again. */
  lemma {:induction false} QuoteOpens(l: Lx, e: Around, q: string)
    requires l.p == "'" + q && !l.q && l.gd == 0 && l.seen
    ensures Lex(l, e) == Single(l.(p := q), e)
  {
    hide Single, Put, Escape;
    assert l.p[1..] == q;
  }

  /** What is said after what was said. */
  lemma {:induction false} GoesOn(l: Lx, o: Lx, e: Around, got: Lx, a: string, b: string, rest: string)
    requires Said(o) == Said(l) + a && (NoExp(l.parts) ==> NoExp(o.parts)) && o.q == l.q && o.gd == l.gd && o.more == l.more
    requires Goes(o, e, got, b, rest)
    ensures Goes(l, e, got, a + b, rest)
  {
    hide Lex, Said, NoExp;
    var r: Lx :| Reached(o, r, b, rest) && r.seen && got == Lex(r, e);
    assert Said(l) + a + b == Said(l) + (a + b);
    assert Reached(l, r, a + b, rest);
  }

  /** A single-quoted value. */
  lemma {:induction false} SqReads(l: Lx, e: Around, v: string, rest: string)
    requires l.p == Sq(v) + rest && !l.q && l.gd == 0
    ensures Goes(l, e, Lex(l, e), v, rest)
  {
    hide Lex, Single, Sqb;
    var q := Sqb(v) + ("'" + rest);
    assert l.p == "'" + q && l.p[1..] == q;
    var o := l.(p := q, seen := true);
    OpenSingle(l, e, q);
    SingleReads(o, e, v, rest);
    assert Said(o) == Said(l) + "";
    GoesOn(l, o, e, Lex(l, e), "", v, rest);
    assert "" + v == v;
  }

  lemma {:induction false} OpenSingle(l: Lx, e: Around, q: string)
    requires l.p == "'" + q && !l.q && l.gd == 0
    ensures Lex(l, e) == Single(l.(p := q, seen := true), e)
  {
    hide Single, Put, Escape;
    assert l.p[1..] == q;
  }

  // ---- dollar quotes ----

  predicate NulFree(v: string) { forall i :: 0 <= i < |v| ==> '\0' < v[i] < 256 as char }

  lemma {:induction false} AnsiTakes(l: Lx, e: Around)
    requires l.p != "" && l.p[0] != '\'' && l.p[0] != '\\'
    ensures Lexer.Ansi(l, e) == Lexer.Ansi(Put(l, true, l.p[0]).(p := l.p[1..]), e)
  {
    hide Lex, Put;
    PutKeeps(l, true, l.p[0]);
  }

  lemma {:induction false} AnsiEscapes(l: Lx, e: Around, c: char, s: string, q: string)
    requires l.p == "\\" + s && s != "" && Lexer.Escape(s) == ([c], q)
    ensures Lexer.Ansi(l, e) == Lexer.Ansi(Put(l, true, c).(p := q), e)
  {
    hide Lex, Put, Lexer.Escape;
    assert l.p[1..] == s;
    assert PutAll(l, true, [c]) == Put(l, true, c) by { assert [c][1..] == ""; }
  }

  /** What follows the backslash is read as the one character that was escaped. */
  lemma {:induction false} EscapeBack(c: char, q: string)
    requires Ansi1(c)[0] == '\\' && '\0' < c < 256 as char
    ensures |Ansi1(c)| > 1 && Lexer.Escape(Ansi1(c)[1..] + q) == ([c], q)
  {
    var s := Ansi1(c)[1..] + q;
    if Control(c) && c != '\n' && c != '\t' && c != '\r' {
      OctalBack(c, q);
    } else {
      assert s[1..] == q;
    }
  }

  lemma {:induction false} OctalBack(c: char, q: string)
    requires Control(c) && c != '\n' && c != '\t' && c != '\r' && c != '\0'
    ensures Lexer.Escape(Ansi1(c)[1..] + q) == ([c], q)
  {
    hide Lexer.Digits;
    var n := c as nat;
    var a, b, d := Octal(n / 64), Octal(n / 8), Octal(n);
    assert Ansi1(c) == ['\\', a, b, d];
    var s := Ansi1(c)[1..] + q;
    assert s[0] == a && s[1..] == [b, d] + q;
    TwoDigits(b, d, q, n / 64);
    OctalSum(n);
  }

  lemma {:induction false} OctalSum(n: nat)
    requires n < 128
    ensures (n / 64 * 8 + n / 8 % 8) * 8 + n % 8 == n && n / 64 % 8 == n / 64
  {
  }

  lemma {:induction false} TwoDigits(b: char, d: char, q: string, acc: nat)
    requires '0' <= b <= '7' && '0' <= d <= '7'
    ensures Lexer.Digits([b, d] + q, 8, 2, acc) == ((acc * 8 + (b - '0') as nat) * 8 + (d - '0') as nat, q)
  {
    var s := [b, d] + q;
    assert s[1..] == [d] + q && s[1..][1..] == q;
    assert HexVal(b) == Some((b - '0') as nat) && HexVal(d) == Some((d - '0') as nat);
    assert Lexer.Digits(q, 8, 0, (acc * 8 + (b - '0') as nat) * 8 + (d - '0') as nat) == ((acc * 8 + (b - '0') as nat) * 8 + (d - '0') as nat, q);
  }

  lemma {:induction false} AnsiReads(l: Lx, e: Around, v: string, rest: string)
    requires l.p == Quoting.Ansi(v) + ("'" + rest) && !l.q && l.gd == 0 && l.seen && NulFree(v)
    ensures Goes(l, e, Lexer.Ansi(l, e), v, rest)
    decreases |v|
  {
    hide Lex, Put, Lexer.Ansi, Ansi1, Lexer.Escape;
    if v == "" {
      assert l.p == "'" + rest && l.p[1..] == rest;
      AnsiEnds(l, e);
      assert Reached(l, Lexer.Drop(l, 1), v, rest);
    } else {
      var c, q := v[0], Quoting.Ansi(v[1..]) + ("'" + rest);
      assert l.p == Ansi1(c) + q;
      Ansi1Shape(c);
      var o := Put(l, true, c).(p := q);
      if Ansi1(c)[0] == '\\' {
        var s := Ansi1(c)[1..] + q;
        EscapeBack(c, q);
        assert l.p == "\\" + s;
        AnsiEscapes(l, e, c, s, q);
      } else {
        assert l.p[1..] == q;
        AnsiTakes(l, e);
      }
      PutSays(l, true, c);
      PutKeeps(l, true, c);
      AnsiReads(o, e, v[1..], rest);
      GoesOn(l, o, e, Lexer.Ansi(l, e), [c], v[1..], rest);
      assert [c] + v[1..] == v;
    }
  }

  lemma {:induction false} Ansi1Shape(c: char)
    ensures Ansi1(c) != "" && (Ansi1(c)[0] != '\\' ==> Ansi1(c) == [c] && c != '\'' && c != '\\')
  {
  }

  lemma {:induction false} AnsiEnds(l: Lx, e: Around)
    requires l.p != "" && l.p[0] == '\''
    ensures Lexer.Ansi(l, e) == Lex(Lexer.Drop(l, 1), e)
  {
    hide Lex;
  }

  lemma {:induction false} DollarReads(l: Lx, e: Around, v: string, rest: string)
    requires l.p == "$'" + Quoting.Ansi(v) + "'" + rest && !l.q && l.gd == 0 && NulFree(v)
    ensures Goes(l, e, Lex(l, e), v, rest)
  {
    hide Lex, Lexer.Ansi, Quoting.Ansi;
    var q := Quoting.Ansi(v) + ("'" + rest);
    assert l.p == "$'" + q && l.p[2..] == q;
    var o := l.(p := q, seen := true);
    OpenAnsi(l, e, q);
    AnsiReads(o, e, v, rest);
    assert Said(o) == Said(l) + "";
    GoesOn(l, o, e, Lex(l, e), "", v, rest);
    assert "" + v == v;
  }

  lemma {:induction false} OpenAnsi(l: Lx, e: Around, q: string)
    requires l.p == "$'" + q && !l.q && l.gd == 0
    ensures Lex(l, e) == Lexer.Ansi(l.(p := q, seen := true), e)
  {
    hide Lexer.Ansi, Put, Lexer.Escape;
    assert l.p[2..] == q;
  }

  // ---- backslashes ----

  /** How much of `t` writes its first character: a backslash and the character, or the character bare. */
  function Width(t: string): nat { if t != "" && t[0] == '\\' then 2 else 1 }

  /** Some characters bare, the others after a backslash. */
  predicate Slashes(t: string, v: string)
    decreases |v|
  {
    if v == "" then t == ""
    else
      && v[0] != '\n' && |t| >= Width(t) && t[Width(t) - 1] == v[0] && (Width(t) == 1 ==> Ordinary(v[0], '\0'))
      && Slashes(t[Width(t)..], v[1..])
  }

  lemma {:induction false} SafeIs(c: char, first: bool)
    requires '\0' < c && Safe(c, first) && !Control(c)
    ensures Ordinary(c, '\0') && c != '\n'
  {
  }

  lemma {:induction false} SlashedIs(v: string, first: bool)
    requires NulFree(v) && !HasControl(v)
    ensures Slashes(Slashed(v, first), v)
    decreases |v|
  {
    hide Safe, Ordinary;
    if v != "" {
      var c, w := v[0], Slashed(v[1..], false);
      assert !Control(c);
      ControlRest(v);
      SlashedIs(v[1..], false);
      if Safe(c, first) {
        SafeIs(c, first);
        BareSlash(c);
        assert ([c] + w)[1..] == w;
      } else {
        assert (['\\', c] + w)[2..] == w;
      }
    }
  }

  lemma {:induction false} BareSlash(c: char)
    requires Ordinary(c, '\0')
    ensures c != '\\'
  {
  }

  lemma {:induction false} ControlRest(v: string)
    requires v != "" && NulFree(v) && !HasControl(v)
    ensures NulFree(v[1..]) && !HasControl(v[1..]) && v[0] != '\n'
  {
    assert !Control(v[0]);
    forall i | 0 <= i < |v[1..]| ensures !Control(v[1..][i]) { assert v[1..][i] == v[i + 1]; }
  }

  lemma {:induction false} BareIs(c: char)
    requires Bare(c)
    ensures Ordinary(c, '\0') && c != '\\'
  {
  }

  lemma {:induction false} EscapedIs(v: string)
    requires NulFree(v) && '\n' !in v
    ensures Slashes(Escaped(v), v)
    decreases |v|
  {
    hide Bare, Ordinary;
    if v != "" {
      var c, w := v[0], Escaped(v[1..]);
      assert c in v && forall x :: x in v[1..] ==> x in v;
      EscapedIs(v[1..]);
      if Bare(c) {
        BareIs(c);
        assert ([c] + w)[1..] == w;
      } else {
        assert (['\\', c] + w)[2..] == w;
      }
    }
  }

  /** What comes after a bare character never makes a pattern group of it. */
  lemma {:induction false} SlashesNext(t: string, v: string, rest: string)
    requires Slashes(t, v) && Stops(rest)
    ensures Ch(t + rest, 0) != '('
  {
    if v == "" { assert t + rest == rest; }
  }

  /** One character of such a word, bare or not. */
  lemma {:induction false} SlashOne(l: Lx, e: Around, t: string, v: string, rest: string) returns (o: Lx)
    requires Slashes(t, v) && v != "" && l.p == t + rest && !l.q && l.gd == 0 && Stops(rest)
    ensures Lex(l, e) == Lex(o, e) && o.p == t[Width(t)..] + rest && Slashes(t[Width(t)..], v[1..])
    ensures Said(o) == Said(l) + [v[0]] && (NoExp(l.parts) ==> NoExp(o.parts)) && o.b != "" && o.q == l.q && o.gd == l.gd && o.more == l.more
  {
    hide Lex, Put, Ordinary;
    var w := t[Width(t)..];
    var q := w + rest;
    SlashesNext(w, v[1..], rest);
    if Width(t) == 2 {
      assert l.p == ['\\', v[0]] + q;
      SlashLex(l, e, v[0], q);
      PutSays(l, true, v[0]);
      o := Put(l, true, v[0]).(p := q, seen := true);
    } else {
      assert l.p == [v[0]] + q;
      BareNext(v[0], Ch(q, 0));
      OrdinaryLex(l, e, v[0], q);
      PutSays(l, false, v[0]);
      o := Put(l, false, v[0]).(p := q);
    }
  }

  lemma {:induction false} BareNext(c: char, d: char)
    requires Ordinary(c, '\0') && d != '('
    ensures Ordinary(c, d)
  {
  }

  lemma {:induction false} SlashesRead(l: Lx, e: Around, t: string, v: string, rest: string)
    requires Slashes(t, v) && v != "" && l.p == t + rest && !l.q && l.gd == 0 && Stops(rest)
    ensures exists r: Lx :: Reached(l, r, v, rest) && r.b != "" && Lex(l, e) == r
    decreases |v|
  {
    hide Lex, Said, NoExp, Ordinary;
    var o := SlashOne(l, e, t, v, rest);
    if v[1..] == "" {
      assert o.p == rest;
      StopLex(o, e);
      assert [v[0]] == v;
      assert Reached(l, o, v, rest);
    } else {
      SlashesRead(o, e, t[Width(t)..], v[1..], rest);
      var r: Lx :| Reached(o, r, v[1..], rest) && r.b != "" && Lex(o, e) == r;
      assert Said(l) + [v[0]] + v[1..] == Said(l) + v by { assert [v[0]] + v[1..] == v; }
      assert Reached(l, r, v, rest);
    }
  }

  // ---- whole words ----

  /** One word, nothing in it an expansion, whose text is `v`; the text after it is left. */
  ghost predicate ReadsAs(p: string, e: Around, v: string, rest: string) {
    var (w, l) := Word(p, e);
    w.Some? && NoExp(w.value) && Text(w.value) == v && l.p == rest && !l.more
  }

  lemma {:induction false} WordOf(p: string, e: Around, v: string, rest: string, r: Lx)
    requires Lex(Lx(p, [], "", false, false, false, 0, false), e) == r
    requires Reached(Lx(p, [], "", false, false, false, 0, false), r, v, rest) && (r.seen || r.b != "")
    ensures ReadsAs(p, e, v, rest)
  {
    hide Lex;
    var l := Lx(p, [], "", false, false, false, 0, false);
    assert Said(l) == "" && "" + v == v;
    FlushSays(r);
    FlushText(r, v);
    assert Text([Txt(true, "")]) == "" by { assert [Txt(true, "")][..0] == []; }
  }

  lemma {:induction false} FlushText(r: Lx, v: string)
    requires Said(r) == v
    ensures Text(Flush(r).parts) == v
  {
    FlushSays(r);
    assert Text(Flush(r).parts) + "" == Text(Flush(r).parts);
  }

  lemma {:induction false} GoesWord(p: string, e: Around, v: string, rest: string)
    requires Goes(Lx(p, [], "", false, false, false, 0, false), e, Lex(Lx(p, [], "", false, false, false, 0, false), e), v, rest) && Stops(rest)
    ensures ReadsAs(p, e, v, rest)
  {
    hide Lex;
    var l := Lx(p, [], "", false, false, false, 0, false);
    var r: Lx :| Reached(l, r, v, rest) && r.seen && Lex(l, e) == Lex(r, e);
    StopLex(r, e);
    WordOf(p, e, v, rest, r);
  }

  /** Single quotes. */
  lemma {:induction false} SqBack(v: string, rest: string, e: Around)
    requires Stops(rest)
    ensures ReadsAs(Sq(v) + rest, e, v, rest)
  {
    hide Lex, Sqb;
    SqReads(Lx(Sq(v) + rest, [], "", false, false, false, 0, false), e, v, rest);
    GoesWord(Sq(v) + rest, e, v, rest);
  }

  lemma {:induction false} SlashesBack(t: string, v: string, rest: string, e: Around)
    requires Slashes(t, v) && v != "" && Stops(rest)
    ensures ReadsAs(t + rest, e, v, rest)
  {
    hide Lex;
    var l := Lx(t + rest, [], "", false, false, false, 0, false);
    SlashesRead(l, e, t, v, rest);
    var r: Lx :| Reached(l, r, v, rest) && r.b != "" && Lex(l, e) == r;
    WordOf(t + rest, e, v, rest, r);
  }

  /** xquote, with backslashes or without: single quotes, backslashes, or `$'...'` with its octal. */
  lemma {:induction false} XQuoteBack(v: string, bs: bool, rest: string, e: Around)
    requires NulFree(v) && Stops(rest)
    ensures ReadsAs(XQuote(v, bs) + rest, e, v, rest)
  {
    hide Lex, Sqb, HasControl, Quoting.Ansi, Slashed, ReadsAs;
    if HasControl(v) {
      var p := "$'" + Quoting.Ansi(v) + "'" + rest;
      assert XQuote(v, bs) + rest == p;
      DollarReads(Lx(p, [], "", false, false, false, 0, false), e, v, rest);
      GoesWord(p, e, v, rest);
    } else if bs && v != "" {
      SlashedIs(v, true);
      SlashesBack(Slashed(v, true), v, rest, e);
    } else {
      SqBack(v, rest, e);
    }
  }

  /** al_quote, without a mask. */
  lemma {:induction false} AQuoteBack(v: string, rest: string, e: Around)
    requires NulFree(v) && Stops(rest)
    ensures ReadsAs(AQuote(v) + rest, e, v, rest)
  {
    hide Lex, Sqb, Escaped, ReadsAs;
    if v == "" || '\n' in v {
      SqBack(v, rest, e);
    } else {
      EscapedIs(v);
      SlashesBack(Escaped(v), v, rest, e);
    }
  }
}
