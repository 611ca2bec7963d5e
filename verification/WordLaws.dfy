/** Words as they are written: text in double quotes, where a bare word ends, and the escapes between `$'` and `'`,
    each said of the characters themselves. */
module WordLaws {
  import opened Bits
  import opened CText
  import opened Lexer
  import opened QuotingRoundTrip

  // ---- double quotes ----

  /** What may stand between double quotes: a character, or one behind a backslash. */
  datatype Piece = Bare(c: char) | Slash(c: char)

  predicate Proper(x: Piece) {
    x.Bare? ==> x.c != '"' && x.c != '\\' && x.c != '$' && x.c != '`'
  }

  function Written(x: Piece): string {
    match x
    case Bare(c) => [c]
    case Slash(c) => ['\\', c]
  }

  /** A backslash goes before a quote, a backslash, a dollar and a backquote, and takes a line feed with it;
      before anything else it stays. */
  function Meant(x: Piece): string {
    match x
    case Bare(c) => [c]
    case Slash(c) =>
      if c == '"' || c == '\\' || c == '$' || c == '`' then [c] else if c == '\n' then "" else ['\\', c]
  }

  function WrittenAll(xs: seq<Piece>): string {
    if xs == [] then "" else Written(xs[0]) + WrittenAll(xs[1..])
  }

  function MeantAll(xs: seq<Piece>): string {
    if xs == [] then "" else Meant(xs[0]) + MeantAll(xs[1..])
  }

  /** More quoted text in the part being read. */
  function Longer(l: Lx, s: string, p: string): Lx {
    if s == "" then l.(p := p) else l.(p := p, b := l.b + s, cq := true)
  }

  /** The part being read is quoted, or has not begun. */
  predicate Inside(l: Lx) { l.q && l.seen && (l.b == "" || l.cq) }

  lemma {:induction false} PutLonger(l: Lx, c: char)
    requires Inside(l)
    ensures Put(l, true, c) == Longer(l, [c], l.p)
  {
  }

  lemma {:induction false} BareReads(l: Lx, e: Around, c: char, rest: string)
    requires Inside(l) && Proper(Bare(c)) && l.p == [c] + rest
    ensures Lex(l, e) == Lex(Longer(l, [c], rest), e)
  {
    hide Put, Escape;
    PutLonger(l, c);
    assert l.p[1..] == rest;
  }

  lemma {:induction false} SlashReads(l: Lx, e: Around, c: char, rest: string)
    requires Inside(l) && l.p == ['\\', c] + rest
    ensures Lex(l, e) == Lex(Longer(l, Meant(Slash(c)), rest), e)
  {
    hide Put, Escape;
    assert l.p[2..] == rest;
    PutLonger(l, c);
    PutLonger(l, '\\');
    var m := Longer(l, "\\", l.p);
    PutLonger(m, c);
    assert l.b + "\\" + [c] == l.b + ['\\', c];
  }

  lemma {:induction false} QuotedReads(l: Lx, e: Around, xs: seq<Piece>, rest: string)
    requires Inside(l) && (forall i :: 0 <= i < |xs| ==> Proper(xs[i])) && l.p == WrittenAll(xs) + rest
    ensures Lex(l, e) == Lex(Longer(l, MeantAll(xs), rest), e)
    decreases |xs|
  {
    hide Lex, Proper, Meant;
    if xs == [] {
      assert l.p == rest;
    } else {
      var x, more := xs[0], WrittenAll(xs[1..]) + rest;
      assert l.p == Written(x) + more;
      if x.Bare? {
        BareReads(l, e, x.c, more);
        assert Meant(x) == [x.c] by { BareMeant(x); }
      } else {
        SlashReads(l, e, x.c, more);
      }
      var m := Longer(l, Meant(x), more);
      QuotedReads(m, e, xs[1..], rest);
      LongerTwice(l, Meant(x), more, MeantAll(xs[1..]), rest);
    }
  }

  lemma {:induction false} BareMeant(x: Piece)
    requires x.Bare?
    ensures Meant(x) == [x.c]
  {
  }

  lemma {:induction false} LongerTwice(l: Lx, a: string, p: string, b: string, q: string)
    ensures Longer(Longer(l, a, p), b, q) == Longer(l, a + b, q)
  {
    assert l.b + a + b == l.b + (a + b);
    if a == "" { assert a + b == b; }
    if b == "" { assert a + b == a; }
  }

  /** A word of one part, or of none. */
  lemma {:induction false} OnePart(p: string, e: Around, r: Lx)
    requires Lex(Lx(p, [], "", false, false, false, 0, false), e) == r && r.parts == [] && !r.q && !r.more
    ensures var (w, l) := Word(p, e);
            && l.p == r.p && !l.more
            && w == if r.b != "" then Some([Txt(r.cq, r.b)]) else if r.seen then Some([Txt(true, "")]) else None
  {
    hide Lex;
    assert [] + [Txt(r.cq, r.b)] == [Txt(r.cq, r.b)];
  }

  /** Text in double quotes is one quoted part. */
  lemma {:induction false} DoubleQuoted(xs: seq<Piece>, rest: string, e: Around)
    requires (forall i :: 0 <= i < |xs| ==> Proper(xs[i])) && Stops(rest)
    ensures var (w, l) := Word("\"" + (WrittenAll(xs) + ("\"" + rest)), e);
            w == Some([Txt(true, MeantAll(xs))]) && l.p == rest && !l.more
  {
    hide Lex, Proper, WrittenAll, MeantAll, Stops;
    var p := "\"" + (WrittenAll(xs) + ("\"" + rest));
    var l := Lx(p, [], "", false, false, false, 0, false);
    var m := l.(p := WrittenAll(xs) + ("\"" + rest), q := true, seen := true);
    Turns(l, e, m.p);
    QuotedReads(m, e, xs, "\"" + rest);
    var n := Longer(m, MeantAll(xs), "\"" + rest);
    Turns(n, e, rest);
    StopLex(n.(p := rest, q := false, seen := true), e);
    assert "" + MeantAll(xs) == MeantAll(xs);
    OnePart(p, e, n.(p := rest, q := false, seen := true));
  }

  /** A double quote opens or closes. */
  lemma {:induction false} Turns(l: Lx, e: Around, rest: string)
    requires l.p == "\"" + rest && l.gd == 0
    ensures Lex(l, e) == Lex(l.(p := rest, q := !l.q, seen := true), e)
  {
    hide Put, Escape;
    assert l.p[1..] == rest;
  }

  /** Any value, with a backslash before each of the four characters. */
  function Dquoted(v: string): seq<Piece> {
    if v == "" then []
    else [if v[0] == '"' || v[0] == '\\' || v[0] == '$' || v[0] == '`' then Slash(v[0]) else Bare(v[0])] + Dquoted(v[1..])
  }

  lemma {:induction false} DquotedMeans(v: string)
    ensures MeantAll(Dquoted(v)) == v && forall i :: 0 <= i < |Dquoted(v)| ==> Proper(Dquoted(v)[i])
  {
    if v != "" {
      DquotedMeans(v[1..]);
      assert Dquoted(v)[1..] == Dquoted(v[1..]);
      assert v == [v[0]] + v[1..];
    }
  }

  /** So every value can be written in double quotes. */
  lemma {:induction false} DoubleQuotesBack(v: string, rest: string, e: Around)
    requires Stops(rest)
    ensures var (w, l) := Word("\"" + (WrittenAll(Dquoted(v)) + ("\"" + rest)), e);
            w == Some([Txt(true, v)]) && l.p == rest && !l.more
  {
    hide Word, Proper, Stops;
    DquotedMeans(v);
    DoubleQuoted(Dquoted(v), rest, e);
  }

  /** Without the closing quote more text is needed. */
  lemma {:induction false} QuoteOpen(xs: seq<Piece>, e: Around)
    requires forall i :: 0 <= i < |xs| ==> Proper(xs[i])
    ensures Word("\"" + WrittenAll(xs), e).1.more
  {
    hide Lex, Proper, WrittenAll, MeantAll;
    var p := "\"" + WrittenAll(xs);
    var l := Lx(p, [], "", false, false, false, 0, false);
    var m := l.(p := WrittenAll(xs), q := true, seen := true);
    Turns(l, e, m.p);
    assert WrittenAll(xs) + "" == WrittenAll(xs);
    QuotedReads(m, e, xs, "");
    NothingLeft(Longer(m, MeantAll(xs), ""), e);
  }

  lemma {:induction false} NothingLeft(l: Lx, e: Around)
    requires l.p == ""
    ensures Lex(l, e) == l
  {
  }

  /** `$` before double quotes is passed over, outside quotes. */
  lemma {:induction false} LocaleQuotes(l: Lx, e: Around, rest: string)
    requires l.p == "$\"" + rest && !l.q && l.gd == 0
    ensures Lex(l, e) == Lex(l.(p := "\"" + rest, seen := true), e)
  {
    hide Put, Escape;
    assert l.p[1..] == "\"" + rest;
  }

  // ---- bare words ----

  predicate BareWord(s: string) {
    forall i :: 0 <= i < |s| ==> s[i] !in " \t\n|&;<>()'\"\\$`?*+@!"
  }

  /** What ends a bare word: a blank, a line feed, or a character of an operator. */
  predicate Ends(rest: string) {
    rest == "" || rest[0] in " \t\n|&;()" || (rest[0] in "<>" && !(|rest| > 1 && rest[1] == '('))
  }

  lemma {:induction false} EndLex(l: Lx, e: Around)
    requires Ends(l.p) && !l.q && l.gd == 0
    ensures Lex(l, e) == l
  {
    hide Put, Escape;
  }

  lemma {:induction false} BareLex(l: Lx, e: Around, s: string, rest: string)
    requires BareWord(s) && Ends(rest) && l.p == s + rest && !l.q && l.gd == 0 && !l.cq
    ensures Lex(l, e) == l.(p := rest, b := l.b + s)
    decreases |s|
  {
    hide Lex, Put, Ends;
    if s == "" {
      assert l.p == rest && l.b + s == l.b;
      EndLex(l, e);
    } else {
      var q := s[1..] + rest;
      assert s[0] !in " \t\n|&;<>()'\"\\$`?*+@!";
      assert l.p == [s[0]] + q;
      OrdinaryLex(l, e, s[0], q);
      PutBare(l, s[0]);
      BareLex(l.(b := l.b + [s[0]], p := q), e, s[1..], rest);
      assert l.b + [s[0]] + s[1..] == l.b + s;
    }
  }

  lemma {:induction false} PutBare(l: Lx, c: char)
    requires !l.cq
    ensures Put(l, false, c) == l.(b := l.b + [c])
  {
  }

  /** A bare word goes up to the first character that ends it, and is one unquoted part. */
  lemma {:induction false} BareRead(s: string, rest: string, e: Around)
    requires s != "" && BareWord(s) && Ends(rest)
    ensures var (w, l) := Word(s + rest, e);
            w == Some([Txt(false, s)]) && l.p == rest && !l.more
  {
    hide Lex, BareWord, Ends;
    BareLex(Lx(s + rest, [], "", false, false, false, 0, false), e, s, rest);
    assert "" + s == s;
    OnePart(s + rest, e, Lx(rest, [], s, false, false, false, 0, false));
  }

  // ---- pattern groups ----

  /** What may stand bare inside a group: blanks and bars too. */
  predicate Grouped(s: string) {
    forall i :: 0 <= i < |s| ==> s[i] !in "\n<>()'\"\\$`?*+@!"
  }

  lemma {:induction false} InGroup(l: Lx, e: Around, c: char, q: string)
    requires l.p == [c] + q && c !in "\n<>()'\"\\$`?*+@!" && !l.q && l.gd == 1 && !l.cq
    ensures Lex(l, e) == Lex(l.(p := q, b := l.b + [c]), e)
  {
    hide Put, Escape;
    assert l.p[1..] == q;
    PutBare(l, c);
  }

  lemma {:induction false} GroupCloses(l: Lx, e: Around, q: string)
    requires l.p == ")" + q && !l.q && l.gd == 1 && !l.cq
    ensures Lex(l, e) == Lex(l.(p := q, b := l.b + ")", gd := 0), e)
  {
    hide Put, Escape;
    assert l.p[1..] == q;
    PutBare(l, ')');
  }

  lemma {:induction false} GroupOpens(l: Lx, e: Around, c: char, q: string)
    requires l.p == [c, '('] + q && c in "?*+@!" && e.closes(q) && !l.q && l.gd == 0 && !l.cq
    ensures Lex(l, e) == Lex(l.(p := q, b := l.b + [c, '('], gd := 1, seen := true), e)
  {
    hide Put, Escape;
    assert l.p[2..] == q;
    PutBare(l, c);
    PutBare(l.(b := l.b + [c]), '(');
    assert l.b + [c] + ['('] == l.b + [c, '('];
  }

  lemma {:induction false} GroupLex(l: Lx, e: Around, s: string, rest: string)
    requires Grouped(s) && l.p == s + (")" + rest) && !l.q && l.gd == 1 && !l.cq
    ensures Lex(l, e) == Lex(l.(p := rest, b := l.b + s + ")", gd := 0), e)
    decreases |s|
  {
    hide Lex;
    if s == "" {
      assert l.p == ")" + rest && l.b + s == l.b;
      GroupCloses(l, e, rest);
    } else {
      var q := s[1..] + (")" + rest);
      assert s[0] !in "\n<>()'\"\\$`?*+@!";
      assert l.p == [s[0]] + q;
      InGroup(l, e, s[0], q);
      GroupLex(l.(p := q, b := l.b + [s[0]]), e, s[1..], rest);
      assert l.b + [s[0]] + s[1..] == l.b + s;
    }
  }

  /** A group that is closed is part of the word, with the blanks and bars in it. */
  lemma {:induction false} GroupRead(c: char, s: string, rest: string, e: Around)
    requires c in "?*+@!" && Grouped(s) && Ends(rest) && e.closes(s + (")" + rest))
    ensures var (w, l) := Word([c, '('] + (s + (")" + rest)), e);
            w == Some([Txt(false, [c, '('] + s + ")")]) && l.p == rest && !l.more
  {
    hide Lex, Grouped, Ends;
    var q := s + (")" + rest);
    var p := [c, '('] + q;
    var l := Lx(p, [], "", false, false, false, 0, false);
    GroupOpens(l, e, c, q);
    assert "" + [c, '('] == [c, '('];
    var m := l.(p := q, b := [c, '('], gd := 1, seen := true);
    GroupLex(m, e, s, rest);
    var r := m.(p := rest, b := [c, '('] + s + ")", gd := 0);
    EndLex(r, e);
    OnePart(p, e, r);
  }

  /** Outside quotes a backslash quotes any character but a line feed, which it takes away. */
  lemma {:induction false} SlashRead(c: char, rest: string, e: Around)
    requires Ends(rest)
    ensures c != '\n' ==> var (w, l) := Word(['\\', c] + rest, e); w == Some([Txt(true, [c])]) && l.p == rest && !l.more
    ensures c == '\n' ==> var (w, l) := Word(['\\', c] + rest, e); w == None && l.p == rest && !l.more
  {
    hide Lex, Ends;
    var p := ['\\', c] + rest;
    var l := Lx(p, [], "", false, false, false, 0, false);
    if c == '\n' {
      SlashFeed(l, e, rest);
      EndLex(l.(p := rest), e);
      OnePart(p, e, l.(p := rest));
    } else {
      SlashLex(l, e, c, rest);
      assert "" + [c] == [c];
      var r := Put(l, true, c).(p := rest, seen := true);
      EndLex(r, e);
      OnePart(p, e, r);
    }
  }

  lemma {:induction false} SlashFeed(l: Lx, e: Around, rest: string)
    requires l.p == ['\\', '\n'] + rest && !l.q && l.gd == 0
    ensures Lex(l, e) == Lex(l.(p := rest), e)
  {
    hide Put, Escape;
    assert l.p[2..] == rest;
  }

  // ---- escapes between $' and ' ----

  /** The letters, by the number of the character they stand for. */
  lemma {:induction false} LetterEscapes(c: char, q: string)
    ensures c == 'a' ==> Lexer.Escape([c] + q) == ([7 as char], q)
    ensures c == 'b' ==> Lexer.Escape([c] + q) == ([8 as char], q)
    ensures c == 't' ==> Lexer.Escape([c] + q) == ([9 as char], q)
    ensures c == 'n' ==> Lexer.Escape([c] + q) == ([10 as char], q)
    ensures c == 'v' ==> Lexer.Escape([c] + q) == ([11 as char], q)
    ensures c == 'f' ==> Lexer.Escape([c] + q) == ([12 as char], q)
    ensures c == 'r' ==> Lexer.Escape([c] + q) == ([13 as char], q)
    ensures c == 'e' || c == 'E' ==> Lexer.Escape([c] + q) == ([27 as char], q)
    ensures c == '\\' || c == '\'' || c == '"' || c == '?' ==> Lexer.Escape([c] + q) == ([c], q)
  {
    hide Lexer.Digits, Utf8, HexVal;
    var p := [c] + q;
    assert p[1..] == q && p[0] == c;
  }

  /** `\c` and a letter or one of `@[]^_?`: the character sixty-four places away, in the C locale. */
  lemma {:induction false} ControlEscapes(c: char, q: string)
    requires '@' <= c <= 'Z' || c in "[]^_" || 'a' <= c <= 'z' || c == '?'
    ensures Lexer.Escape(['c', c] + q) ==
            ([(if c == '?' then 127 else if 'a' <= c <= 'z' then c as int - 96 else c as int - 64) as char], q)
  {
    assert (['c', c] + q)[2..] == q;
  }

  /** What hexadecimal digits say, in either case. */
  predicate HexSpells(c: char, d: nat) {
    d < 16 && (c == "0123456789abcdef"[d] || c == "0123456789ABCDEF"[d])
  }

  lemma {:induction false} HexIs(c: char, d: nat)
    requires HexSpells(c, d)
    ensures HexVal(c) == Some(d)
  {
  }

  /** `\x` with two digits. */
  lemma {:induction false} ByteEscape(a: char, b: char, i: nat, j: nat, q: string)
    requires HexSpells(a, i) && HexSpells(b, j)
    ensures Lexer.Escape(['x', a, b] + q) == ([(16 * i + j) as char], q)
  {
    hide HexVal, Utf8;
    HexIs(a, i);
    HexIs(b, j);
    var p := ['x', a, b] + q;
    assert p[1..] == [a] + ([b] + q) && ([a] + ([b] + q))[1..] == [b] + q && ([b] + q)[1..] == q;
    assert Lexer.Digits(q, 16, 0, 16 * i + j) == (16 * i + j, q);
    assert Lexer.Digits([b] + q, 16, 1, i) == (16 * i + j, q);
  }

  /** `\u` with four. */
  lemma {:induction false} CodeEscape(a: char, b: char, c: char, d: char, i: nat, j: nat, k: nat, m: nat, q: string)
    requires HexSpells(a, i) && HexSpells(b, j) && HexSpells(c, k) && HexSpells(d, m)
    ensures Lexer.Escape(['u', a, b, c, d] + q) == (Utf8(4096 * i + 256 * j + 16 * k + m), q)
  {
    hide HexVal, Utf8, Lexer.Digits;
    HexIs(a, i);
    HexIs(b, j);
    HexIs(c, k);
    HexIs(d, m);
    var r := ['u', a, b, c, d] + q;
    FourDigits(a, b, c, d, i, j, k, m, q);
    assert r[1..] == [a, b, c, d] + q;
  }

  lemma {:induction false} FourDigits(a: char, b: char, c: char, d: char, i: nat, j: nat, k: nat, m: nat, q: string)
    requires HexVal(a) == Some(i) && HexVal(b) == Some(j) && HexVal(c) == Some(k) && HexVal(d) == Some(m)
    requires i < 16 && j < 16 && k < 16 && m < 16
    ensures Lexer.Digits([a, b, c, d] + q, 16, 4, 0) == (4096 * i + 256 * j + 16 * k + m, q)
  {
    hide HexVal;
    assert ([d] + q)[1..] == q && ([c, d] + q)[1..] == [d] + q && ([b, c, d] + q)[1..] == [c, d] + q;
    assert ([a, b, c, d] + q)[1..] == [b, c, d] + q;
    assert Lexer.Digits([d] + q, 16, 1, 256 * i + 16 * j + k) == (4096 * i + 256 * j + 16 * k + m, q);
    assert Lexer.Digits([c, d] + q, 16, 2, 16 * i + j) == Lexer.Digits([d] + q, 16, 1, 256 * i + 16 * j + k);
    assert Lexer.Digits([b, c, d] + q, 16, 3, i) == Lexer.Digits([c, d] + q, 16, 2, 16 * i + j);
  }

  // ---- UTF-8 ----

  /** A code point is written in as many bytes as it needs, and the bytes say which it is (RFC 3629, section 3). */
  lemma {:induction false} Utf8Says(u: nat)
    requires u < 0x11_0000
    ensures u < 0x80 ==> Utf8(u) == [u as char]
    ensures 0x80 <= u < 0x800 ==> Utf8(u) == Two(u / 64, u % 64) && u / 64 < 32
    ensures 0x800 <= u < 0x1_0000 ==> Utf8(u) == Three(u / 4096, u / 64 % 64, u % 64) && u / 4096 < 16
    ensures 0x1_0000 <= u ==> Utf8(u) == Four(u / 0x4_0000, u / 4096 % 64, u / 64 % 64, u % 64) && u / 0x4_0000 < 8
    ensures u == 64 * (u / 64) + u % 64 == 4096 * (u / 4096) + 64 * (u / 64 % 64) + u % 64
    ensures u == 0x4_0000 * (u / 0x4_0000) + 4096 * (u / 4096 % 64) + 64 * (u / 64 % 64) + u % 64
  {
    Sixes(u);
  }

  lemma {:induction false} Sixes(u: nat)
    ensures u / 4096 == u / 64 / 64 && u / 0x4_0000 == u / 4096 / 64
  {
  }

  /** A leading byte with the highest bits, and following bytes with six bits each. */
  function Two(a: nat, b: nat): string
    requires a < 32 && b < 64
  {
    [(0xc0 + a) as char, (0x80 + b) as char]
  }

  function Three(a: nat, b: nat, c: nat): string
    requires a < 16 && b < 64 && c < 64
  {
    [(0xe0 + a) as char, (0x80 + b) as char, (0x80 + c) as char]
  }

  function Four(a: nat, b: nat, c: nat, d: nat): string
    requires a < 8 && b < 64 && c < 64 && d < 64
  {
    [(0xf0 + a) as char, (0x80 + b) as char, (0x80 + c) as char, (0x80 + d) as char]
  }
}
