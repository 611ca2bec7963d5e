/** lx_word: one shell word read into parts, with every quoting rule of the shell. How far an expansion
    reaches, and whether a pattern group closes, are asked of `Around`. */
module Lexer {
  import opened Bits
  import opened CText

  /** Text, with whether it was quoted; or an expansion. */
  datatype Part = Txt(q: bool, t: string) | Exp

  /** How many bytes the expansion at the front of a text takes, if it is complete; and whether a `(` closes. */
  datatype Around = Around(exp: string -> Option<nat>, closes: string -> bool)

  /** The text still to be read, the parts so far, the part being read and how it is quoted, whether inside
      double quotes, whether anything quoted was seen, how many pattern groups are open, whether more text is needed. */
  datatype Lx = Lx(p: string, parts: seq<Part>, b: string, cq: bool, q: bool, seen: bool, gd: int, more: bool)

  predicate Meta(c: char) { c in "|&;<>()" }

  function Flush(l: Lx): (r: Lx)
    ensures r.p == l.p
  {
    if l.b == "" then l else l.(parts := l.parts + [Txt(l.cq, l.b)], b := "")
  }

  /** lx_ch: one more character, quoted or not. */
  function Put(l: Lx, q: bool, c: char): (r: Lx)
    ensures r.p == l.p
  {
    var f := if l.b != "" && l.cq != q then Flush(l) else l;
    f.(cq := q, b := f.b + [c])
  }

  function PutAll(l: Lx, q: bool, s: string): (r: Lx)
    ensures r.p == l.p
    decreases |s|
  {
    if s == "" then l else PutAll(Put(l, q, s[0]), q, s[1..])
  }

  function Drop(l: Lx, n: nat): (r: Lx)
    ensures |r.p| <= |l.p| && (n > 0 && l.p != "" ==> |r.p| < |l.p|)
  {
    l.(p := if n <= |l.p| then l.p[n..] else "")
  }

  /** The digits of base 8 or 16 at the front, at most `max` of them, added to `acc`. */
  function Digits(p: string, base: nat, max: nat, acc: nat): (r: (nat, string))
    ensures |r.1| <= |p|
    decreases max
  {
    if max == 0 || p == "" || HexVal(p[0]).None? || HexVal(p[0]).value >= base then (acc, p)
    else Digits(p[1..], base, max - 1, acc * base + HexVal(p[0]).value)
  }

  /** The low byte of a number. */
  function Byte(v: nat): char { (v % 256) as char }

  /** pf_ctl: the control character of a letter. */
  function Ctl(c: char): char {
    if c == '?' then 0x7f as char
    else if 'a' <= c <= 'z' then ((c as nat - 32) % 32) as char
    else (c as nat % 32) as char
  }

  /** An escape between `$'` and `'`, the backslash passed: what it stands for and what is left. */
  function Escape(p: string): (r: (string, string))
    requires p != ""
    ensures |r.1| < |p|
  {
    var c := p[0];
    if c == 'n' then ("\n", p[1..])
    else if c == 't' then ("\t", p[1..])
    else if c == 'r' then ("\r", p[1..])
    else if c == 'a' then ([7 as char], p[1..])
    else if c == 'b' then ([8 as char], p[1..])
    else if c == 'f' then ([12 as char], p[1..])
    else if c == 'v' then ([11 as char], p[1..])
    else if c == 'e' || c == 'E' then ([27 as char], p[1..])
    else if c == 'c' then
      if |p| == 1 || p[1] == '\'' then ("\\c", p[1..])
      else if p[1] == '\\' && Ch(p, 2) == '\\' then ([Ctl(p[1])], p[3..])
      else if p[1] == '\\' && Ch(p, 2) == '\'' then ([Ctl(p[1]), '\''], p[3..])
      else ([Ctl(p[1])], p[2..])
    else if c in "\\'\"?" then ([c], p[1..])
    else if c == 'x' then
      if HexVal(Ch(p, 1)).None? then ("\\x", p[1..])
      else
        var (v, q) := Digits(p[1..], 16, 2, 0);
        ([Byte(v)], q)
    else if '0' <= c <= '7' then
      var (v, q) := Digits(p[1..], 8, 2, (c - '0') as nat);
      ([Byte(v)], q)
    else if c == 'u' || c == 'U' then
      if HexVal(Ch(p, 1)).None? then (['\\', c], p[1..])
      else
        var (v, q) := Digits(p[1..], 16, if c == 'u' then 4 else 8, 0);
        (Utf8(if v > 0x10_ffff then 0xfffd else v), q)
    else (['\\', c], p[1..])
  }

  /** Whether the shell takes the character after a backslash for itself, inside double quotes. */
  predicate Special(c: char) { c in "\"\\$`" }

  function Lex(l: Lx, e: Around): (r: Lx)
    decreases |l.p|, 1
  {
    if l.p == "" then l
    else
      var c, d := l.p[0], Ch(l.p, 1);
      if !l.q && (c == '<' || c == '>') && d == '(' then Expand(l, e, true)
      else if !l.q && c == '\n' then l
      else if !l.q && d == '(' && c in "?*+@!" && e.closes(l.p[2..]) then
        Lex(Drop(Put(Put(l, false, c), false, '(').(gd := l.gd + 1, seen := true), 2), e)
      else if !l.q && l.gd != 0 && (c == ' ' || c == '\t' || Meta(c)) then
        Lex(Drop(Put(l, false, c).(gd := l.gd + (if c == '(' then 1 else if c == ')' then -1 else 0)), 1), e)
      else if !l.q && (c == ' ' || c == '\t' || Meta(c)) then l
      else if !l.q && c == '\'' then Single(Drop(l.(seen := true), 1), e)
      else if c == '"' then Lex(Drop(l.(q := !l.q, seen := true), 1), e)
      else if c == '\\' then
        if |l.p| == 1 then Drop(Put(l, true, '\\').(seen := true), 1)
        else if d == '\n' then Lex(Drop(l, 2), e)
        else
          var m := if l.q && !Special(d) then Put(l, true, '\\') else l;
          Lex(Drop(Put(m, true, d).(seen := true), 2), e)
      else if !l.q && c == '$' && d == '"' then Lex(Drop(l.(seen := true), 1), e)
      else if !l.q && c == '$' && d == '\'' then Ansi(Drop(l.(seen := true), 2), e)
      else if c == '$' || c == '`' then Expand(l, e, false)
      else Lex(Drop(Put(l, l.q, c), 1), e)
  }

  /** An expansion: a part of its own; a process substitution makes a word even when it comes to nothing. */
  function Expand(l: Lx, e: Around, sub: bool): (r: Lx)
    requires l.p != ""
    decreases |l.p|, 0
  {
    var f := Flush(l);
    match e.exp(l.p)
    case None => f.(more := true)
    case Some(n) => Lex(Drop(f.(parts := f.parts + [Exp], seen := f.seen || sub), n + 1), e)
  }

  /** Inside single quotes. */
  function Single(l: Lx, e: Around): (r: Lx)
    decreases |l.p|, 2
  {
    if l.p == "" then l.(more := true)
    else if l.p[0] == '\'' then Lex(Drop(l, 1), e)
    else Single(Drop(Put(l, true, l.p[0]), 1), e)
  }

  /** Inside `$'` and `'`. */
  function Ansi(l: Lx, e: Around): (r: Lx)
    decreases |l.p|, 2
  {
    if l.p == "" then l.(more := true)
    else if l.p[0] == '\'' then Lex(Drop(l, 1), e)
    else if l.p[0] != '\\' then Ansi(Drop(Put(l, true, l.p[0]), 1), e)
    else if |l.p| == 1 then l.(p := "", more := true)
    else
      var (s, q) := Escape(l.p[1..]);
      Ansi(PutAll(l, true, s).(p := q), e)
  }

  /** A word: its parts, an empty quoted one standing for quotes with nothing in them; None where there is no word. */
  function Word(p: string, e: Around): (Option<seq<Part>>, Lx) {
    var l := Lex(Lx(p, [], "", false, false, false, 0, false), e);
    var f := Flush(l.(more := l.more || l.q));
    (if f.parts == [] && !f.seen then None else Some(if f.parts == [] then [Txt(true, "")] else f.parts), f)
  }
}
