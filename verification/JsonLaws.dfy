/** What the escapes in JSON strings stand for (RFC 8259, section 7). */
module JsonLaws {
  import opened Bits
  import opened CText
  import opened Json
  import W = WordLaws

  /** Four hexadecimal digits, in either case, and their number. */
  ghost predicate Spells(s: string, v: nat) {
    && |s| == 4
    && exists a: nat, b: nat, c: nat, d: nat :: W.HexSpells(s[0], a) && W.HexSpells(s[1], b) && W.HexSpells(s[2], c) && W.HexSpells(s[3], d)
         && v == 4096 * a + 256 * b + 16 * c + d
  }

  lemma {:induction false} HexRead(s: string, v: nat, rest: string)
    requires Spells(s, v)
    ensures |s| == 4 && Hex4(s + rest) == Some(v) && (s + rest)[4..] == rest && v < 0x1_0000
  {
    hide HexVal, W.HexSpells;
    var a: nat, b: nat, c: nat, d: nat :| W.HexSpells(s[0], a) && W.HexSpells(s[1], b) && W.HexSpells(s[2], c) && W.HexSpells(s[3], d)
                      && v == 4096 * a + 256 * b + 16 * c + d;
    W.HexIs(s[0], a);
    W.HexIs(s[1], b);
    W.HexIs(s[2], c);
    W.HexIs(s[3], d);
    assert a < 16 && b < 16 && c < 16 && d < 16 by { Below(s[0], a); Below(s[1], b); Below(s[2], c); Below(s[3], d); }
  }

  lemma {:induction false} Below(c: char, d: nat)
    requires W.HexSpells(c, d)
    ensures d < 16
  {
  }

  lemma {:induction false} UnicodeChars(h: string, o: string, bad: bool)
    ensures Chars("\\u" + h, o, bad) ==
            match Unicode(h) case None => Chars(h, o, true) case Some((u, q)) => Chars(q, o + u, bad)
  {
    hide Unicode;
    var p := "\\u" + h;
    assert p[0] == '\\' && p[1] == 'u' && p[2..] == h;
  }

  /** `\u` and four digits stand for that code point, unless it is none. */
  lemma {:induction false} CodeRead(s: string, v: nat, rest: string, o: string, bad: bool)
    requires Spells(s, v) && 0 < v && !(0xd800 <= v < 0xe000)
    ensures Chars("\\u" + (s + rest), o, bad) == Chars(rest, o + Utf8(v), bad)
  {
    hide Chars, Hex4, Utf8, Spells;
    HexRead(s, v, rest);
    UnicodeChars(s + rest, o, bad);
  }

  /** A pair of surrogates stands for the code point it encodes (RFC 2781, section 2.1). */
  lemma {:induction false} PairRead(u: nat, s: string, t: string, rest: string, o: string, bad: bool)
    requires 0x1_0000 <= u < 0x11_0000
    requires Spells(s, 0xd800 + (u - 0x1_0000) / 1024) && Spells(t, 0xdc00 + (u - 0x1_0000) % 1024)
    ensures Chars("\\u" + (s + ("\\u" + (t + rest))), o, bad) == Chars(rest, o + Utf8(u), bad)
  {
    hide Chars, Hex4, Utf8, Spells;
    var q := "\\u" + (t + rest);
    HexRead(s, 0xd800 + (u - 0x1_0000) / 1024, q);
    HexRead(t, 0xdc00 + (u - 0x1_0000) % 1024, rest);
    assert q[0] == '\\' && q[1] == 'u' && q[2..] == t + rest && q[6..] == rest;
    UnicodeChars(s + q, o, bad);
  }

  /** Half a pair, or the code point zero, is read as the replacement character. */
  lemma {:induction false} LoneRead(s: string, v: nat, rest: string, o: string, bad: bool)
    requires Spells(s, v) && (v == 0 || 0xd800 <= v < 0xe000) && Ch(rest, 0) != '\\'
    ensures Chars("\\u" + (s + rest), o, bad) == Chars(rest, o + Utf8(0xfffd), bad)
  {
    hide Chars, Hex4, Utf8, Spells;
    HexRead(s, v, rest);
    UnicodeChars(s + rest, o, bad);
  }

  /** The other escapes. */
  lemma {:induction false} LetterRead(c: char, rest: string, o: string, bad: bool)
    requires c in "\"\\/bfnrt"
    ensures Chars(['\\', c] + rest, o, bad) == Chars(rest, o + [
              if c == 'b' then 8 as char else if c == 'f' then 12 as char else if c == 'n' then 10 as char
              else if c == 'r' then 13 as char else if c == 't' then 9 as char else c], bad)
  {
    hide Unicode;
    var p := ['\\', c] + rest;
    assert p[0] == '\\' && p[1] == c && p[2..] == rest;
  }

  /** Every control character is written as an escape, so that nothing below a space stands bare in a string. */
  lemma {:induction false} NothingBare(s: string, i: nat)
    requires i < |Quote(s)|
    ensures Quote(s)[i] >= ' '
  {
    EscBare(s);
  }

  lemma {:induction false} EscBare(s: string)
    ensures forall i :: 0 <= i < |Esc(s)| ==> Esc(s)[i] >= ' '
  {
    if s != "" {
      EscBare(s[1..]);
      Esc1Bare(s[0]);
    }
  }

  lemma {:induction false} Esc1Bare(c: char)
    ensures forall i :: 0 <= i < |Esc1(c)| ==> Esc1(c)[i] >= ' '
  {
  }

  /** Spaces, tabs and line breaks before anything are passed over, and nothing else is. */
  lemma {:induction false} BlanksSkip(b: string, p: string)
    requires (forall i :: 0 <= i < |b| ==> b[i] in " \t\n\r") && (p == "" || p[0] !in " \t\n\r")
    ensures Ws(b + p) == p
    decreases |b|
  {
    if b == "" {
      assert b + p == p;
    } else {
      assert b[0] in " \t\n\r";
      assert (b + p)[1..] == b[1..] + p;
      BlanksSkip(b[1..], p);
    }
  }
}
