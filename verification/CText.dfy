/** Characters of C strings, hexadecimal digits, and UTF-8. */
module CText {
  import opened Bits

  /** The character at `i`, or the NUL at the end. */
  function Ch(p: string, i: nat): char { if i < |p| then p[i] else '\0' }

  predicate Digit(c: char) { '0' <= c <= '9' }

  function HexVal(c: char): Option<nat> {
    if Digit(c) then Some((c - '0') as nat)
    else if 'a' <= c <= 'f' then Some((c - 'a') as nat + 10)
    else if 'A' <= c <= 'F' then Some((c - 'A') as nat + 10)
    else None
  }

  /** u8put: a code point in UTF-8. */
  function Utf8(u: nat): string {
    if u < 0x80 then [u as char]
    else if u < 0x800 then [(0xc0 + u / 64 % 32) as char, (0x80 + u % 64) as char]
    else if u < 0x1_0000 then [(0xe0 + u / 4096) as char, (0x80 + u / 64 % 64) as char, (0x80 + u % 64) as char]
    else [(0xf0 + u / 0x4_0000 % 8) as char, (0x80 + u / 4096 % 64) as char, (0x80 + u / 64 % 64) as char, (0x80 + u % 64) as char]
  }
}
