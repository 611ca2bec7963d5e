/** What `read` is for: a line up to its delimiter, or a number of whole characters. */
module ReadLaws {
  import opened Bits
  import opened Reading

  /** One character in UTF-8: a leading byte and as many following bytes as it calls for (RFC 3629, section 3). */
  predicate Whole(s: seq<byte>) {
    && s != [] && (forall i :: 1 <= i < |s| ==> 0x80 <= s[i] <= 0xbf)
    && ( (|s| == 1 && 1 <= s[0] <= 0x7f) || (|s| == 2 && 0xc0 <= s[0] <= 0xdf)
      || (|s| == 3 && 0xe0 <= s[0] <= 0xef) || (|s| == 4 && 0xf0 <= s[0] <= 0xf7))
  }

  /** A whole character that does not begin with the delimiter, if that would end it. */
  predicate Starts(s: seq<byte>, exact: bool, delim: byte) {
    Whole(s) && (exact || s[0] != delim)
  }

  function Together(cs: seq<seq<byte>>): seq<byte> {
    if cs == [] then [] else cs[0] + Together(cs[1..])
  }

  /** The bytes that follow in a character, taken one by one. */
  lemma {:induction false} TailTaken(t: seq<byte>, rest: seq<byte>, a: Ask, n: nat, out: seq<byte>)
    requires t != [] && (forall i :: 0 <= i < |t| ==> 0x80 <= t[i] <= 0xbf) && a.want > 0
    ensures var g := Take(t + rest, a, Count(n, |t|), out);
            g == (if n >= a.want then Got(out + t, |t|, true)
                  else var h := Take(rest, a, Count(n, 0), out + t); h.(used := h.used + |t|))
    decreases |t|
  {
    var c, u := t[0], t[1..];
    assert (t + rest)[1..] == u + rest;
    if u == [] {
      assert t == [c] && u + rest == rest;
    } else {
      TailTaken(u, rest, a, n, out + [c]);
      assert out + [c] + u == out + t;
    }
  }

  lemma {:induction false} CharTaken(s: seq<byte>, rest: seq<byte>, a: Ask, n: nat, out: seq<byte>)
    requires Whole(s) && a.want > n && (a.exact || s[0] != a.delim)
    ensures var g := Take(s + rest, a, Count(n, 0), out);
            g == (if n + 1 >= a.want then Got(out + s, |s|, true)
                  else var h := Take(rest, a, Count(n + 1, 0), out + s); h.(used := h.used + |s|))
  {
    var c, u := s[0], s[1..];
    assert (s + rest)[1..] == u + rest;
    assert Step(Count(n, 0), c) == Count(n + 1, |u|);
    if u == [] {
      assert s == [c] && u + rest == rest;
    } else {
      TailTaken(u, rest, a, n + 1, out + [c]);
      assert out + [c] + u == out + s;
    }
  }

  lemma {:induction false} TogetherCons(cs: seq<seq<byte>>)
    requires cs != []
    ensures Together(cs) == cs[0] + Together(cs[1..]) && (|cs| == 1 ==> Together(cs[1..]) == [])
  {
  }

  lemma {:induction false} CharsTaken(cs: seq<seq<byte>>, rest: seq<byte>, a: Ask, n: nat, out: seq<byte>)
    requires cs != [] && a.want == n + |cs|
    requires forall i :: 0 <= i < |cs| ==> Starts(cs[i], a.exact, a.delim)
    ensures Take(Together(cs) + rest, a, Count(n, 0), out) == Got(out + Together(cs), |Together(cs)|, true)
    decreases |cs|
  {
    hide Take, Whole, Together;
    var s, t := cs[0], Together(cs[1..]);
    TogetherCons(cs);
    assert Starts(cs[0], a.exact, a.delim);
    assert s + t + rest == s + (t + rest);
    CharTaken(s, t + rest, a, n, out);
    if |cs| > 1 {
      CharsTaken(cs[1..], rest, a, n + 1, out + s);
      assert out + s + t == out + (s + t);
    } else {
      assert s + t == s;
    }
  }

  /** Asked for some characters, `read` takes exactly the bytes of as many whole characters. */
  lemma {:induction false} CharactersRead(cs: seq<seq<byte>>, rest: seq<byte>, delim: byte, exact: bool)
    requires cs != []
    requires forall i :: 0 <= i < |cs| ==> Starts(cs[i], exact, delim)
    ensures Read(Together(cs) + rest, Ask(delim, |cs|, exact), []) == Got(Together(cs), |Together(cs)|, true)
  {
    hide Take, Whole;
    assert [] + Together(cs) == Together(cs);
    CharsTaken(cs, rest, Ask(delim, |cs|, exact), 0, []);
  }

  lemma {:induction false} LineTaken(x: seq<byte>, rest: seq<byte>, a: Ask, k: Count, out: seq<byte>)
    requires a.want == 0 && !a.exact && k.need == 0 && a.delim !in x && (a.delim == 0 || 0 !in x)
    ensures Take(x + ([a.delim] + rest), a, k, out) == Got(out + x, |x| + 1, true)
    ensures Take(x, a, k, out) == Got(out + x, |x|, false)
    decreases |x|
  {
    var p := x + ([a.delim] + rest);
    if x == [] {
      assert p == [a.delim] + rest && out + x == out;
    } else {
      assert p[0] == x[0] && x[0] in x && p[1..] == x[1..] + ([a.delim] + rest);
      LineTaken(x[1..], rest, a, k, out + [x[0]]);
      assert out + [x[0]] + x[1..] == out + x;
    }
  }

  /** Asked for a line, it takes the bytes up to the delimiter, which is used up; without one it takes what there
      is and says so. */
  lemma {:induction false} LineRead(x: seq<byte>, rest: seq<byte>, delim: byte, b: seq<byte>)
    requires delim !in x && (delim == 0 || 0 !in x)
    ensures Read(x + ([delim] + rest), Ask(delim, 0, false), b) == Got(b + x, |x| + 1, true)
    ensures Read(x, Ask(delim, 0, false), b) == Got(b + x, |x|, false)
  {
    hide Take;
    LineTaken(x, rest, Ask(delim, 0, false), Count(0, 0), b);
  }
}
