/** gcut and xtrim: the shortest or longest matching prefix or suffix is cut off a value. */
module Trimming {
  import opened Bits
  import opened Patterns
  import opened Pruning

  // ---- every cut, tried in order ----

  function Piece(v: string, pre: bool, i: nat): string
    requires i <= |v|
  {
    if pre then v[..i] else v[|v| - i..]
  }

  /** What is left when `i` characters are cut off, if any are. */
  function Rest(v: string, pre: bool, cut: Option<nat>): string
    requires cut.Some? ==> cut.value <= |v|
  {
    if cut.None? then v else if pre then v[cut.value..] else v[..|v| - cut.value]
  }

  /** The cut is one the pattern matches, and the character at the cut is `lit`, if one is asked for. */
  ghost predicate Good(v: string, es: seq<Elem>, pre: bool, lit: Option<char>, i: nat)
    requires i <= |v|
  {
    Matches(es, Piece(v, pre, i)) && (lit.Some? ==> i > 0 && v[if pre then i - 1 else |v| - i] == lit.value)
  }

  /** The first good cut, longest or shortest first, from the `k`th on. */
  ghost function Try(v: string, es: seq<Elem>, pre: bool, lng: bool, lit: Option<char>, k: nat): (r: Option<nat>)
    ensures r.Some? ==> r.value <= |v|
    decreases |v| + 1 - k
  {
    if k > |v| then None
    else
      var i := if lng then |v| - k else k;
      if Good(v, es, pre, lit, i) then Some(i) else Try(v, es, pre, lng, lit, k + 1)
  }

  /** That is the longest or the shortest of all the good cuts. */
  lemma {:induction false} TryBest(v: string, es: seq<Elem>, pre: bool, lng: bool, lit: Option<char>, k: nat, j: nat)
    requires k <= |v| + 1 && j <= |v| && k <= (if lng then |v| - j else j) && Good(v, es, pre, lit, j)
    ensures var r := Try(v, es, pre, lng, lit, k);
            r.Some? && Good(v, es, pre, lit, r.value) && if lng then j <= r.value else r.value <= j
    decreases |v| + 1 - k
  {
    hide Good;
    var i := if lng then |v| - k else k;
    if !Good(v, es, pre, lit, i) { TryBest(v, es, pre, lng, lit, k + 1, j); }
  }

  lemma {:induction false} TryFinds(v: string, es: seq<Elem>, pre: bool, lng: bool, lit: Option<char>, k: nat)
    ensures var r := Try(v, es, pre, lng, lit, k); r.Some? ==> Good(v, es, pre, lit, r.value)
    decreases |v| + 1 - k
  {
    hide Good;
    if k <= |v| { TryFinds(v, es, pre, lng, lit, k + 1); }
  }

  lemma {:induction false} TryNone(v: string, es: seq<Elem>, pre: bool, lng: bool, lit: Option<char>)
    requires forall i :: 0 <= i <= |v| ==> !Matches(es, Piece(v, pre, i))
    ensures Try(v, es, pre, lng, lit, 0) == None
  {
    hide Matches, Try, Piece;
    TryFinds(v, es, pre, lng, lit, 0);
  }

  // ---- gcut ----

  /** The text of a buffer: what stands before the first NUL. */
  function Text(s: seq<char>): string {
    if s == [] || s[0] == '\0' then "" else [s[0]] + Text(s[1..])
  }

  lemma {:induction false} TextIs(s: seq<char>, n: nat)
    requires n < |s| && s[n] == '\0' && '\0' !in s[..n]
    ensures Text(s) == s[..n]
  {
    if n > 0 {
      assert s[0] == s[..n][0];
      assert s[1..][..n - 1] == s[..n][1..];
      TextIs(s[1..], n - 1);
      assert s[..n] == [s[0]] + s[1..][..n - 1];
    }
  }

  /** gcut: the bytes from `a` to `b` of a buffer are matched where they stand; the byte at `b` is put back. */
  method GCut(pat: string, w: array<char>, a: nat, b: nat) returns (ok: bool)
    requires GroupFree(pat) && a <= b < w.Length && '\0' !in w[a..b]
    modifies w
    ensures w[..] == old(w[..]) && ok == Matches(Parse(pat), w[a..b])
  {
    hide GroupFree, Matches, Parse;
    ghost var piece := w[a..b];
    var c := w[b];
    w[b] := '\0';
    assert w[a..][..b - a] == piece;
    TextIs(w[a..], b - a);
    ok := GMatch(pat, Text(w[a..]));
    w[b] := c;
    assert w[..] == old(w[..]) && w[a..b] == piece;
  }

  /** A writable copy of a value, with its terminator. */
  method Writable(v: string) returns (w: array<char>)
    ensures fresh(w) && w.Length == |v| + 1 && w[..|v|] == v && w[|v|] == '\0'
  {
    w := new char[|v| + 1](i => '\0');
    var i := 0;
    while i < |v|
      invariant 0 <= i <= |v| && w[..i] == v[..i] && w[|v|] == '\0'
    {
      w[i] := v[i];
      i := i + 1;
    }
    assert v[..i] == v;
  }

  // ---- xtrim ----

  /** The character xtrim looks for at a cut before it tries the pattern, where that can matter. */
  function Filter(pat: string, pre: bool): Option<char> {
    if NoStar(Parse(pat)) || !pre then None else GLast(pat)
  }

  /** A pattern of one length has one candidate. */
  lemma {:induction false} TryFixed(v: string, es: seq<Elem>, pre: bool, lng: bool)
    requires NoStar(es)
    ensures |es| > |v| ==> Try(v, es, pre, lng, None, 0) == None
    ensures |es| <= |v| ==> Try(v, es, pre, lng, None, 0) ==
                            if Matches(es, Piece(v, pre, |es|)) then Some(|es|) else None
  {
    hide Matches, Try;
    TryFinds(v, es, pre, lng, None, 0);
    if Try(v, es, pre, lng, None, 0).Some? {
      FixedLength(es, Piece(v, pre, Try(v, es, pre, lng, None, 0).value));
    }
    if |es| <= |v| && Matches(es, Piece(v, pre, |es|)) { TryBest(v, es, pre, lng, None, 0, |es|); }
  }

  /** No prefix or suffix matches when the starred pattern says none can. */
  lemma {:induction false} WrapPrunes(v: string, pat: string, pre: bool, lng: bool, lit: Option<char>)
    requires GroupFree(pat) && Wrap(pat, !pre, pre).Some? && !Matches(Parse(Wrap(pat, !pre, pre).value), v)
    ensures Try(v, Parse(pat), pre, lng, lit, 0) == None
  {
    hide Matches, Parse, Try, Wrap, GroupFree;
    WrapMeans(pat, !pre, pre, v);
    forall i | 0 <= i <= |v|
      ensures !Matches(Parse(pat), Piece(v, pre, i))
    {
      if pre { assert v[0..i] == v[..i]; } else { assert v[|v| - i..|v|] == v[|v| - i..]; }
    }
    TryNone(v, Parse(pat), pre, lng, lit);
  }

  /** One cut tried: the cheap test first, then the pattern. */
  method TryCut(v: string, pat: string, pre: bool, w: array<char>, lit: Option<char>, i: nat) returns (ok: bool)
    requires GroupFree(pat) && '\0' !in v && i <= |v|
    requires pre ==> w.Length == |v| + 1 && w[..|v|] == v
    requires !pre ==> lit == None || lit == GFirst(pat)
    modifies w
    ensures w[..] == old(w[..])
    ensures ok == Good(v, Parse(pat), pre, if pre then lit else None, i)
  {
    hide Matches, Parse, GroupFree, GFirst;
    if lit.Some? && (i == 0 || v[if pre then i - 1 else |v| - i] != lit.value) {
      if !pre && Matches(Parse(pat), v[|v| - i..]) { FirstIsLiteral(pat, v[|v| - i..]); }
      return false;
    }
    if pre {
      assert w[0..i] == v[..i];
      ok := GCut(pat, w, 0, i);
    } else {
      ok := GMatch(pat, v[|v| - i..]);
    }
  }

  /** The cuts in order, for a pattern of more than one length. */
  method TryAll(v: string, pat: string, pre: bool, lng: bool, w: array<char>, lit: Option<char>) returns (cut: Option<nat>)
    requires GroupFree(pat) && '\0' !in v
    requires pre ==> w.Length == |v| + 1 && w[..|v|] == v
    requires !pre ==> lit == None || lit == GFirst(pat)
    modifies w
    ensures cut == Try(v, Parse(pat), pre, lng, if pre then lit else None, 0)
  {
    hide Good, Parse, GroupFree, GFirst;
    var n, k := |v|, 0;
    while k <= n
      invariant 0 <= k <= n + 1 && w[..] == old(w[..])
      invariant Try(v, Parse(pat), pre, lng, if pre then lit else None, 0) == Try(v, Parse(pat), pre, lng, if pre then lit else None, k)
    {
      var i := if lng then n - k else k;
      var got := TryCut(v, pat, pre, w, lit, i);
      if got { return Some(i); }
      k := k + 1;
    }
    return None;
  }

  /** xtrim, with the shortcuts it takes. */
  method XTrim(v: string, pat: string, pre: bool, lng: bool) returns (r: string)
    requires GroupFree(pat) && '\0' !in v
    ensures r == Rest(v, pre, Try(v, Parse(pat), pre, lng, Filter(pat, pre), 0))
  {
    hide Good, Parse, GroupFree, GFirst, GLast, Matches, Try, Wrap, NoStar, Piece;
    var n := |v|;
    var len := GLen(pat);
    TryFits(v, Parse(pat), pre, lng, Filter(pat, pre));
    if len >= 0 { TryFixed(v, Parse(pat), pre, lng); }
    if n == 0 || (len >= 0 && len > n) { return v; }
    if len < 0 {
      var any := GWrap(pat, !pre, pre);
      if any.Some? {
        var some := Possible(any.value, v, pat, pre, lng);
        if !some { return v; }
      }
    }
    var w := Writable(if pre then v else "");
    var cut: Option<nat>;
    if len >= 0 {
      var got := TryCut(v, pat, pre, w, None, len);
      cut := if got then Some(len) else None;
      FixedGood(v, Parse(pat), pre, len);
    } else {
      var lit := FindLast(pat);
      cut := TryAll(v, pat, pre, lng, w, if pre then lit else GFirst(pat));
    }
    if cut.None? { return v; }
    r := if pre then v[cut.value..] else v[..n - cut.value];
  }

  lemma {:induction false} TryFits(v: string, es: seq<Elem>, pre: bool, lng: bool, lit: Option<char>)
    ensures Try(v, es, pre, lng, lit, 0).Some? ==> Try(v, es, pre, lng, lit, 0).value <= |v|
  {
  }

  lemma {:induction false} FixedGood(v: string, es: seq<Elem>, pre: bool, i: nat)
    requires i <= |v|
    ensures Good(v, es, pre, None, i) <==> Matches(es, Piece(v, pre, i))
  {
  }

  /** Whether the starred pattern leaves anything to try. */
  method Possible(any: string, v: string, pat: string, pre: bool, lng: bool) returns (ok: bool)
    requires GroupFree(pat) && Wrap(pat, !pre, pre) == Some(any)
    ensures !ok ==> Try(v, Parse(pat), pre, lng, Filter(pat, pre), 0) == None
  {
    hide Matches, Parse, Try, Wrap, GroupFree, Filter;
    WrapMeans(pat, !pre, pre, v);
    ok := GMatch(any, v);
    if !ok { WrapPrunes(v, pat, pre, lng, Filter(pat, pre)); }
  }

  // ---- when the shortcuts change nothing ----

  predicate Ascii(t: string) {
    forall i :: 0 <= i < |t| ==> '\0' < t[i] < 128 as char
  }

  /** What xtrim answers, and what trying every cut answers. */
  ghost function Trimmed(v: string, pat: string, pre: bool, lng: bool): string {
    Rest(v, pre, Try(v, Parse(pat), pre, lng, Filter(pat, pre), 0))
  }

  ghost function Plainly(v: string, pat: string, pre: bool, lng: bool): string {
    Rest(v, pre, Try(v, Parse(pat), pre, lng, None, 0))
  }

  /** An element takes some character of a text, `c` excepted. */
  ghost predicate TakesBut(e: Elem, c: char) {
    exists d: char :: '\0' < d < 128 as char && d != c && Takes(e, d)
  }

  /** The pattern ends in a bracket closed by a `]` that glast takes for an escaped one, and it can be matched
      by a text that ends in another character: no other element is impossible to match. */
  ghost predicate Misread(pat: string) {
    var es := Parse(pat);
    && !NoStar(es) && GLast(pat).Some? && Final(pat).Set? && TakesBut(Final(pat), ']')
    && forall i :: 0 <= i < |es| ==> es[i] == Star || TakesBut(es[i], '\0')
  }

  /** If every match ends in `c`, looking for `c` first changes nothing. */
  lemma {:induction false} FilterHarmless(v: string, es: seq<Elem>, lng: bool, c: char, k: nat)
    requires forall i :: 0 <= i <= |v| && Matches(es, v[..i]) ==> i > 0 && v[i - 1] == c
    ensures Try(v, es, true, lng, Some(c), k) == Try(v, es, true, lng, None, k)
    decreases |v| + 1 - k
  {
    hide Matches;
    if k <= |v| { FilterHarmless(v, es, lng, c, k + 1); }
  }

  lemma {:induction false} EveryTakes(es: seq<Elem>, t: string, i: nat)
    requires i < |es| && es[i] != Star && Matches(es, t) && Ascii(t)
    ensures TakesBut(es[i], '\0')
  {
    hide Takes;
    if es[0] == Star {
      var k :| 0 <= k <= |t| && Matches(es[1..], t[k..]);
      EveryTakes(es[1..], t[k..], i - 1);
    } else if i > 0 {
      EveryTakes(es[1..], t[1..], i - 1);
    }
  }

  /** Unless the pattern is misread, every match ends in glast's character. */
  lemma {:induction false} MatchEndsRight(pat: string, t: string)
    requires !Misread(pat) && !NoStar(Parse(pat)) && GLast(pat).Some? && Matches(Parse(pat), t) && Ascii(t)
    ensures t != "" && t[|t| - 1] == GLast(pat).value
  {
    hide Matches, Parse, GLast;
    var es := Parse(pat);
    LastOf(pat);
    var e := Final(pat);
    MatchEnds(es, t);
    if e.Set? {
      forall i | 0 <= i < |es| ensures es[i] == Star || TakesBut(es[i], '\0') {
        if es[i] != Star { EveryTakes(es, t, i); }
      }
    }
  }

  lemma {:induction false} LastOf(pat: string)
    requires GLast(pat).Some?
    ensures Parse(pat) != [] && (Final(pat) == Lit(GLast(pat).value) || (Final(pat).Set? && GLast(pat).value == ']'))
  {
    LastIsFinal(pat);
  }

  /** A text that matches, each element taking a character of its own. */
  lemma {:induction false} Witness(es: seq<Elem>, c: char) returns (t: string)
    requires es != [] && es[|es| - 1] != Star && Takes(es[|es| - 1], c) && '\0' < c < 128 as char
    requires forall i :: 0 <= i < |es| ==> es[i] == Star || TakesBut(es[i], '\0')
    ensures Matches(es, t) && t != "" && t[|t| - 1] == c && Ascii(t)
  {
    hide Takes;
    if |es| == 1 {
      t := [c];
      assert es[1..] == [] && t[1..] == "";
    } else {
      t := Witness(es[1..], c);
      if es[0] == Star {
        assert t[0..] == t;
      } else {
        assert es[0] == Star || TakesBut(es[0], '\0');
        var d :| '\0' < d < 128 as char && Takes(es[0], d);
        assert ([d] + t)[1..] == t;
        t := [d] + t;
      }
    }
  }

  /** A misread pattern fails on some value: the whole of it matches, and nothing is cut. */
  lemma {:induction false} MisreadFails(pat: string) returns (v: string)
    requires Misread(pat)
    ensures Ascii(v) && Trimmed(v, pat, true, true) != Plainly(v, pat, true, true)
  {
    hide Matches, Parse, GLast, Takes, Try;
    LastOf(pat);
    var es := Parse(pat);
    var c: char :| '\0' < c < 128 as char && c != ']' && Takes(Final(pat), c);
    v := Witness(es, c);
    assert v[..|v|] == v;
    assert Good(v, es, true, None, |v|);
    TryBest(v, es, true, true, None, 0, |v|);
    TryFinds(v, es, true, true, GLast(pat), 0);
    TryFits(v, es, true, true, GLast(pat));
    TryFits(v, es, true, true, None);
  }

  /** xtrim answers what trying every cut answers, for every value and every way of trimming, exactly when
      the pattern is not misread. */
  lemma {:induction false} TrimExact(pat: string)
    ensures (forall v: string, pre: bool, lng: bool :: Ascii(v) ==> Trimmed(v, pat, pre, lng) == Plainly(v, pat, pre, lng))
            <==> !Misread(pat)
  {
    hide Matches, Parse, GLast, Trimmed, Plainly, Misread;
    if Misread(pat) {
      var v := MisreadFails(pat);
    } else {
      forall v: string, pre: bool, lng: bool | Ascii(v)
        ensures Trimmed(v, pat, pre, lng) == Plainly(v, pat, pre, lng)
      {
        TrimSame(v, pat, pre, lng);
      }
    }
  }

  /** Whether an element takes some character other than `c`: every one is tried. */
  method TakesOther(e: Elem, c: char) returns (yes: bool)
    ensures yes == TakesBut(e, c)
  {
    hide Takes;
    var d := 1;
    while d < 128
      invariant 1 <= d <= 128
      invariant forall k: char :: '\0' < k < d as char && k != c ==> !Takes(e, k)
    {
      if d as char != c && Takes(e, d as char) { return true; }
      d := d + 1;
    }
    return false;
  }

  /** The condition can be decided from the pattern alone. */
  method IsMisread(pat: string) returns (yes: bool)
    ensures yes == Misread(pat)
  {
    hide Parse, GLast, TakesBut;
    var es := Parse(pat);
    var last := FindLast(pat);
    if NoStar(es) || last.None? { return false; }
    LastOf(pat);
    if !Final(pat).Set? { return false; }
    yes := TakesOther(Final(pat), ']');
    if !yes { return; }
    for i := 0 to |es|
      invariant yes && forall k :: 0 <= k < i ==> es[k] == Star || TakesBut(es[k], '\0')
    {
      if es[i] != Star {
        yes := TakesOther(es[i], '\0');
        if !yes { return; }
      }
    }
  }

  lemma {:induction false} TrimSame(v: string, pat: string, pre: bool, lng: bool)
    requires !Misread(pat) && Ascii(v)
    ensures Trimmed(v, pat, pre, lng) == Plainly(v, pat, pre, lng)
  {
    hide Matches, Parse, GLast, Misread, Try;
    if Filter(pat, pre).Some? {
      forall i | 0 <= i <= |v| && Matches(Parse(pat), v[..i])
        ensures i > 0 && v[i - 1] == GLast(pat).value
      {
        MatchEndsRight(pat, v[..i]);
      }
      FilterHarmless(v, Parse(pat), lng, GLast(pat).value, 0);
    }
  }

  lemma {:induction false} ExampleBracket(q: string)
    requires q == "[A-\\]"
    ensures Bracket(q) == Some((Set(false, [Range('A', '\\')]), 5)) && q[5..] == ""
  {
    var r := q[1..];
    assert r == "A-\\]" && r[3..] == "]";
    assert FirstItem(r) == (Range('A', '\\'), 3);
    assert Items("]", false) == Some(([], 1));
    assert [Range('A', '\\')] + [] == [Range('A', '\\')];
  }

  lemma {:induction false} ExampleParse(p: string)
    requires p == "*[A-\\]"
    ensures Parse(p) == [Star, Set(false, [Range('A', '\\')])]
  {
    hide Bracket, Parse;
    var q := p[1..];
    assert q == "[A-\\]";
    ExampleBracket(q);
    ParseNext(p);
    ParseNext(q);
    EmptyMatches("");
  }

  lemma {:induction false} ExampleLast(p: string)
    requires p == "*[A-\\]"
    ensures GLast(p) == Some(']')
  {
    var q := p[..5];
    assert q == "*[A-\\" && q[..4] == "*[A-";
    assert Backs(q[..4]) == 0;
  }

  lemma {:induction false} ExampleMatches(es: seq<Elem>, t: string)
    requires es == [Star, Set(false, [Range('A', '\\')])] && t == "xB"
    ensures Matches(es, t) && Takes(es[1], 'B')
  {
    var e := es[1];
    assert InItem(e.items[0], 'B');
    assert es[1..] == [e] && [e][1..] == [];
    assert t[1..] == "B" && "B"[1..] == "";
    assert Matches(es[1..], t[1..]);
  }

  /** One such pattern, `*[A-\]`: the bracket is closed, so "xB" matches, but its `]` is taken for an escaped one. */
  lemma {:induction false} MisreadExample()
    ensures Misread("*[A-\\]")
    ensures Plainly("xB", "*[A-\\]", true, true) == "" && Trimmed("xB", "*[A-\\]", true, true) == "xB"
  {
    hide Matches, Parse, GLast, Takes, Try;
    var p, v := "*[A-\\]", "xB";
    ExampleParse(p);
    ExampleLast(p);
    ExampleMatches(Parse(p), v);
    assert v[..2] == v;
    assert Good(v, Parse(p), true, None, 2);
    TryBest(v, Parse(p), true, true, None, 0, 2);
    TryFits(v, Parse(p), true, true, None);
    NoBracketIn(v, Parse(p));
  }

  lemma {:induction false} NoBracketIn(v: string, es: seq<Elem>)
    requires ']' !in v
    ensures Try(v, es, true, true, Some(']'), 0) == None
  {
    hide Matches, Try;
    TryFinds(v, es, true, true, Some(']'), 0);
    TryFits(v, es, true, true, Some(']'));
  }
}
