/** Shell patterns: what a pattern means, and gmatch, which decides it by backtracking.

    Text and patterns are ASCII, so a character is a byte; patterns hold no extended group. */
module Patterns {
  import opened Bits

  /** What one bracket item takes: a named class, or the characters from `lo` to `hi`. */
  datatype Item = Class(name: string) | Range(lo: char, hi: char)

  /** One element of a pattern. */
  datatype Elem = Star | Any | Lit(c: char) | Set(neg: bool, items: seq<Item>)

  // ---- bracket expressions ----

  predicate Between(c: char, lo: char, hi: char) { lo <= c <= hi }

  predicate IsUpper(c: char) { Between(c, 'A', 'Z') }
  predicate IsLower(c: char) { Between(c, 'a', 'z') }
  predicate IsAlpha(c: char) { IsUpper(c) || IsLower(c) }
  predicate IsDigit(c: char) { Between(c, '0', '9') }
  predicate IsGraph(c: char) { Between(c, '!', '~') }

  /** gclass: the POSIX classes in the C locale; an unknown name holds nothing. */
  predicate InClass(name: string, c: char) {
    || (name == "alnum" && (IsAlpha(c) || IsDigit(c)))
    || (name == "alpha" && IsAlpha(c))
    || (name == "blank" && (c == ' ' || c == '\t'))
    || (name == "cntrl" && (c < ' ' || c == 127 as char))
    || (name == "digit" && IsDigit(c))
    || (name == "graph" && IsGraph(c))
    || (name == "lower" && IsLower(c))
    || (name == "print" && (c == ' ' || IsGraph(c)))
    || (name == "punct" && IsGraph(c) && !IsAlpha(c) && !IsDigit(c))
    || (name == "space" && (c == ' ' || Between(c, 9 as char, 13 as char)))
    || (name == "upper" && IsUpper(c))
    || (name == "xdigit" && (IsDigit(c) || Between(c, 'A', 'F') || Between(c, 'a', 'f')))
  }

  predicate InItem(it: Item, c: char) {
    match it
    case Class(name) => InClass(name, c)
    case Range(lo, hi) => lo <= c <= hi
  }

  /** Where ":]" first stands in `q`. */
  function ClassEnd(q: string): (r: Option<nat>)
    ensures r.Some? ==> r.value + 2 <= |q|
  {
    if |q| < 2 then None
    else if q[0] == ':' && q[1] == ']' then Some(0)
    else
      match ClassEnd(q[1..])
      case None => None
      case Some(e) => Some(e + 1)
  }

  /** The item at the front of `q`, and how many bytes it takes. */
  function FirstItem(q: string): (r: (Item, nat))
    requires q != ""
    ensures 1 <= r.1 <= |q|
  {
    if |q| >= 2 && q[0] == '[' && q[1] == ':' && ClassEnd(q[2..]).Some? then
      var e := ClassEnd(q[2..]).value;
      (Class(q[2..e + 2]), e + 4)
    else if q[0] == '\\' && |q| >= 2 then (Range(q[1], q[1]), 2)
    else if |q| >= 3 && q[1] == '-' && q[2] != ']' then (Range(q[0], q[2]), 3)
    else (Range(q[0], q[0]), 1)
  }

  /** The items up to the closing bracket, and how many bytes they and it take; None when it is never closed.
      A `]` that comes first is an ordinary character. */
  function Items(q: string, first: bool): (r: Option<(seq<Item>, nat)>)
    ensures r.Some? ==> 1 <= r.value.1 <= |q| && q[r.value.1 - 1] == ']'
  {
    if q == "" then None
    else if q[0] == ']' && !first then Some(([], 1))
    else
      var (it, n) := FirstItem(q);
      match Items(q[n..], false)
      case None => None
      case Some((s, m)) => Some(([it] + s, n + m))
  }

  predicate Negates(p: string) {
    |p| >= 2 && (p[1] == '!' || p[1] == '^')
  }

  /** The bracket expression that opens `p`, and how many bytes it takes. */
  function Bracket(p: string): (r: Option<(Elem, nat)>)
    requires p != ""
    ensures r.Some? ==> r.value.0.Set? && 2 <= r.value.1 <= |p| && p[r.value.1 - 1] == ']'
  {
    var n := if Negates(p) then 2 else 1;
    match Items(p[n..], true)
    case None => None
    case Some((s, m)) => Some((Set(Negates(p), s), n + m))
  }

  // ---- what a pattern means ----

  /** The first element of a pattern, and how many bytes it takes. An unclosed bracket is an ordinary character. */
  function FirstElem(p: string): (r: (Elem, nat))
    requires p != ""
    ensures 1 <= r.1 <= |p|
  {
    if p[0] == '*' then (Star, 1)
    else if p[0] == '?' then (Any, 1)
    else if p[0] == '[' && Bracket(p).Some? then Bracket(p).value
    else if p[0] == '\\' && |p| >= 2 then (Lit(p[1]), 2)
    else (Lit(p[0]), 1)
  }

  function Parse(p: string): seq<Elem> {
    if p == "" then []
    else
      var (e, n) := FirstElem(p);
      [e] + Parse(p[n..])
  }

  /** Whether an element other than a star takes a character. */
  predicate Takes(e: Elem, c: char) {
    match e
    case Star => false
    case Any => true
    case Lit(d) => c == d
    case Set(neg, items) => (exists i :: 0 <= i < |items| && InItem(items[i], c)) != neg
  }

  /** A star takes any run of characters, every other element one. */
  ghost predicate Matches(es: seq<Elem>, t: string) {
    if es == [] then t == ""
    else if es[0] == Star then exists k :: 0 <= k <= |t| && Matches(es[1..], t[k..])
    else t != "" && Takes(es[0], t[0]) && Matches(es[1..], t[1..])
  }

  // ---- gbrk ----

  predicate OpensGroup(p: string) {
    |p| >= 2 && p[1] == '(' && p[0] in "?*+@!"
  }

  /** No element is an extended group. */
  predicate GroupFree(p: string) {
    p != "" ==> !OpensGroup(p) && GroupFree(p[FirstElem(p).1..])
  }

  method FindClassEnd(q: string) returns (r: Option<nat>)
    ensures r == ClassEnd(q)
  {
    var i: nat := 0;
    while i + 1 < |q|
      invariant i <= |q|
      invariant ClassEnd(q) == match ClassEnd(q[i..]) case None => None case Some(e) => Some(i + e)
    {
      if q[i] == ':' && q[i + 1] == ']' { return Some(i); }
      i := i + 1;
    }
    return None;
  }

  /** Whether `c` is one of the items. */
  predicate Hit(s: seq<Item>, c: char) {
    exists i :: 0 <= i < |s| && InItem(s[i], c)
  }

  lemma {:induction false} HitSnoc(s: seq<Item>, it: Item, c: char)
    ensures Hit(s + [it], c) <==> Hit(s, c) || InItem(it, c)
  {
    if InItem(it, c) { assert InItem((s + [it])[|s|], c); }
    if Hit(s, c) {
      var i :| 0 <= i < |s| && InItem(s[i], c);
      assert InItem((s + [it])[i], c);
    }
  }

  /** One turn of gbrk's loop. */
  method TakeItem(q: string, c: char) returns (hit: bool, n: nat)
    requires q != ""
    ensures n == FirstItem(q).1 && hit == InItem(FirstItem(q).0, c)
  {
    if |q| >= 2 && q[0] == '[' && q[1] == ':' {
      var e := FindClassEnd(q[2..]);
      if e.Some? { return InClass(q[2..e.value + 2], c), e.value + 4; }
    }
    if q[0] == '\\' && |q| >= 2 { return c == q[1], 2; }
    if |q| >= 3 && q[1] == '-' && q[2] != ']' { return q[0] <= c <= q[2], 3; }
    return c == q[0], 1;
  }

  /** The items and length found so far, before what is still to come. */
  function After(seen: seq<Item>, k: nat, r: Option<(seq<Item>, nat)>): Option<(seq<Item>, nat)> {
    match r
    case None => None
    case Some((s, m)) => Some((seen + s, k + m))
  }

  lemma {:induction false} AfterNothing(r: Option<(seq<Item>, nat)>)
    ensures After([], 0, r) == r
  {
    if r.Some? { assert [] + r.value.0 == r.value.0; }
  }

  lemma {:induction false} AfterOne(q: string, first: bool, seen: seq<Item>, k: nat)
    requires q != "" && (q[0] != ']' || first)
    ensures var (it, n) := FirstItem(q);
            After(seen, k, Items(q, first)) == After(seen + [it], k + n, Items(q[n..], false))
  {
    hide FirstItem;
    assert 1 <= FirstItem(q).1 <= |q| by { ItemFits(q); }
    var (it, n) := FirstItem(q);
    match Items(q[n..], false)
    case None =>
    case Some((s, m)) => assert seen + ([it] + s) == seen + [it] + s;
  }

  lemma {:induction false} ItemFits(q: string)
    requires q != ""
    ensures 1 <= FirstItem(q).1 <= |q|
  {
  }

  /** gbrk: where the bracket closes, if it does, and whether it takes `c`. */
  method Brk(p: string, c: char) returns (hit: bool, end: Option<nat>)
    requires p != ""
    ensures Bracket(p).None? ==> end == None
    ensures Bracket(p).Some? ==> end == Some(Bracket(p).value.1) && hit == Takes(Bracket(p).value.0, c)
  {
    hide Items, FirstItem, Hit, After;
    var neg := Negates(p);
    var start: nat := if neg then 2 else 1;
    var q := start;
    var first := true;
    hit := false;
    ghost var seen: seq<Item> := [];
    AfterNothing(Items(p[start..], true));
    NoHit(c);
    while q < |p| && (p[q] != ']' || first)
      invariant start <= q <= |p| && hit == Hit(seen, c)
      invariant Items(p[start..], true) == After(seen, q - start, Items(p[q..], first))
      decreases |p| - q
    {
      ItemFits(p[q..]);
      var h, n := TakeItem(p[q..], c);
      HitSnoc(seen, FirstItem(p[q..]).0, c);
      AfterOne(p[q..], first, seen, q - start);
      assert p[q..][n..] == p[q + n..];
      seen := seen + [FirstItem(p[q..]).0];
      hit := hit || h;
      q := q + n;
      first := false;
    }
    BrkEnds(p, start, q, first, seen, c);
    if q == |p| { return false, None; }
    return hit != neg, Some(q + 1);
  }

  lemma {:induction false} NoHit(c: char)
    ensures !Hit([], c)
  {
  }

  lemma {:induction false} BrkEnds(p: string, start: nat, q: nat, first: bool, seen: seq<Item>, c: char)
    requires p != "" && start == (if Negates(p) then 2 else 1) && start <= q <= |p|
    requires Items(p[start..], true) == After(seen, q - start, Items(p[q..], first))
    requires q == |p| || (p[q] == ']' && !first)
    ensures q == |p| ==> Bracket(p) == None
    ensures q < |p| ==> Bracket(p) == Some((Set(Negates(p), seen), q + 1)) && (Takes(Set(Negates(p), seen), c) <==> Hit(seen, c) != Negates(p))
  {
    if q == |p| { assert p[q..] == ""; }
    assert seen + [] == seen;
  }

  // ---- gmatch ----

  lemma {:induction false} ParseNext(p: string)
    requires p != ""
    ensures 1 <= FirstElem(p).1 <= |p| && Parse(p) == [FirstElem(p).0] + Parse(p[FirstElem(p).1..])
  {
    hide FirstElem;
    assert 1 <= FirstElem(p).1 <= |p| by { ElemFits(p); }
  }

  lemma {:induction false} ElemFits(p: string)
    requires p != ""
    ensures 1 <= FirstElem(p).1 <= |p|
  {
  }

  lemma {:induction false} MatchOne(e: Elem, es: seq<Elem>, t: string)
    requires e != Star
    ensures Matches([e] + es, t) <==> t != "" && Takes(e, t[0]) && Matches(es, t[1..])
  {
    hide Takes;
    assert ([e] + es)[1..] == es;
  }

  /** A star takes nothing, or a character and goes on. */
  lemma {:induction false} MatchStar(es: seq<Elem>, t: string)
    ensures Matches([Star] + es, t) <==> Matches(es, t) || (t != "" && Matches([Star] + es, t[1..]))
  {
    hide Takes;
    var s := [Star] + es;
    assert s[1..] == es;
    if Matches(es, t) { assert t[0..] == t; }
    if t != "" && Matches(s, t[1..]) {
      var k :| 0 <= k <= |t| - 1 && Matches(es, t[1..][k..]);
      assert t[1..][k..] == t[k + 1..];
    }
    if Matches(s, t) {
      var k :| 0 <= k <= |t| && Matches(es, t[k..]);
      if k == 0 { assert t[0..] == t; } else { assert t[k..] == t[1..][k - 1..]; }
    }
  }

  lemma {:induction false} LoneStar(t: string)
    ensures Matches([Star], t)
  {
    assert [Star][1..] == [] && t[|t|..] == "";
    assert Matches([], t[|t|..]);
  }

  lemma {:induction false} GroupFreeNext(p: string)
    requires p != "" && GroupFree(p)
    ensures !OpensGroup(p) && GroupFree(p[FirstElem(p).1..])
  {
  }

  /** gmatch: a pattern with no extended group against a text. */
  method GMatch(pat: string, text: string) returns (ok: bool)
    requires GroupFree(pat)
    ensures ok == Matches(Parse(pat), text)
    decreases |pat|, 0
  {
    hide FirstElem, Matches, Takes, GroupFree, Parse;
    var p, t := pat, text;
    while p != ""
      invariant |p| <= |pat| && GroupFree(p) && (Matches(Parse(p), t) <==> Matches(Parse(pat), text))
      decreases |p|
    {
      ParseNext(p);
      GroupFreeNext(p);
      if p[0] == '*' {
        StarFirst(p);
        ok := MatchAfterStar(p[1..], t);
        return;
      }
      if t == "" {
        NeedsOne(p);
        return false;
      }
      var n := MatchElem(p, t);
      if n == 0 { return false; }
      p, t := p[n..], t[1..];
    }
    EmptyMatches(t);
    return t == "";
  }

  lemma {:induction false} StarFirst(p: string)
    requires p != "" && p[0] == '*'
    ensures FirstElem(p) == (Star, 1)
  {
  }

  lemma {:induction false} EmptyMatches(t: string)
    ensures Parse("") == [] && (Matches([], t) <==> t == "")
  {
  }

  lemma {:induction false} NeedsOne(p: string)
    requires p != "" && p[0] != '*'
    ensures FirstElem(p).0 != Star && !Matches(Parse(p), "")
  {
    hide Takes;
    ParseNext(p);
    MatchOne(FirstElem(p).0, Parse(p[FirstElem(p).1..]), "");
  }

  /** What follows a star is tried at every place. */
  method MatchAfterStar(p: string, text: string) returns (ok: bool)
    requires GroupFree(p)
    ensures ok == Matches([Star] + Parse(p), text)
    decreases |p|, 1
  {
    hide Matches, Parse, GroupFree;
    if p == "" {
      EmptyMatches("");
      LoneStar(text);
      assert [Star] + Parse(p) == [Star];
      return true;
    }
    var t := text;
    while t != ""
      invariant Matches([Star] + Parse(p), t) <==> Matches([Star] + Parse(p), text)
      decreases |t|
    {
      MatchStar(Parse(p), t);
      ok := GMatch(p, t);
      if ok { return; }
      t := t[1..];
    }
    MatchStar(Parse(p), t);
    ok := GMatch(p, t);
  }

  /** One element against one character: how many bytes of the pattern it was, or 0 when it does not take it. */
  method MatchElem(p: string, t: string) returns (n: nat)
    requires p != "" && p[0] != '*' && t != ""
    ensures n == 0 || n == FirstElem(p).1
    ensures n == 0 ==> !Matches(Parse(p), t)
    ensures n > 0 ==> (Matches(Parse(p), t) <==> Matches(Parse(p[n..]), t[1..]))
  {
    hide Bracket, Matches, Parse;
    ParseNext(p);
    NeedsOne(p);
    MatchOne(FirstElem(p).0, Parse(p[FirstElem(p).1..]), t);
    if p[0] == '?' { return 1; }
    if p[0] == '[' {
      var hit, end := Brk(p, t[0]);
      if end.None? { return if t[0] == '[' then 1 else 0; }
      return if hit then end.value else 0;
    }
    var i := if p[0] == '\\' && |p| >= 2 then 1 else 0;
    return if p[i] == t[0] then i + 1 else 0;
  }

  // ---- the meaning, without recursion ----

  /** Whether one piece of text is what an element takes. */
  predicate Fits(e: Elem, piece: string) {
    e == Star || (|piece| == 1 && Takes(e, piece[0]))
  }

  function Join(pieces: seq<string>): string {
    if pieces == [] then "" else pieces[0] + Join(pieces[1..])
  }

  /** One piece for each element, and together they are the text. */
  ghost predicate Cuts(es: seq<Elem>, t: string, pieces: seq<string>) {
    |pieces| == |es| && Join(pieces) == t && forall i :: 0 <= i < |es| ==> Fits(es[i], pieces[i])
  }

  lemma {:induction false} CutsMatch(es: seq<Elem>, t: string, pieces: seq<string>)
    requires Cuts(es, t, pieces)
    ensures Matches(es, t)
  {
    hide Takes;
    if es != [] {
      var a := pieces[0];
      assert t[|a|..] == Join(pieces[1..]);
      assert Fits(es[0], a);
      CutsMatch(es[1..], t[|a|..], pieces[1..]);
    }
  }

  lemma {:induction false} MatchCuts(es: seq<Elem>, t: string) returns (pieces: seq<string>)
    requires Matches(es, t)
    ensures Cuts(es, t, pieces)
  {
    hide Takes;
    if es == [] {
      pieces := [];
    } else {
      var k := 1;
      if es[0] == Star { k :| 0 <= k <= |t| && Matches(es[1..], t[k..]); }
      var rest := MatchCuts(es[1..], t[k..]);
      pieces := [t[..k]] + rest;
      assert pieces[1..] == rest && t[..k] + t[k..] == t;
    }
  }

  /** A pattern matches exactly the texts that can be cut into a piece for each element. */
  lemma {:induction false} MatchesMeansCuts(es: seq<Elem>, t: string)
    ensures Matches(es, t) <==> exists pieces :: Cuts(es, t, pieces)
  {
    if Matches(es, t) { var pieces := MatchCuts(es, t); }
    if pieces :| Cuts(es, t, pieces) { CutsMatch(es, t, pieces); }
  }
}
