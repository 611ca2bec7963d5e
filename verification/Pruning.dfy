/** xtrim, xfind, xrepl and xrepl_a: the shortcuts that spare gmatch a try, and what they would
    answer with no shortcut at all. */
module Pruning {
  import opened Bits
  import opened Patterns

  // ---- glen ----

  predicate NoStar(es: seq<Elem>) {
    forall i :: 0 <= i < |es| ==> es[i] != Star
  }

  /** Without a star, a match takes one character for each element. */
  lemma {:induction false} FixedLength(es: seq<Elem>, t: string)
    requires NoStar(es) && Matches(es, t)
    ensures |t| == |es|
  {
    hide Takes;
    if es != [] { FixedLength(es[1..], t[1..]); }
  }

  /** glen: how many characters a pattern always takes, or -1. */
  method GLen(pat: string) returns (n: int)
    requires GroupFree(pat)
    ensures n == if NoStar(Parse(pat)) then |Parse(pat)| else -1
  {
    hide FirstElem, Parse, GroupFree, Bracket;
    n := 0;
    var p := pat;
    ghost var done: seq<Elem> := [];
    assert done + Parse(p) == Parse(pat);
    while p != ""
      invariant GroupFree(p) && Parse(pat) == done + Parse(p) && n == |done| && NoStar(done)
      decreases |p|
    {
      ParseNext(p);
      GroupFreeNext(p);
      if p[0] == '*' {
        StarFirst(p);
        assert (done + Parse(p))[|done|] == Star;
        return -1;
      }
      NeedsOne(p);
      var k := ElemLength(p);
      done := done + [FirstElem(p).0];
      p := p[k..];
      n := n + 1;
    }
    EmptyMatches("");
  }

  method ElemLength(p: string) returns (k: nat)
    requires p != "" && p[0] != '*'
    ensures k == FirstElem(p).1
  {
    hide Bracket;
    if p[0] == '[' {
      var hit, end := Brk(p, '\0');
      return if end.Some? then end.value else 1;
    }
    return if p[0] == '\\' && |p| >= 2 then 2 else 1;
  }

  // ---- gfirst ----

  /** gfirst: the character a match must begin with, if the pattern begins with a literal. */
  function GFirst(p: string): Option<char> {
    if p == "" || p[0] == '*' || p[0] == '?' || p[0] == '[' || OpensGroup(p) then None
    else if p[0] == '\\' && |p| >= 2 then Some(p[1])
    else Some(p[0])
  }

  lemma {:induction false} FirstIsLiteral(p: string, t: string)
    requires GFirst(p).Some? && Matches(Parse(p), t)
    ensures t != "" && t[0] == GFirst(p).value
  {
    hide Matches;
    ParseNext(p);
    MatchOne(FirstElem(p).0, Parse(p[FirstElem(p).1..]), t);
  }

  // ---- glast ----

  /** How many backslashes stand right before the end. */
  function Backs(p: string): (k: nat)
    ensures k <= |p|
  {
    if p != "" && p[|p| - 1] == '\\' then Backs(p[..|p| - 1]) + 1 else 0
  }

  predicate Odd(n: nat) { n % 2 == 1 }

  /** Whether an odd number of backslashes stands before the last character. */
  predicate LastEscaped(p: string)
    requires p != ""
  {
    Odd(Backs(p[..|p| - 1]))
  }

  method CountBacks(p: string) returns (k: nat)
    ensures k == Backs(p)
  {
    k := 0;
    assert p[..|p|] == p;
    while k < |p| && p[|p| - 1 - k] == '\\'
      invariant k <= |p| && Backs(p) == k + Backs(p[..|p| - k])
    {
      assert p[..|p| - k][..|p| - k - 1] == p[..|p| - k - 1];
      k := k + 1;
    }
  }

  /** glast: the character a match must end with, if the pattern ends with a literal. */
  function GLast(p: string): Option<char> {
    if p == "" then None
    else
      var c := p[|p| - 1];
      if LastEscaped(p) then Some(c)
      else if c in "*?])\\" then None
      else Some(c)
  }

  method FindLast(p: string) returns (r: Option<char>)
    ensures r == GLast(p)
  {
    if p == "" { return None; }
    var c := p[|p| - 1];
    var k := CountBacks(p[..|p| - 1]);
    if k % 2 == 1 { return Some(c); }
    if c in "*?])\\" { return None; }
    return Some(c);
  }

  lemma {:induction false} BacksConcat(a: string, q: string)
    ensures Backs(a + q) == if Backs(q) == |q| then |q| + Backs(a) else Backs(q)
  {
    if q == "" {
      assert a + q == a;
    } else {
      var k := |q| - 1;
      assert (a + q)[..|a + q| - 1] == a + q[..k];
      BacksConcat(a, q[..k]);
    }
  }

  /** An element ends with an even number of backslashes, unless it is a lone one at the end. */
  lemma {:induction false} ElemBacks(p: string)
    requires p != "" && FirstElem(p).1 < |p|
    ensures !Odd(Backs(p[..FirstElem(p).1]))
  {
    hide Bracket;
    var n := FirstElem(p).1;
    var e := p[..n];
    if p[0] == '[' && Bracket(p).Some? {
      BracketCloses(p);
    } else if p[0] == '\\' {
      assert e[..1] == "\\" && e[..1][..0] == "";
    }
  }

  lemma {:induction false} BracketCloses(p: string)
    requires p != "" && Bracket(p).Some?
    ensures Bracket(p).value.0.Set? && 2 <= Bracket(p).value.1 <= |p| && p[Bracket(p).value.1 - 1] == ']'
  {
  }

  /** What is escaped at the end of a pattern is escaped at the end of what follows its first element. */
  lemma {:induction false} RestBacks(p: string)
    requires p != "" && FirstElem(p).1 < |p|
    ensures Odd(Backs(p)) == Odd(Backs(p[FirstElem(p).1..])) && LastEscaped(p) == LastEscaped(p[FirstElem(p).1..])
  {
    hide FirstElem, Backs;
    var n := FirstElem(p).1;
    ElemFits(p);
    ElemBacks(p);
    assert p == p[..n] + p[n..];
    BacksConcat(p[..n], p[n..]);
    assert p[..|p| - 1] == p[..n] + p[n..][..|p| - n - 1];
    BacksConcat(p[..n], p[n..][..|p| - n - 1]);
  }

  /** The last element of a pattern. */
  function Final(p: string): Elem
    requires Parse(p) != []
  {
    Parse(p)[|Parse(p)| - 1]
  }

  lemma {:induction false} FinalRest(p: string)
    requires p != ""
    ensures Parse(p) != []
    ensures FirstElem(p).1 == |p| ==> Final(p) == FirstElem(p).0
    ensures FirstElem(p).1 < |p| ==> Parse(p[FirstElem(p).1..]) != [] && Final(p) == Final(p[FirstElem(p).1..])
  {
    hide FirstElem, Parse;
    ParseNext(p);
    if FirstElem(p).1 == |p| {
      assert p[FirstElem(p).1..] == "";
      EmptyMatches("");
    } else {
      ParseNext(p[FirstElem(p).1..]);
    }
  }

  /** glast's character is the last element, or that is a bracket an escaped `]` closes all the same. */
  lemma {:induction false} LastIsFinal(p: string)
    requires p != ""
    ensures Parse(p) != [] && (Final(p).Set? ==> p[|p| - 1] == ']')
    ensures GLast(p).Some? && !Final(p).Set? ==> Final(p) == Lit(GLast(p).value)
    ensures GLast(p).Some? ==> GLast(p).value == p[|p| - 1]
    decreases |p|
  {
    hide Parse, Bracket, Final;
    FinalRest(p);
    var (e, n) := FirstElem(p);
    ElemFits(p);
    assert 1 <= n <= |p|;
    if n < |p| {
      LastIsFinal(p[n..]);
      RestBacks(p);
    } else {
      if p[0] == '[' && Bracket(p).Some? { BracketCloses(p); }
      if !e.Set? { WholeElem(p); }
    }
  }

  lemma {:induction false} WholeElem(p: string)
    requires p != "" && FirstElem(p).1 == |p| && !FirstElem(p).0.Set?
    ensures LastEscaped(p) ==> FirstElem(p).0 == Lit(p[|p| - 1])
    ensures !LastEscaped(p) && p[|p| - 1] !in "*?])\\" ==> FirstElem(p).0 == Lit(p[|p| - 1])
  {
    hide Bracket;
    if p[0] == '\\' && |p| >= 2 { assert p[..1][..0] == ""; }
    if p[0] == '[' && Bracket(p).Some? { BracketCloses(p); }
  }

  /** A match ends with a character the last element takes. */
  lemma {:induction false} MatchEnds(es: seq<Elem>, t: string)
    requires es != [] && es[|es| - 1] != Star && Matches(es, t)
    ensures t != "" && Takes(es[|es| - 1], t[|t| - 1])
  {
    hide Takes;
    if |es| == 1 {
      assert es[1..] == [] && t[1..] == "";
    } else if es[0] == Star {
      var k :| 0 <= k <= |t| && Matches(es[1..], t[k..]);
      MatchEnds(es[1..], t[k..]);
    } else {
      MatchEnds(es[1..], t[1..]);
    }
  }

  // ---- gwrap ----

  /** gwrap: the pattern with a star before it, after it or both. */
  function Wrap(pat: string, pre: bool, post: bool): Option<string> {
    if (pre && pat != "" && pat[0] == '(') || (post && Odd(Backs(pat))) then None
    else Some((if pre then "*" else "") + pat + (if post then "*" else ""))
  }

  method GWrap(pat: string, pre: bool, post: bool) returns (r: Option<string>)
    ensures r == Wrap(pat, pre, post)
  {
    if pre && pat != "" && pat[0] == '(' { return None; }
    var k := CountBacks(pat);
    if post && k % 2 == 1 { return None; }
    var b := if pre then "*" else "";
    b := b + pat;
    b := b + (if post then "*" else "");
    return Some(b);
  }

  /** A star at the end neither closes a class nor a bracket. */
  lemma {:induction false} ClassEndStar(q: string)
    ensures ClassEnd(q + "*") == ClassEnd(q)
  {
    var s := q + "*";
    if |q| >= 1 {
      assert s[1..] == q[1..] + "*" && s[0] == q[0] && s[1] == if |q| >= 2 then q[1] else '*';
      ClassEndStar(q[1..]);
      assert |q| >= 2 ==> ClassEnd(s) == ClassEnd(q);
      assert |q| == 1 ==> ClassEnd(s[1..]) == None;
    }
  }

  lemma {:induction false} ItemStar(q: string)
    requires q != "" && q != "\\" && !(|q| == 2 && q[0] != '\\' && q[1] == '-')
    ensures FirstItem(q + "*") == FirstItem(q)
  {
    hide ClassEnd;
    var s := q + "*";
    if |q| >= 2 {
      assert s[2..] == q[2..] + "*";
      ClassEndStar(q[2..]);
      ClassEndFits(q[2..]);
      if q[0] == '[' && q[1] == ':' && ClassEnd(q[2..]).Some? {
        var e := ClassEnd(q[2..]).value;
        assert s[2..e + 2] == q[2..e + 2];
      }
    }
  }

  lemma {:induction false} ClassEndFits(q: string)
    ensures ClassEnd(q).Some? ==> ClassEnd(q).value + 2 <= |q|
  {
  }

  lemma {:induction false} ItemsStar(q: string, first: bool)
    ensures Items(q + "*", first) == Items(q, first)
    decreases |q|
  {
    hide FirstItem;
    var s := q + "*";
    if q == "" {
      LastItem(s);
    } else if q == "\\" || (|q| == 2 && q[0] != '\\' && q[1] == '-') {
      if q[0] != ']' || first { NeverCloses(q); }
    } else if q[0] != ']' || first {
      ItemStar(q);
      ItemFits(q);
      var n := FirstItem(q).1;
      assert s[n..] == q[n..] + "*";
      ItemsStar(q[n..], false);
    }
  }

  lemma {:induction false} LastItem(s: string)
    requires s == "*"
    ensures FirstItem(s).1 == 1 && s[1..] == ""
  {
  }

  lemma {:induction false} NeverCloses(q: string)
    requires q == "\\" || (|q| == 2 && q[0] != '\\' && q[1] == '-')
    ensures FirstItem(q).1 == 1 && Items(q[1..], false) == None
    ensures FirstItem(q + "*").1 == |q| + 1 && (q + "*")[|q| + 1..] == ""
  {
    assert Items("", false) == None;
    if |q| == 2 {
      var r := q[1..];
      assert r == "-" && r[1..] == "" && FirstItem(r).1 == 1;
    } else {
      assert q[1..] == "";
    }
  }

  lemma {:induction false} ElemStar(p: string)
    requires p != "" && p != "\\"
    ensures FirstElem(p + "*") == FirstElem(p)
  {
    hide Items;
    var s := p + "*";
    var n := if Negates(p) then 2 else 1;
    assert Negates(s) == Negates(p);
    assert s[n..] == p[n..] + "*";
    ItemsStar(p[n..], true);
  }

  /** A pattern with a star after it is its elements with a star after them. */
  lemma {:induction false} ParseStar(p: string)
    requires !Odd(Backs(p))
    ensures Parse(p + "*") == Parse(p) + [Star] && (GroupFree(p) ==> GroupFree(p + "*"))
    decreases |p|
  {
    hide FirstElem, Backs;
    var s := p + "*";
    if p == "" {
      StarFirst(s);
      assert s[1..] == "";
    } else {
      LoneBack(p);
      ElemStar(p);
      ElemFits(p);
      var n := FirstElem(p).1;
      assert s[n..] == p[n..] + "*";
      if n < |p| { RestBacks(p); } else { NoBacks(p[n..]); }
      ParseStar(p[n..]);
    }
  }

  lemma {:induction false} OneBack()
    ensures Backs("\\") == 1
  {
    assert "\\"[..0] == "";
  }

  lemma {:induction false} LoneBack(p: string)
    requires !Odd(Backs(p))
    ensures p != "\\"
  {
    OneBack();
  }

  lemma {:induction false} NoBacks(p: string)
    requires p == ""
    ensures Backs(p) == 0
  {
  }

  /** Some part of the text matches: from its start unless `pre`, to its end unless `post`. */
  ghost predicate PartMatches(es: seq<Elem>, t: string, pre: bool, post: bool) {
    exists a, b :: 0 <= a <= b <= |t| && (a == 0 || pre) && (b == |t| || post) && Matches(es, t[a..b])
  }

  lemma {:induction false} MatchStarAfter(es: seq<Elem>, t: string)
    ensures Matches(es + [Star], t) <==> exists b :: 0 <= b <= |t| && Matches(es, t[..b])
    decreases |es|, 1
  {
    hide Takes;
    if es == [] {
      assert es + [Star] == [Star];
      LoneStar(t);
      assert Matches(es, t[..0]);
    } else {
      var s := es + [Star];
      assert s[1..] == es[1..] + [Star] && s[0] == es[0];
      if es[0] == Star {
        StarThenStar(es, t);
      } else {
        if t != "" { OneThenStar(es, t); } else { assert forall b :: 0 <= b <= |t| ==> t[..b] == ""; }
      }
    }
  }

  lemma {:induction false} StarThenStar(es: seq<Elem>, t: string)
    requires es != [] && es[0] == Star
    ensures Matches(es + [Star], t) <==> exists b :: 0 <= b <= |t| && Matches(es, t[..b])
    decreases |es|, 0
  {
    var s := es + [Star];
    assert s[1..] == es[1..] + [Star] && s[0] == es[0];
    if Matches(s, t) {
      var k :| 0 <= k <= |t| && Matches(s[1..], t[k..]);
      MatchStarAfter(es[1..], t[k..]);
      var b :| 0 <= b <= |t| - k && Matches(es[1..], t[k..][..b]);
      assert t[..k + b][k..] == t[k..][..b];
      StarFront(es, t[..k + b], k);
    }
    if b :| 0 <= b <= |t| && Matches(es, t[..b]) {
      var k :| 0 <= k <= b && Matches(es[1..], t[..b][k..]);
      assert t[..b][k..] == t[k..][..b - k];
      MatchStarAfter(es[1..], t[k..]);
      StarFront(s, t, k);
    }
  }

  lemma {:induction false} StarFront(es: seq<Elem>, t: string, k: nat)
    requires es != [] && es[0] == Star && k <= |t| && Matches(es[1..], t[k..])
    ensures Matches(es, t)
  {
  }

  lemma {:induction false} OneThenStar(es: seq<Elem>, t: string)
    requires es != [] && es[0] != Star && t != ""
    ensures Matches(es + [Star], t) <==> exists b :: 0 <= b <= |t| && Matches(es, t[..b])
    decreases |es|, 0
  {
    hide Takes;
    var s := es + [Star];
    assert s[1..] == es[1..] + [Star] && s[0] == es[0];
    MatchStarAfter(es[1..], t[1..]);
    if Matches(s, t) {
      var b :| 0 <= b <= |t| - 1 && Matches(es[1..], t[1..][..b]);
      assert t[..b + 1][1..] == t[1..][..b];
      assert Matches(es, t[..b + 1]);
    }
    if b :| 0 <= b <= |t| && Matches(es, t[..b]) {
      assert b > 0 && t[..b][1..] == t[1..][..b - 1];
    }
  }

  /** The starred pattern matches exactly when some part of the text could. */
  lemma {:induction false} WrapMeans(pat: string, pre: bool, post: bool, t: string)
    requires GroupFree(pat) && Wrap(pat, pre, post).Some?
    ensures GroupFree(Wrap(pat, pre, post).value)
    ensures Matches(Parse(Wrap(pat, pre, post).value), t) <==> PartMatches(Parse(pat), t, pre, post)
  {
    hide Matches, Parse, GroupFree, Backs;
    var q := pat + (if post then "*" else "");
    var es := Parse(pat) + (if post then [Star] else []);
    if post { ParseStar(pat); } else { assert q == pat && es == Parse(pat); }
    assert GroupFree(q) && Parse(q) == es;
    if pre {
      assert Wrap(pat, pre, post).value == "*" + q;
      StarBefore(q);
    } else {
      assert Wrap(pat, pre, post).value == q;
    }
    assert [] + es == es && Parse(pat) + [] == Parse(pat);
    StarsMean(Parse(pat), t, pre, post);
  }

  lemma {:induction false} StarBefore(q: string)
    requires GroupFree(q) && (q == "" || q[0] != '(')
    ensures GroupFree("*" + q) && Parse("*" + q) == [Star] + Parse(q)
  {
    hide FirstElem;
    var s := "*" + q;
    StarFirst(s);
    assert s[1..] == q;
  }

  lemma {:induction false} StarsMean(es: seq<Elem>, t: string, pre: bool, post: bool)
    ensures Matches((if pre then [Star] else []) + (es + (if post then [Star] else [])), t) <==> PartMatches(es, t, pre, post)
  {
    hide Matches;
    var s := es + (if post then [Star] else []);
    assert [] + s == s && t[0..] == t;
    if pre { StarPart(s, t); }
    var w := (if pre then [Star] else []) + s;
    if Matches(w, t) {
      var a := 0;
      if pre { a :| 0 <= a <= |t| && Matches(s, t[a..]); }
      PartFrom(es, t, a, post);
    }
    if PartMatches(es, t, pre, post) {
      var a, b :| 0 <= a <= b <= |t| && (a == 0 || pre) && (b == |t| || post) && Matches(es, t[a..b]);
      PartFrom(es, t, a, post);
    }
  }

  lemma {:induction false} StarPart(s: seq<Elem>, t: string)
    ensures Matches([Star] + s, t) <==> exists a :: 0 <= a <= |t| && Matches(s, t[a..])
  {
    assert ([Star] + s)[1..] == s;
  }

  lemma {:induction false} PartFrom(es: seq<Elem>, t: string, a: nat, post: bool)
    requires a <= |t|
    ensures Matches(es + (if post then [Star] else []), t[a..]) <==>
            exists b :: a <= b <= |t| && (b == |t| || post) && Matches(es, t[a..b])
  {
    hide Matches;
    if post {
      MatchStarAfter(es, t[a..]);
      if b :| 0 <= b <= |t| - a && Matches(es, t[a..][..b]) { assert t[a..a + b] == t[a..][..b]; }
      if b :| a <= b <= |t| && Matches(es, t[a..b]) { assert t[a..b] == t[a..][..b - a]; }
    } else {
      assert es + [] == es && t[a..|t|] == t[a..];
    }
  }
}
