/** What patterns are for, said of their text: quoted text matches itself, and a bracket expression takes the
    characters, ranges and classes written in it. The classes are given by their characters. */
module PatternLaws {
  import opened Bits
  import opened Patterns

  // ---- single elements ----

  lemma {:induction false} ParseOne(p: string)
    requires p != "" && FirstElem(p).1 == |p|
    ensures Parse(p) == [FirstElem(p).0]
  {
    assert p[|p|..] == "";
  }

  lemma {:induction false} OneMeans(e: Elem, t: string)
    requires e != Star
    ensures Matches([e], t) <==> |t| == 1 && Takes(e, t[0])
  {
    assert [e][1..] == [];
    assert t != "" ==> (Matches([], t[1..]) <==> |t| == 1);
  }

  /** A question mark takes any one character, a star any text. */
  lemma {:induction false} Wildcards(t: string)
    ensures Matches(Parse("?"), t) <==> |t| == 1
    ensures Matches(Parse("*"), t)
  {
    ParseOne("?");
    ParseOne("*");
    OneMeans(Any, t);
    assert [Star][1..] == [] && t[|t|..] == "";
    assert Matches([], t[|t|..]);
  }

  /** Every character behind a backslash. */
  function Slashed(s: string): string {
    if s == "" then "" else ['\\', s[0]] + Slashed(s[1..])
  }

  /** A text whose characters are all behind backslashes matches itself and nothing else. */
  lemma {:induction false} SlashedMeans(s: string, t: string)
    ensures Matches(Parse(Slashed(s)), t) <==> t == s
    decreases |s|
  {
    if s != "" {
      var p := Slashed(s);
      assert p[0] == '\\' && p[1] == s[0] && p[2..] == Slashed(s[1..]);
      assert Parse(p) == [Lit(s[0])] + Parse(Slashed(s[1..]));
      assert ([Lit(s[0])] + Parse(Slashed(s[1..])))[1..] == Parse(Slashed(s[1..]));
      if t != "" {
        SlashedMeans(s[1..], t[1..]);
        assert t == [t[0]] + t[1..] && s == [s[0]] + s[1..];
      }
    }
  }

  /** So does a text with nothing special in it. */
  lemma {:induction false} PlainMeans(s: string, t: string)
    requires forall i :: 0 <= i < |s| ==> s[i] !in "*?[\\"
    ensures Matches(Parse(s), t) <==> t == s
    decreases |s|
  {
    if s != "" {
      assert s[0] !in "*?[\\";
      assert FirstElem(s) == (Lit(s[0]), 1);
      assert Parse(s) == [Lit(s[0])] + Parse(s[1..]);
      assert ([Lit(s[0])] + Parse(s[1..]))[1..] == Parse(s[1..]);
      if t != "" {
        PlainMeans(s[1..], t[1..]);
        assert t == [t[0]] + t[1..] && s == [s[0]] + s[1..];
      }
    }
  }

  // ---- the classes ----

  const NAMES: seq<string> :=
    ["alnum", "alpha", "blank", "cntrl", "digit", "graph", "lower", "print", "punct", "space", "upper", "xdigit"]

  /** The characters of each class in ASCII, by their numbers. */
  predicate Holds(name: string, c: int) {
    match name
    case "alnum" => 48 <= c <= 57 || 65 <= c <= 90 || 97 <= c <= 122
    case "alpha" => 65 <= c <= 90 || 97 <= c <= 122
    case "blank" => c == 9 || c == 32
    case "cntrl" => c <= 31 || c == 127
    case "digit" => 48 <= c <= 57
    case "graph" => 33 <= c <= 126
    case "lower" => 97 <= c <= 122
    case "print" => 32 <= c <= 126
    case "punct" => 33 <= c <= 47 || 58 <= c <= 64 || 91 <= c <= 96 || 123 <= c <= 126
    case "space" => 9 <= c <= 13 || c == 32
    case "upper" => 65 <= c <= 90
    case "xdigit" => 48 <= c <= 57 || 65 <= c <= 70 || 97 <= c <= 102
    case _ => false
  }

  lemma {:induction false} ClassHolds(name: string, c: char)
    ensures InClass(name, c) == Holds(name, c as int)
  {
  }

  /** How the classes lie to each other. */
  lemma {:induction false} ClassLaws(c: int)
    requires 0 <= c < 128
    ensures Holds("alpha", c) == (Holds("upper", c) != Holds("lower", c))
    ensures Holds("alnum", c) == (Holds("alpha", c) != Holds("digit", c))
    ensures Holds("graph", c) == (Holds("alnum", c) != Holds("punct", c))
    ensures Holds("print", c) == (Holds("graph", c) != (c == 32))
    ensures Holds("print", c) != Holds("cntrl", c)
    ensures Holds("blank", c) ==> Holds("space", c)
    ensures Holds("digit", c) ==> Holds("xdigit", c) && (Holds("xdigit", c) ==> Holds("alnum", c))
  {
  }

  // ---- bracket expressions ----

  /** What may be written in a bracket expression: a character, one behind a backslash, a range, a class. */
  datatype Piece = One(c: char) | Quoted(c: char) | Span(lo: char, hi: char) | Named(name: string)

  function Written(x: Piece): string {
    match x
    case One(c) => [c]
    case Quoted(c) => ['\\', c]
    case Span(lo, hi) => [lo, '-', hi]
    case Named(name) => "[:" + name + ":]"
  }

  /** Bare characters with a meaning of their own are written behind a backslash. */
  predicate Proper(x: Piece) {
    match x
    case One(c) => c !in "\\[]-!^"
    case Quoted(_) => true
    case Span(lo, hi) => lo !in "\\[]-!^" && hi != ']'
    case Named(name) => name in NAMES
  }

  predicate Has(x: Piece, c: char) {
    match x
    case One(d) => c == d
    case Quoted(d) => c == d
    case Span(lo, hi) => lo <= c <= hi
    case Named(name) => Holds(name, c as int)
  }

  function WrittenAll(xs: seq<Piece>): string {
    if xs == [] then "" else Written(xs[0]) + WrittenAll(xs[1..])
  }

  function ItemOf(x: Piece): Item {
    match x
    case One(c) => Range(c, c)
    case Quoted(c) => Range(c, c)
    case Span(lo, hi) => Range(lo, hi)
    case Named(name) => Class(name)
  }

  ghost function ItemsOf(xs: seq<Piece>): seq<Item> {
    seq(|xs|, i requires 0 <= i < |xs| => ItemOf(xs[i]))
  }

  lemma {:induction false} ItemHas(x: Piece, c: char)
    ensures InItem(ItemOf(x), c) == Has(x, c)
  {
    hide InClass, Holds;
    if x.Named? { ClassHolds(x.name, c); }
  }

  lemma {:induction false} NameEnds(name: string, rest: string)
    requires ':' !in name
    ensures ClassEnd(name + (":]" + rest)) == Some(|name|)
    decreases |name|
  {
    if name == "" {
      assert name + (":]" + rest) == ":]" + rest;
    } else {
      assert (name + (":]" + rest))[1..] == name[1..] + (":]" + rest);
      NameEnds(name[1..], rest);
    }
  }

  lemma {:induction false} NamesPlain(name: string)
    requires name in NAMES
    ensures ':' !in name
  {
  }

  lemma {:induction false} PieceRead(x: Piece, rest: string)
    requires Proper(x) && rest != "" && rest[0] != '-'
    ensures FirstItem(Written(x) + rest) == (ItemOf(x), |Written(x)|)
  {
    var q := Written(x) + rest;
    if x.Named? {
      NamesPlain(x.name);
      NameEnds(x.name, rest);
      assert q == ['[', ':'] + (x.name + (":]" + rest));
      assert q[2..] == x.name + (":]" + rest);
      assert q[2..|x.name| + 2] == x.name;
    }
  }

  lemma {:induction false} WrittenBegins(x: Piece)
    requires Proper(x)
    ensures Written(x) != "" && Written(x)[0] !in "]-!^"
  {
  }

  lemma {:induction false} ItemsRead(xs: seq<Piece>, first: bool, rest: string)
    requires (forall i :: 0 <= i < |xs| ==> Proper(xs[i])) && (first ==> xs != [])
    ensures Items(WrittenAll(xs) + ("]" + rest), first) == Some((ItemsOf(xs), |WrittenAll(xs)| + 1))
    decreases |xs|
  {
    hide Proper, Written, FirstItem, ItemOf;
    var q := WrittenAll(xs) + ("]" + rest);
    if xs == [] {
      assert q == "]" + rest;
    } else {
      var x, more := xs[0], WrittenAll(xs[1..]) + ("]" + rest);
      assert q == Written(x) + more;
      WrittenBegins(x);
      if |xs| > 1 { WrittenBegins(xs[1]); }
      PieceRead(x, more);
      assert q[|Written(x)|..] == more;
      ItemsRead(xs[1..], false, rest);
      ItemsCons(xs);
    }
  }

  lemma {:induction false} ItemsCons(xs: seq<Piece>)
    requires xs != []
    ensures ItemsOf(xs) == [ItemOf(xs[0])] + ItemsOf(xs[1..])
  {
  }

  /** A bracket expression as it is written. */
  function Brackets(neg: bool, mark: char, xs: seq<Piece>): string {
    "[" + ((if neg then [mark] else "") + (WrittenAll(xs) + "]"))
  }

  lemma {:induction false} BracketRead(neg: bool, mark: char, xs: seq<Piece>)
    requires xs != [] && (forall i :: 0 <= i < |xs| ==> Proper(xs[i])) && mark in "!^"
    ensures FirstElem(Brackets(neg, mark, xs)) == (Set(neg, ItemsOf(xs)), |Brackets(neg, mark, xs)|)
  {
    hide Items, Proper, ItemsOf, WrittenAll, FirstElem;
    var inner := WrittenAll(xs) + "]";
    ItemsRead(xs, true, "");
    assert "]" + "" == "]";
    BracketBegins(xs[0], xs, inner);
    InnerRead(neg, mark, inner, ItemsOf(xs));
  }

  lemma {:induction false} BracketHead(neg: bool, mark: char, inner: string)
    requires inner != "" && inner[0] !in "!^" && mark in "!^"
    ensures var p := "[" + ((if neg then [mark] else "") + inner);
            p[0] == '[' && Negates(p) == neg && |p| == (if neg then 2 else 1) + |inner| && p[(if neg then 2 else 1)..] == inner
  {
  }

  lemma {:induction false} InnerRead(neg: bool, mark: char, inner: string, its: seq<Item>)
    requires inner != "" && inner[0] !in "!^" && mark in "!^" && Items(inner, true) == Some((its, |inner|))
    ensures var p := "[" + ((if neg then [mark] else "") + inner);
            FirstElem(p) == (Set(neg, its), |p|)
  {
    hide Items, Negates;
    BracketHead(neg, mark, inner);
    var p := "[" + ((if neg then [mark] else "") + inner);
    assert Bracket(p) == Some((Set(neg, its), |p|));
  }

  lemma {:induction false} SetHas(neg: bool, xs: seq<Piece>, c: char)
    ensures Takes(Set(neg, ItemsOf(xs)), c) == ((exists i :: 0 <= i < |xs| && Has(xs[i], c)) != neg)
  {
    hide InItem, Has, ItemOf;
    var its := ItemsOf(xs);
    forall i | 0 <= i < |xs| ensures InItem(its[i], c) == Has(xs[i], c) { ItemHas(xs[i], c); }
  }

  /** A bracket expression takes the characters of its pieces, and with `!` or `^` before them all others. */
  lemma {:induction false} BracketMeans(neg: bool, mark: char, xs: seq<Piece>, t: string)
    requires xs != [] && (forall i :: 0 <= i < |xs| ==> Proper(xs[i])) && mark in "!^"
    ensures Matches(Parse(Brackets(neg, mark, xs)), t)
        <==> |t| == 1 && (exists i :: 0 <= i < |xs| && Has(xs[i], t[0])) != neg
  {
    hide FirstElem, Proper, Has, Matches, Takes, ItemsOf, Brackets, Parse;
    assert Brackets(neg, mark, xs) != "" by { BracketSome(neg, mark, xs); }
    BracketRead(neg, mark, xs);
    ParseOne(Brackets(neg, mark, xs));
    OneMeans(Set(neg, ItemsOf(xs)), t);
    if |t| == 1 { SetHas(neg, xs, t[0]); }
  }

  lemma {:induction false} BracketSome(neg: bool, mark: char, xs: seq<Piece>)
    ensures Brackets(neg, mark, xs) != ""
  {
  }

  lemma {:induction false} BracketBegins(x: Piece, xs: seq<Piece>, inner: string)
    requires xs != [] && x == xs[0] && Proper(x) && inner == WrittenAll(xs) + "]"
    ensures |inner| >= 2 && inner[0] !in "]-!^"
  {
    WrittenBegins(x);
  }

  /** So each class takes exactly the characters it is made of. */
  lemma {:induction false} ClassMeans(name: string, c: char)
    requires name in NAMES
    ensures Matches(Parse("[[:" + name + ":]]"), [c]) <==> Holds(name, c as int)
  {
    hide Matches, Parse, Holds, NAMES;
    var xs := [Named(name)];
    BracketMeans(false, '!', xs, [c]);
    assert xs[1..] == [];
    assert WrittenAll(xs) == Written(Named(name)) + WrittenAll([]);
    assert "" + (WrittenAll(xs) + "]") == "[:" + name + ":]]";
    assert Brackets(false, '!', xs) == "[[:" + name + ":]]";
  }
}
