/** xfind, xrepl and xrepl_a: matches are found leftmost, longest, and replaced. */
module Replacing {
  import opened Bits
  import opened Patterns
  import opened Pruning
  import opened Trimming

  // ---- the leftmost longest match, with every start and every end tried ----

  /** The longest match from `p` that ends at `e` or before. */
  ghost function EndFrom(es: seq<Elem>, v: string, p: nat, e: nat): (r: Option<nat>)
    requires p <= e <= |v|
    ensures r.Some? ==> p <= r.value <= e
    decreases e
  {
    if Matches(es, v[p..e]) then Some(e) else if e == p then None else EndFrom(es, v, p, e - 1)
  }

  ghost function FindFrom(es: seq<Elem>, v: string, p: nat): (r: Option<(nat, nat)>)
    ensures r.Some? ==> p <= r.value.0 <= r.value.1 <= |v|
    decreases |v| + 1 - p
  {
    if p > |v| then None
    else
      match EndFrom(es, v, p, |v|)
      case Some(e) => Some((p, e))
      case None => FindFrom(es, v, p + 1)
  }

  lemma {:induction false} EndIs(es: seq<Elem>, v: string, p: nat, e: nat)
    requires p <= e <= |v|
    ensures var r := EndFrom(es, v, p, e);
            && (r.Some? ==> Matches(es, v[p..r.value]))
            && forall b :: p <= b <= e && (r.Some? ==> b > r.value) ==> !Matches(es, v[p..b])
    decreases e
  {
    hide Matches;
    if e > p { EndIs(es, v, p, e - 1); }
  }

  /** What is found matches, nothing before it does, and no longer text from the same place does. */
  lemma {:induction false} FindIs(es: seq<Elem>, v: string, p: nat)
    ensures var r := FindFrom(es, v, p);
            && (r.Some? ==> Matches(es, v[r.value.0..r.value.1]))
            && forall a, b :: p <= a <= b <= |v| && (r.Some? ==> a < r.value.0 || (a == r.value.0 && b > r.value.1)) ==>
                 !Matches(es, v[a..b])
    decreases |v| + 1 - p
  {
    hide Matches, EndFrom;
    if p <= |v| {
      EndIs(es, v, p, |v|);
      EndFits(es, v, p, |v|);
      if EndFrom(es, v, p, |v|).None? { FindIs(es, v, p + 1); }
    }
  }

  lemma {:induction false} EndFits(es: seq<Elem>, v: string, p: nat, e: nat)
    requires p <= e <= |v|
    ensures EndFrom(es, v, p, e).Some? ==> p <= EndFrom(es, v, p, e).value <= e
  {
  }

  /** Starts where nothing matches are passed over. */
  lemma {:induction false} SkipStarts(es: seq<Elem>, v: string, p: nat, q: nat)
    requires p <= q <= |v| + 1 && forall a, b :: p <= a < q && a <= b <= |v| ==> !Matches(es, v[a..b])
    ensures FindFrom(es, v, p) == FindFrom(es, v, q)
    decreases q - p
  {
    hide Matches, EndFrom;
    if p < q {
      EndIs(es, v, p, |v|);
      EndFits(es, v, p, |v|);
      SkipStarts(es, v, p + 1, q);
    }
  }

  // ---- xfind ----

  /** memchr: the first `c` in the buffer at `p` or after. */
  method FindChar(w: array<char>, n: nat, p: nat, c: char) returns (q: nat)
    requires p <= n < w.Length
    ensures p <= q <= n && (q < n ==> w[q] == c) && forall i :: p <= i < q ==> w[i] != c
  {
    q := p;
    while q < n && w[q] != c
      invariant p <= q <= n && forall i :: p <= i < q ==> w[i] != c
    {
      q := q + 1;
    }
  }

  ghost predicate Holds(w: array<char>, v: string)
    reads w
  {
    w.Length == |v| + 1 && w[..|v|] == v && w[|v|] == '\0' && '\0' !in v
  }

  lemma {:induction false} SliceSame(w: seq<char>, v: string, p: nat, e: nat)
    requires p <= e <= |v| <= |w| && w[..|v|] == v
    ensures w[p..e] == v[p..e] && ('\0' !in v ==> '\0' !in w[p..e])
  {
    var s, t := w[p..e], v[p..e];
    forall i | 0 <= i < e - p ensures s[i] == t[i] { assert w[..|v|][p + i] == w[p + i]; }
  }

  /** The end of the match that starts at `p`, if one does. */
  method FindEnd(w: array<char>, ghost v: string, p: nat, pat: string, len: int) returns (r: Option<nat>)
    requires GroupFree(pat) && Holds(w, v) && p <= |v| && len == (if NoStar(Parse(pat)) then |Parse(pat)| else -1)
    requires len >= 0 ==> p + len <= |v|
    modifies w
    ensures Holds(w, v) && r == EndFrom(Parse(pat), v, p, |v|)
  {
    hide Matches, Parse, GroupFree, EndFrom, NoStar;
    var n := w.Length - 1;
    if len >= 0 {
      FixedEnd(Parse(pat), v, p, |v|);
      SliceSame(w[..], v, p, p + len);
      var got := GCut(pat, w, p, p + len);
      return if got then Some(p + len) else None;
    }
    var e := n;
    while true
      invariant p <= e <= n == |v| && Holds(w, v) && EndFrom(Parse(pat), v, p, e) == EndFrom(Parse(pat), v, p, n)
      decreases e
    {
      SliceSame(w[..], v, p, e);
      var got := GCut(pat, w, p, e);
      EndNext(Parse(pat), v, p, e);
      if got { return Some(e); }
      if e == p { return None; }
      e := e - 1;
    }
  }

  lemma {:induction false} EndNext(es: seq<Elem>, v: string, p: nat, e: nat)
    requires p <= e <= |v|
    ensures EndFrom(es, v, p, e) == if Matches(es, v[p..e]) then Some(e) else if e == p then None else EndFrom(es, v, p, e - 1)
  {
  }

  /** A pattern of one length has one end. */
  lemma {:induction false} FixedEnd(es: seq<Elem>, v: string, p: nat, e: nat)
    requires NoStar(es) && p <= e <= |v|
    ensures p + |es| > e ==> EndFrom(es, v, p, e) == None
    ensures p + |es| <= e ==> EndFrom(es, v, p, e) == if Matches(es, v[p..p + |es|]) then Some(p + |es|) else None
  {
    hide Matches, EndFrom;
    EndIs(es, v, p, e);
    EndFits(es, v, p, e);
    var r := EndFrom(es, v, p, e);
    if r.Some? { FixedLength(es, v[p..r.value]); }
  }

  /** Nothing is left to find when the starred pattern says so, or when the text is too short. */
  lemma {:induction false} NothingLeft(es: seq<Elem>, v: string, p: nat)
    requires p <= |v| + 1 && forall a, b :: p <= a <= b <= |v| ==> !Matches(es, v[a..b])
    ensures FindFrom(es, v, p) == None
  {
    hide Matches, EndFrom;
    SkipStarts(es, v, p, |v| + 1);
  }

  lemma {:induction false} WrapLeaves(v: string, i: nat, pat: string)
    requires GroupFree(pat) && i <= |v| && Wrap(pat, true, true).Some? && !Matches(Parse(Wrap(pat, true, true).value), v[i..])
    ensures FindFrom(Parse(pat), v, i) == None
  {
    hide Matches, Parse, Wrap, GroupFree;
    WrapMeans(pat, true, true, v[i..]);
    forall a, b | i <= a <= b <= |v|
      ensures !Matches(Parse(pat), v[a..b])
    {
      assert v[a..b] == v[i..][a - i..b - i];
    }
    NothingLeft(Parse(pat), v, i);
  }

  /** The next place a match can start, by its first character; past the end if there is none. */
  method NextStart(w: array<char>, ghost v: string, p: nat, pat: string) returns (q: nat)
    requires GroupFree(pat) && Holds(w, v) && p <= |v|
    ensures p <= q <= |v| + 1 && FindFrom(Parse(pat), v, p) == FindFrom(Parse(pat), v, q)
  {
    hide Matches, Parse, GroupFree, GFirst;
    var c0 := GFirst(pat);
    if c0.None? { return p; }
    var n := w.Length - 1;
    q := FindChar(w, n, p, c0.value);
    if q == n { q := n + 1; }
    forall a, b | p <= a < q && a <= b <= |v|
      ensures !Matches(Parse(pat), v[a..b])
    {
      assert a < |v| ==> w[..|v|][a] == w[a];
      if Matches(Parse(pat), v[a..b]) { FirstIsLiteral(pat, v[a..b]); }
    }
    SkipStarts(Parse(pat), v, p, q);
  }

  /** xfind: the leftmost longest match at or after `i`. */
  method XFind(w: array<char>, ghost v: string, i: nat, pat: string, len: int, any: Option<string>)
    returns (r: Option<(nat, nat)>)
    requires GroupFree(pat) && Holds(w, v) && i <= |v| && len == (if NoStar(Parse(pat)) then |Parse(pat)| else -1)
    requires any.Some? ==> any == Wrap(pat, true, true)
    modifies w
    ensures Holds(w, v) && r == FindFrom(Parse(pat), v, i)
  {
    hide Matches, Parse, GroupFree, Wrap, NoStar, EndFrom;
    var n := w.Length - 1;
    if any.Some? {
      WrapMeans(pat, true, true, v[i..]);
      TextRest(w[..], v, i);
      var some := GMatch(any.value, Text(w[i..]));
      if !some {
        WrapLeaves(v, i, pat);
        return None;
      }
    }
    var p := i;
    while p <= n
      invariant i <= p <= n + 1 && Holds(w, v) && FindFrom(Parse(pat), v, p) == FindFrom(Parse(pat), v, i)
    {
      p := NextStart(w, v, p, pat);
      if p > n { return None; }
      if len >= 0 && p + len > n {
        TooShort(Parse(pat), v, p);
        return None;
      }
      var e := FindEnd(w, v, p, pat, len);
      if e.Some? { return Some((p, e.value)); }
      p := p + 1;
    }
    return None;
  }

  lemma {:induction false} TextRest(w: seq<char>, v: string, i: nat)
    requires |w| == |v| + 1 && w[..|v|] == v && w[|v|] == '\0' && '\0' !in v && i <= |v|
    ensures Text(w[i..]) == v[i..]
  {
    assert w[i..][..|v| - i] == v[i..];
    TextIs(w[i..], |v| - i);
  }

  lemma {:induction false} TooShort(es: seq<Elem>, v: string, p: nat)
    requires NoStar(es) && p <= |v| && p + |es| > |v|
    ensures FindFrom(es, v, p) == None
  {
    hide Matches;
    forall a, b | p <= a <= b <= |v| ensures !Matches(es, v[a..b]) {
      if Matches(es, v[a..b]) { FixedLength(es, v[a..b]); }
    }
    NothingLeft(es, v, p);
  }

  // ---- xrepcat ----

  /** The replacement for a match `m`: with a mask, an unquoted `&` is the match and `\&` an ampersand. */
  function Filled(rep: string, mk: Option<seq<bool>>, m: string): string
    requires mk.Some? ==> |mk.value| == |rep|
  {
    if mk.None? then rep else FilledFrom(rep, mk.value, m, 0)
  }

  function FilledFrom(rep: string, mk: seq<bool>, m: string, i: nat): string
    requires |mk| == |rep|
    decreases |rep| - i
  {
    if i >= |rep| then ""
    else if rep[i] == '&' && !mk[i] then m + FilledFrom(rep, mk, m, i + 1)
    else if rep[i] == '\\' && !mk[i] && i + 1 < |rep| && rep[i + 1] == '&' then "&" + FilledFrom(rep, mk, m, i + 2)
    else [rep[i]] + FilledFrom(rep, mk, m, i + 1)
  }

  method RepCat(out0: string, rep: string, mk: Option<seq<bool>>, m: string) returns (out: string)
    requires mk.Some? ==> |mk.value| == |rep|
    ensures out == out0 + Filled(rep, mk, m)
  {
    out := out0;
    if mk.None? { return out + rep; }
    var i := 0;
    while i < |rep|
      invariant i <= |rep| && out + FilledFrom(rep, mk.value, m, i) == out0 + Filled(rep, mk, m)
      decreases |rep| - i
    {
      if rep[i] == '&' && !mk.value[i] {
        out := out + m;
      } else if rep[i] == '\\' && !mk.value[i] && i + 1 < |rep| && rep[i + 1] == '&' {
        i := i + 1;
        out := out + "&";
      } else {
        out := out + [rep[i]];
      }
      i := i + 1;
    }
  }

  // ---- xrepl ----

  /** Every match replaced, the leftmost longest first; an empty one takes the character after it along. */
  ghost function Replaced(v: string, es: seq<Elem>, rep: string, mk: Option<seq<bool>>, all: bool, i: nat): string
    requires mk.Some? ==> |mk.value| == |rep|
    decreases |v| - i
  {
    if i >= |v| then ""
    else
      match FindFrom(es, v, i)
      case None => v[i..]
      case Some((a, b)) =>
        var j := if a == b && b < |v| then b + 1 else b;
        v[i..a] + Filled(rep, mk, v[a..b]) + v[b..j] + (if all then Replaced(v, es, rep, mk, all, j) else v[j..])
  }

  /** What xrepl answers when it takes no shortcut. */
  ghost function AllReplaced(v: string, pat: string, rep: string, mk: Option<seq<bool>>, all: bool): string
    requires mk.Some? ==> |mk.value| == |rep|
  {
    if pat == "" then v
    else if v == "" then if Matches(Parse(pat), "") then Filled(rep, mk, "") else ""
    else Replaced(v, Parse(pat), rep, mk, all, 0)
  }

  lemma {:induction false} ReplacedNext(v: string, es: seq<Elem>, rep: string, mk: Option<seq<bool>>, all: bool, i: nat)
    requires i < |v| && (mk.Some? ==> |mk.value| == |rep|)
    ensures FindFrom(es, v, i).None? ==> Replaced(v, es, rep, mk, all, i) == v[i..]
    ensures FindFrom(es, v, i).Some? ==>
              var (a, b) := FindFrom(es, v, i).value;
              var j := if a == b && b < |v| then b + 1 else b;
              i <= a <= b <= j <= |v| && i < j &&
              Replaced(v, es, rep, mk, all, i) ==
              v[i..a] + Filled(rep, mk, v[a..b]) + v[b..j] + (if all then Replaced(v, es, rep, mk, all, j) else v[j..])
  {
    hide Filled;
    FindFits(es, v, i);
  }

  lemma {:induction false} FindFits(es: seq<Elem>, v: string, p: nat)
    ensures FindFrom(es, v, p).Some? ==> p <= FindFrom(es, v, p).value.0 <= FindFrom(es, v, p).value.1 <= |v|
  {
  }

  lemma {:induction false} ReplacedEnd(v: string, es: seq<Elem>, rep: string, mk: Option<seq<bool>>, all: bool)
    requires mk.Some? ==> |mk.value| == |rep|
    ensures Replaced(v, es, rep, mk, all, |v|) == ""
  {
  }

  /** What is added for one match: the text before it, the replacement, and after an empty match one character. */
  method ReplaceOne(v: string, rep: string, mk: Option<seq<bool>>, i: nat, ms: nat, me: nat) returns (add: string, j: nat)
    requires (mk.Some? ==> |mk.value| == |rep|) && i <= ms <= me <= |v|
    ensures j == (if ms == me && me < |v| then me + 1 else me)
    ensures add == v[i..ms] + Filled(rep, mk, v[ms..me]) + v[me..j]
  {
    hide Filled;
    add := RepCat(v[i..ms], rep, mk, v[ms..me]);
    j := me;
    if me == ms && me < |v| {
      add := add + [v[me]];
      j := me + 1;
    }
  }

  lemma {:induction false} Grouped(a: string, b: string, c: string)
    ensures a + (b + c) == a + b + c
  {
  }

  /** The loop of xrepl, on a value that is not empty. */
  method ReplaceAll(v: string, pat: string, rep: string, mk: Option<seq<bool>>, all: bool, len: int, any: Option<string>)
    returns (out: string)
    requires GroupFree(pat) && '\0' !in v && (mk.Some? ==> |mk.value| == |rep|)
    requires len == (if NoStar(Parse(pat)) then |Parse(pat)| else -1) && (any.Some? ==> any == Wrap(pat, true, true))
    ensures out == Replaced(v, Parse(pat), rep, mk, all, 0)
  {
    hide Filled, FindFrom, Replaced, Parse, GroupFree, NoStar, Wrap;
    out := "";
    var n, i := |v|, 0;
    var w := Writable(v);
    ghost var want := Replaced(v, Parse(pat), rep, mk, all, 0);
    ReplacedEnd(v, Parse(pat), rep, mk, all);
    while i < n
      invariant 0 <= i <= n && Holds(w, v) && out + Replaced(v, Parse(pat), rep, mk, all, i) == want
      decreases n - i
    {
      ReplacedNext(v, Parse(pat), rep, mk, all, i);
      var m := XFind(w, v, i, pat, len, any);
      if m.None? { return out + v[i..]; }
      var add;
      add, i := ReplaceOne(v, rep, mk, i, m.value.0, m.value.1);
      Grouped(out, add, if all then Replaced(v, Parse(pat), rep, mk, all, i) else v[i..]);
      out := out + add;
      if !all { return out + v[i..]; }
    }
  }

  /** xrepl: the shortcuts change nothing. */
  method XRepl(v: string, pat: string, rep: string, mk: Option<seq<bool>>, all: bool) returns (r: string)
    requires GroupFree(pat) && '\0' !in v && (mk.Some? ==> |mk.value| == |rep|)
    ensures r == AllReplaced(v, pat, rep, mk, all)
  {
    hide Filled, FindFrom, Replaced, Parse, GroupFree, NoStar, Wrap, Matches;
    if pat == "" { return v; }
    if v == "" {
      var ok := GMatch(pat, "");
      if !ok { return ""; }
      r := RepCat("", rep, mk, "");
      assert "" + Filled(rep, mk, "") == Filled(rep, mk, "");
      return;
    }
    var len := GLen(pat);
    var any := None;
    if len < 0 { any := GWrap(pat, true, true); }
    r := ReplaceAll(v, pat, rep, mk, all, len, any);
  }

  // ---- xrepl_a ----

  /** A match anchored at one end, the longest, replaced. */
  ghost function AnchorReplaced(v: string, pat: string, rep: string, mk: Option<seq<bool>>, end: bool): string
    requires mk.Some? ==> |mk.value| == |rep|
  {
    match Try(v, Parse(pat), !end, true, None, 0)
    case None => v
    case Some(i) => if end then v[..|v| - i] + Filled(rep, mk, v[|v| - i..]) else Filled(rep, mk, v[..i]) + v[i..]
  }

  /** The cut to replace. */
  method AnchorCut(v: string, pat: string, end: bool) returns (cut: Option<nat>)
    requires GroupFree(pat) && '\0' !in v
    ensures cut == Try(v, Parse(pat), !end, true, None, 0)
  {
    hide Parse, GroupFree, NoStar, Wrap, Matches, Try, Good, Piece;
    var n := |v|;
    var len := GLen(pat);
    if len >= 0 { TryFixed(v, Parse(pat), !end, true); }
    if len >= 0 && len > n { return None; }
    if len < 0 {
      var any := GWrap(pat, end, !end);
      if any.Some? {
        WrapMeans(pat, end, !end, v);
        var some := GMatch(any.value, v);
        if !some {
          WrapPrunes(v, pat, !end, true, None);
          return None;
        }
      }
    }
    var w := Writable(if end then "" else v);
    if len >= 0 {
      var got := TryCut(v, pat, !end, w, None, len);
      FixedGood(v, Parse(pat), !end, len);
      return if got then Some(len) else None;
    }
    cut := TryAll(v, pat, !end, true, w, None);
  }

  /** xrepl_a: the shortcuts change nothing. */
  method XReplA(v: string, pat: string, rep: string, mk: Option<seq<bool>>, end: bool) returns (r: string)
    requires GroupFree(pat) && '\0' !in v && (mk.Some? ==> |mk.value| == |rep|)
    ensures r == AnchorReplaced(v, pat, rep, mk, end)
  {
    hide Parse, GroupFree, Matches, Try, Filled;
    if v == "" {
      var ok := GMatch(pat, "");
      EmptyCut(Parse(pat), !end);
      if !ok { return ""; }
      r := RepCat("", rep, mk, "");
      return;
    }
    var cut := AnchorCut(v, pat, end);
    TryFits(v, Parse(pat), !end, true, None);
    if cut.None? { return v; }
    var i := cut.value;
    if end {
      r := RepCat(v[..|v| - i], rep, mk, v[|v| - i..]);
    } else {
      r := RepCat("", rep, mk, v[..i]);
      r := r + v[i..];
    }
  }

  lemma {:induction false} EmptyCut(es: seq<Elem>, pre: bool)
    ensures Try("", es, pre, true, None, 0) == if Matches(es, "") then Some(0) else None
  {
    hide Matches;
  }
}
