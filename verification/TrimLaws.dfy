/** What trimming and replacing are for, said of the value: the shortest or longest part that matches is cut off,
    and the first place a text occurs is replaced. */
module TrimLaws {
  import opened Bits
  import opened Patterns
  import opened Pruning
  import opened Trimming
  import opened Replacing
  import PatternLaws

  /** The last `i` characters. */
  function Tail(v: string, i: nat): string
    requires i <= |v|
  {
    v[|v| - i..]
  }

  /** Of the prefixes that match, the longest or the shortest is cut off; if none does, nothing is. */
  lemma {:induction false} PrefixCut(v: string, pat: string, lng: bool) returns (j: Option<nat>)
    ensures j.None? ==> Plainly(v, pat, true, lng) == v && forall i :: 0 <= i <= |v| ==> !Matches(Parse(pat), v[..i])
    ensures j.Some? ==> j.value <= |v| && Plainly(v, pat, true, lng) == v[j.value..] && Matches(Parse(pat), v[..j.value])
    ensures j.Some? ==> forall i :: 0 <= i <= |v| && Matches(Parse(pat), v[..i]) ==> if lng then i <= j.value else j.value <= i
  {
    hide Matches, Parse, Try;
    var es := Parse(pat);
    j := Try(v, es, true, lng, None, 0);
    TryFits(v, es, true, lng, None);
    TryFinds(v, es, true, lng, None, 0);
    forall i | 0 <= i <= |v| && Matches(es, v[..i]) ensures j.Some? && if lng then i <= j.value else j.value <= i {
      assert Good(v, es, true, None, i);
      TryBest(v, es, true, lng, None, 0, i);
    }
  }

  /** So of the suffixes. */
  lemma {:induction false} SuffixCut(v: string, pat: string, lng: bool) returns (j: Option<nat>)
    ensures j.None? ==> Plainly(v, pat, false, lng) == v && forall i :: 0 <= i <= |v| ==> !Matches(Parse(pat), Tail(v, i))
    ensures j.Some? ==> j.value <= |v| && Plainly(v, pat, false, lng) == v[..|v| - j.value]
    ensures j.Some? ==> Matches(Parse(pat), Tail(v, j.value))
    ensures j.Some? ==>
              forall i :: 0 <= i <= |v| && Matches(Parse(pat), Tail(v, i)) ==> if lng then i <= j.value else j.value <= i
  {
    hide Matches, Parse, Try;
    var es := Parse(pat);
    j := Try(v, es, false, lng, None, 0);
    TryFits(v, es, false, lng, None);
    TryFinds(v, es, false, lng, None, 0);
    forall i | 0 <= i <= |v| && Matches(es, Tail(v, i)) ensures j.Some? && if lng then i <= j.value else j.value <= i {
      assert Good(v, es, false, None, i);
      TryBest(v, es, false, lng, None, 0, i);
    }
  }

  // ---- replacing ----

  predicate Plain(s: string) {
    forall i :: 0 <= i < |s| ==> s[i] !in "*?[\\"
  }

  /** `s` stands at place `i` of `v`. */
  predicate Occurs(v: string, s: string, i: nat) {
    i + |s| <= |v| && v[i..i + |s|] == s
  }

  lemma {:induction false} PlainMatches(s: string, t: string)
    requires Plain(s)
    ensures Matches(Parse(s), t) <==> t == s
  {
    PatternLaws.PlainMeans(s, t);
  }

  lemma {:induction false} PlainFound(s: string, v: string, p: nat, a: nat)
    requires Plain(s) && s != "" && p <= a && Occurs(v, s, a) && forall i :: p <= i < a ==> !Occurs(v, s, i)
    ensures FindFrom(Parse(s), v, p) == Some((a, a + |s|))
  {
    hide Matches, Parse, Plain, FindFrom;
    var es := Parse(s);
    FindIs(es, v, p);
    FindFits(es, v, p);
    PlainMatches(s, v[a..a + |s|]);
    var r := FindFrom(es, v, p);
    assert r.Some?;
    var (x, y) := r.value;
    PlainMatches(s, v[x..y]);
    assert |v[x..y]| == y - x;
    assert x <= a;
    assert x + |s| == y && v[x..x + |s|] == s && Occurs(v, s, x);
  }

  /** The first place where a plain text occurs is replaced, and with `//` every one after it too. */
  lemma {:induction false} PlainReplaced(a: string, s: string, b: string, rep: string, all: bool)
    requires Plain(s) && s != "" && forall i :: 0 <= i < |a| ==> !Occurs(a + s + b, s, i)
    ensures AllReplaced(a + s + b, s, rep, None, all)
         == a + rep + (if all then Replaced(a + s + b, Parse(s), rep, None, true, |a| + |s|) else b)
  {
    hide Matches, Parse, Plain, FindFrom;
    var v := a + s + b;
    assert v[|a|..|a| + |s|] == s && v[0..|a|] == a && v[|a| + |s|..] == b;
    assert |v| == |a| + |s| + |b| > 0;
    PlainFound(s, v, 0, |a|);
    ReplacedNext(v, Parse(s), rep, None, all, 0);
    assert v[|a| + |s|..|a| + |s|] == "";
  }

  lemma {:induction false} OccursIs(v: string, s: string, x: nat, y: nat)
    requires x <= y <= |v| && v[x..y] == s
    ensures Occurs(v, s, x)
  {
  }

  /** A text without it is left as it is. */
  lemma {:induction false} PlainAbsent(v: string, s: string, rep: string, all: bool)
    requires Plain(s) && s != "" && forall i :: 0 <= i < |v| ==> !Occurs(v, s, i)
    ensures AllReplaced(v, s, rep, None, all) == v
  {
    hide Matches, Parse, Plain, FindFrom;
    var es := Parse(s);
    PlainMatches(s, "");
    if v != "" {
      FindIs(es, v, 0);
      FindFits(es, v, 0);
      var r := FindFrom(es, v, 0);
      if r.Some? {
        var (x, y) := r.value;
        PlainMatches(s, v[x..y]);
        OccursIs(v, s, x, y);
      }
      ReplacedNext(v, es, rep, None, all, 0);
      assert v[0..] == v;
    }
  }

  /** Anchored at the start, the longest prefix that matches is replaced. */
  lemma {:induction false} StartReplaced(v: string, pat: string, rep: string) returns (j: Option<nat>)
    ensures j.None? ==> AnchorReplaced(v, pat, rep, None, false) == v && forall i :: 0 <= i <= |v| ==> !Matches(Parse(pat), v[..i])
    ensures j.Some? ==> j.value <= |v| && AnchorReplaced(v, pat, rep, None, false) == rep + v[j.value..]
    ensures j.Some? ==> Matches(Parse(pat), v[..j.value])
    ensures j.Some? ==> forall i :: 0 <= i <= |v| && Matches(Parse(pat), v[..i]) ==> i <= j.value
  {
    hide Matches, Parse, Try;
    var es := Parse(pat);
    j := Try(v, es, true, true, None, 0);
    TryFits(v, es, true, true, None);
    TryFinds(v, es, true, true, None, 0);
    forall i | 0 <= i <= |v| && Matches(es, v[..i]) ensures j.Some? && i <= j.value {
      assert Good(v, es, true, None, i);
      TryBest(v, es, true, true, None, 0, i);
    }
  }

  /** Anchored at the end, the longest suffix. */
  lemma {:induction false} EndReplaced(v: string, pat: string, rep: string) returns (j: Option<nat>)
    ensures j.None? ==>
              AnchorReplaced(v, pat, rep, None, true) == v && forall i :: 0 <= i <= |v| ==> !Matches(Parse(pat), Tail(v, i))
    ensures j.Some? ==> j.value <= |v| && AnchorReplaced(v, pat, rep, None, true) == v[..|v| - j.value] + rep
    ensures j.Some? ==> Matches(Parse(pat), Tail(v, j.value))
    ensures j.Some? ==> forall i :: 0 <= i <= |v| && Matches(Parse(pat), Tail(v, i)) ==> i <= j.value
  {
    hide Matches, Parse, Try;
    var es := Parse(pat);
    j := Try(v, es, false, true, None, 0);
    TryFits(v, es, false, true, None);
    TryFinds(v, es, false, true, None, 0);
    forall i | 0 <= i <= |v| && Matches(es, Tail(v, i)) ensures j.Some? && i <= j.value {
      assert Good(v, es, false, None, i);
      TryBest(v, es, false, true, None, 0, i);
    }
  }

  /** In a replacement an unquoted ampersand stands for the match, unless a backslash is before it. */
  lemma {:induction false} Ampersand(x: string, y: string, m: string)
    requires Unmarked(x, 0, |x|) && Unmarked(y, 0, |y|)
    ensures Filled(x + ("&" + y), Some(seq(|x| + 1 + |y|, _ => false)), m) == x + (m + y)
    ensures Filled(x + ("\\&" + y), Some(seq(|x| + 2 + |y|, _ => false)), m) == x + ("&" + y)
  {
    hide FilledFrom;
    OneFilled(x, "&", y, m, m);
    OneFilled(x, "\\&", y, m, "&");
  }

  /** Text before and after what stands for something else. */
  lemma {:induction false} OneFilled(x: string, mid: string, y: string, m: string, meant: string)
    requires Unmarked(x, 0, |x|) && Unmarked(y, 0, |y|) && ((mid == "&" && meant == m) || (mid == "\\&" && meant == "&"))
    ensures FilledFrom(x + (mid + y), seq(|x| + |mid| + |y|, _ => false), m, 0) == x + (meant + y)
  {
    hide FilledFrom;
    var r, n, k := x + (mid + y), |x| + |mid| + |y|, |x| + |mid|;
    var mk := seq(n, _ => false);
    assert r[..|x|] == x && r[k..n] == y && r[0..|x|] == x;
    assert forall i :: 0 <= i < |x| ==> r[i] == x[i];
    assert forall i :: k <= i < n ==> r[i] == y[i - k];
    BareFilled(r, mk, m, k, n);
    FilledEnd(r, mk, m);
    MarkFilled(r, mk, m, |x|);
    BareFilled(r, mk, m, 0, |x|);
    assert y + "" == y;
  }

  predicate Unmarked(r: string, i: nat, j: nat) {
    j <= |r| && forall k :: i <= k < j ==> r[k] != '&' && r[k] != '\\'
  }

  lemma {:induction false} FilledEnd(r: string, mk: seq<bool>, m: string)
    requires |mk| == |r|
    ensures FilledFrom(r, mk, m, |r|) == ""
  {
  }

  lemma {:induction false} MarkFilled(r: string, mk: seq<bool>, m: string, i: nat)
    requires i < |r| == |mk| && !mk[i]
    ensures r[i] == '&' ==> FilledFrom(r, mk, m, i) == m + FilledFrom(r, mk, m, i + 1)
    ensures i + 1 < |r| && r[i] == '\\' && r[i + 1] == '&' ==> FilledFrom(r, mk, m, i) == "&" + FilledFrom(r, mk, m, i + 2)
    ensures r[i] != '&' && r[i] != '\\' ==> FilledFrom(r, mk, m, i) == [r[i]] + FilledFrom(r, mk, m, i + 1)
  {
  }

  lemma {:induction false} BareFilled(r: string, mk: seq<bool>, m: string, i: nat, j: nat)
    requires i <= j <= |r| == |mk| && Unmarked(r, i, j) && forall k :: 0 <= k < |mk| ==> !mk[k]
    ensures FilledFrom(r, mk, m, i) == r[i..j] + FilledFrom(r, mk, m, j)
    decreases j - i
  {
    hide FilledFrom;
    if i < j {
      BareFilled(r, mk, m, i + 1, j);
      MarkFilled(r, mk, m, i);
      assert r[i..j] == [r[i]] + r[i + 1..j];
    } else {
      assert r[i..j] == "";
    }
  }
}
