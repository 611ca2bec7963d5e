/** Documents that were emitted, compact or pretty, are parsed back: the same types, keys in the same
    order, strings and numbers. */
module JsonRoundTrip {
  import opened Bits
  import opened Decimal
  import opened Json
  import opened CText

  // ---- strings ----

  /** C text in a byte encoding. */
  predicate Bytes(s: string) {
    forall i :: 0 <= i < |s| ==> '\0' < s[i]
  }

  lemma {:induction false} HexRead(d: nat)
    requires d < 16
    ensures HexVal(Hex(d)) == Some(d)
  {
  }

  /** One byte is read back, however it was escaped. */
  lemma {:induction false} Esc1Read(c: char, rest: string, o: string, bad: bool)
    requires c != '\0'
    ensures Chars(Esc1(c) + rest, o, bad) == Chars(rest, o + [c], bad)
  {
    var p := Esc1(c) + rest;
    if c < 0x20 as char && c != '\n' && c != '\t' && c != '\r' {
      ControlRead(c, rest, o, bad);
    } else if |Esc1(c)| == 2 {
      assert p[2..] == rest;
    } else {
      assert p[1..] == rest;
    }
  }

  lemma {:induction false} ControlRead(c: char, rest: string, o: string, bad: bool)
    requires '\0' < c < 0x20 as char && c != '\n' && c != '\t' && c != '\r'
    ensures Chars(Esc1(c) + rest, o, bad) == Chars(rest, o + [c], bad)
  {
    var n := c as nat;
    var h, l := Hex(n / 16), Hex(n % 16);
    var q := "00" + [h, l] + rest;
    assert Esc1(c) + rest == "\\u" + q;
    HexRead(0);
    HexRead(n / 16);
    HexRead(n % 16);
    assert q[4..] == rest;
    assert Hex4(q) == Some(n);
    assert Unicode(q) == Some(([c], rest)) by { OneByte(n, c); }
    UnicodeStep(q, o, bad);
  }

  lemma {:induction false} OneByte(n: nat, c: char)
    requires n == c as nat && 0 < n < 0x80
    ensures Utf8(n) == [c]
  {
  }

  lemma {:induction false} UnicodeStep(q: string, o: string, bad: bool)
    requires Unicode(q).Some?
    ensures Chars("\\u" + q, o, bad) == Chars(Unicode(q).value.1, o + Unicode(q).value.0, bad)
  {
    hide Unicode;
    assert ("\\u" + q)[2..] == q;
  }

  lemma {:induction false} EscRead(s: string, rest: string, o: string, bad: bool)
    requires Bytes(s)
    ensures Chars(Esc(s) + ("\"" + rest), o, bad) == (o + s, "\"" + rest, bad)
  {
    hide Esc1;
    if s == "" {
      assert Esc(s) + ("\"" + rest) == "\"" + rest && o + s == o;
    } else {
      var tail := Esc(s[1..]) + ("\"" + rest);
      assert Esc(s) + ("\"" + rest) == Esc1(s[0]) + tail;
      Esc1Read(s[0], tail, o, bad);
      EscRead(s[1..], rest, o + [s[0]], bad);
      assert o + [s[0]] + s[1..] == o + s;
    }
  }

  lemma {:induction false} StrRead(s: string, rest: string, st: St)
    requires Bytes(s) && st.p == Quote(s) + rest
    ensures Str(st) == (st.(p := rest), s)
  {
    hide Esc, Chars;
    assert st.p == "\"" + (Esc(s) + ("\"" + rest));
    assert st.p[1..] == Esc(s) + ("\"" + rest);
    EscRead(s, rest, "", st.bad);
    assert "" + s == s && ("\"" + rest)[1..] == rest;
  }

  // ---- entries ----

  /** The text of a number: it begins as one does, and nothing in it ends a literal. */
  predicate NumText(s: string) {
    s != "" && (s[0] == '-' || Digit(s[0])) && forall i :: 0 <= i < |s| ==> !Ends(s[i]) && s[i] != '\0'
  }

  ghost predicate Distinct(m: seq<Ent>) {
    forall i, j :: 0 <= i < j < |m| ==> m[i].k != m[j].k
  }

  /** A typed value: its text is what its type says; an array's keys count up from 0, an object's are distinct. */
  ghost predicate Good(e: Ent) {
    match e.ty
    case TStr => e.els == [] && Bytes(e.s)
    case TNum => e.els == [] && NumText(e.s)
    case TBool => e.els == [] && (e.s == "true" || e.s == "false")
    case TNull => e.els == [] && e.s == "null"
    case TArr => e.s == "" && (forall i :: 0 <= i < |e.els| ==> e.els[i].k == Dec(i)) && forall i :: 0 <= i < |e.els| ==> Good(e.els[i])
    case TObj => e.s == "" && Distinct(e.els) && (forall i :: 0 <= i < |e.els| ==> Bytes(e.els[i].k)) && forall i :: 0 <= i < |e.els| ==> Good(e.els[i])
  }

  /** How deep containers nest. */
  function Height(e: Ent): nat
    decreases e, 0
  {
    if e.ty == TArr || e.ty == TObj then 1 + Highest(e.els) else 0
  }

  function Highest(m: seq<Ent>): nat
    decreases m
  {
    if m == [] then 0 else
      var h, t := Height(m[0]), Highest(m[1..]);
      if h >= t then h else t
  }

  lemma {:induction false} HighestAll(m: seq<Ent>, i: nat)
    requires i < |m|
    ensures Height(m[i]) <= Highest(m)
  {
    if i > 0 { HighestAll(m[1..], i - 1); }
  }

  predicate Follows(rest: string) { rest == "" || Ends(rest[0]) }

  lemma {:induction false} WsStops(p: string)
    requires p == "" || !Blank(p[0])
    ensures Ws(p) == p
  {
  }

  lemma {:induction false} WsIndent(d: nat, p: string)
    requires p == "" || !Blank(p[0])
    ensures Ws(Indent(d) + p) == p
  {
    if d == 0 {
      assert Indent(0) + p == p;
      WsStops(p);
    } else {
      var s := Indent(d) + p;
      assert s[0] == ' ' && s[1..] == " " + (Indent(d - 1) + p);
      assert s[1..][1..] == Indent(d - 1) + p;
      WsIndent(d - 1, p);
    }
  }

  lemma {:induction false} WsBreak(pretty: bool, d: nat, p: string)
    requires p == "" || !Blank(p[0])
    ensures Ws(Break(pretty, d) + p) == p
  {
    hide Indent;
    if pretty {
      var s := Break(pretty, d) + p;
      assert s[0] == '\n' && s[1..] == Indent(d) + p;
      WsIndent(d, p);
    } else {
      assert "" + p == p;
      WsStops(p);
    }
  }

  /** What a value begins with is not blank. */
  lemma {:induction false} EmitBegins(e: Ent, pretty: bool, d: nat)
    requires Good(e)
    ensures var s := Emit(e, pretty, d); s != "" && !Blank(s[0])
  {
    hide EmitAll, Esc, Dec, Indent, Distinct;
  }

  // ---- literals ----

  lemma {:induction false} RunIs(s: string, rest: string)
    requires (forall i :: 0 <= i < |s| ==> !Ends(s[i])) && Follows(rest)
    ensures Run(s + rest) == |s|
  {
    if s == "" {
      assert s + rest == rest;
    } else {
      assert (s + rest)[1..] == s[1..] + rest;
      RunIs(s[1..], rest);
    }
  }

  lemma {:induction false} LiteralRead(e: Ent, rest: string, st: St, k: string)
    requires Good(e) && (e.ty == TNum || e.ty == TBool || e.ty == TNull) && Follows(rest) && st.p == e.s + rest
    ensures Parse(st, Fresh(k)) == (st.(p := rest), e.(k := k))
  {
    hide Elems, Str, Run, Ws;
    var s := e.s;
    assert forall i :: 0 <= i < |s| ==> !Ends(s[i]);
    RunIs(s, rest);
    assert s != "" && st.p[0] == s[0];
    WsStops(st.p);
    assert st.p[..|s|] == s && st.p[|s|..] == rest;
    LiteralIs(st, s, rest, Fresh(k));
  }

  lemma {:induction false} LiteralIs(st: St, s: string, rest: string, e: Ent)
    requires st.p == s + rest && Run(st.p) == |s| && s != ""
    ensures s == "true" || s == "false" ==> Literal(st, e) == (st.(p := rest), e.(s := s, ty := TBool))
    ensures s == "null" ==> Literal(st, e) == (st.(p := rest), e.(s := s, ty := TNull))
    ensures s[0] == '-' || Digit(s[0]) ==> Literal(st, e) == (st.(p := rest), e.(s := s, ty := TNum))
  {
    hide Run;
    assert st.p[..|s|] == s && st.p[|s|..] == rest;
  }

  // ---- containers ----

  lemma {:induction false} StrVal(s: string, rest: string, st: St, k: string)
    requires Bytes(s) && st.p == Quote(s) + rest
    ensures Parse(st, Fresh(k)) == (st.(p := rest), Ent(k, TStr, s, []))
  {
    hide Elems, Str, Esc;
    assert st.p[0] == '"';
    WsStops(st.p);
    StrRead(s, rest, st);
  }

  /** What stands after an object's key. */
  function Colon(pretty: bool, v: string): string {
    ":" + (if pretty then " " + v else v)
  }

  lemma {:induction false} ColonText(k: string, pretty: bool, v: string)
    ensures KeyText(k, false, pretty) + v == Quote(k) + Colon(pretty, v)
    ensures KeyText(k, false, pretty) + v != [] && (KeyText(k, false, pretty) + v)[0] == '"'
  {
  }

  lemma {:induction false} ColonRead(pretty: bool, v: string, st: St)
    requires v != "" && !Blank(v[0])
    ensures Skip(st.(p := Colon(pretty, v))).p == Colon(pretty, v) && Ch(Colon(pretty, v), 0) == ':'
    ensures Skip(st.(p := Colon(pretty, v)[1..])) == st.(p := v)
  {
    assert Colon(pretty, v)[1..] == if pretty then " " + v else v;
    assert (" " + v)[1..] == v;
    WsStops(v);
    WsStops(Colon(pretty, v));
  }

  /** The key of element `i` is read, and the cursor stands before its value. */
  lemma {:induction false} KeyRead(k: string, arr: bool, pretty: bool, d: nat, v: string, st: St, i: nat)
    requires st.p == Break(pretty, d) + (KeyText(k, arr, pretty) + v) && v != "" && !Blank(v[0])
    requires if arr then k == Dec(i) else Bytes(k)
    ensures Key(st, arr, i).1 == k && Skip(Key(st, arr, i).0) == st.(p := v)
  {
    hide Dec, Break, Str, Esc;
    var q := KeyText(k, arr, pretty) + v;
    WsStops(v);
    if arr {
      assert q == v;
      WsBreak(pretty, d, q);
    } else {
      hide Quote, KeyText;
      ColonText(k, pretty, v);
      WsBreak(pretty, d, q);
      StrRead(k, Colon(pretty, v), st.(p := q));
      ColonRead(pretty, v, st);
    }
  }

  lemma {:induction false} NotYet(all: seq<Ent>, i: nat)
    requires Distinct(all) && i < |all|
    ensures Find(all[..i], all[i].k) == None
  {
    FindNone(all[..i], all[i].k);
  }

  lemma {:induction false} FindNone(m: seq<Ent>, k: string)
    requires forall j :: 0 <= j < |m| ==> m[j].k != k
    ensures Find(m, k) == None
  {
    if m != [] { FindNone(m[1..], k); }
  }

  lemma {:induction false} GoodDistinct(e: Ent)
    requires Good(e) && (e.ty == TArr || e.ty == TObj)
    ensures Distinct(e.els) && forall i :: 0 <= i < |e.els| ==> Good(e.els[i])
    ensures forall i :: 0 <= i < |e.els| ==> if e.ty == TArr then e.els[i].k == Dec(i) else Bytes(e.els[i].k)
  {
    hide Dec;
    if e.ty == TArr {
      forall i, j | 0 <= i < j < |e.els| ensures e.els[i].k != e.els[j].k {
        if Dec(i) == Dec(j) { DecInjective(i, j); }
      }
    }
  }

  lemma {:induction false} ValReads(e: Ent, pretty: bool, d: nat, rest: string, st: St, k: string)
    requires Good(e) && st.dep + Height(e) <= DEPTH && Follows(rest) && st.p == Emit(e, pretty, d) + rest
    ensures Parse(st, Fresh(k)) == (st.(p := rest), e.(k := k))
    decreases e, 2, 0
  {
    hide Parse, Elems, EmitAll, Esc, Str, Ws, Literal, Distinct;
    match e.ty
    case TStr => StrVal(e.s, rest, st, k);
    case TNum => LiteralRead(e, rest, st, k);
    case TBool => LiteralRead(e, rest, st, k);
    case TNull => LiteralRead(e, rest, st, k);
    case TArr => ContainerReads(e, pretty, d, rest, st, k);
    case TObj => ContainerReads(e, pretty, d, rest, st, k);
  }

  lemma {:induction false} ContainerReads(e: Ent, pretty: bool, d: nat, rest: string, st: St, k: string)
    requires Good(e) && (e.ty == TArr || e.ty == TObj) && st.dep + Height(e) <= DEPTH && st.p == Emit(e, pretty, d) + rest
    ensures Parse(st, Fresh(k)) == (st.(p := rest), e.(k := k))
    decreases e, 1, 1 + |e.els|
  {
    hide Parse, Elems, EmitAll, Str, Ws, Good, Emit, Open, Close, Break;
    var arr := e.ty == TArr;
    GoodScalar(e);
    EmitContainer(e, pretty, d, rest);
    if e.els == [] {
      EmptyVal(arr, rest, st, k);
    } else {
      var q := EmitAll(e.els, arr, pretty, d) + (Break(pretty, d) + (Close(arr) + rest));
      assert e.els[0..] == e.els && e.els[..0] == [];
      ElemsRead(e, 0, pretty, d, rest, St(q, st.bad, st.dep + 1));
      ElemsSkip(St(q, st.bad, st.dep + 1), arr, [], 0);
      AllBegin(e, pretty, d);
      FullVal(arr, q, st, k);
    }
  }

  /** What is written for a container, and what is written after it. */
  lemma {:induction false} EmitContainer(e: Ent, pretty: bool, d: nat, rest: string)
    requires e.ty == TArr || e.ty == TObj
    ensures var arr := e.ty == TArr;
            Emit(e, pretty, d) + rest
            == Open(arr) + (if e.els == [] then Close(arr) + rest else EmitAll(e.els, arr, pretty, d) + (Break(pretty, d) + (Close(arr) + rest)))
  {
    hide EmitAll, Break, Esc, Dec;
  }

  lemma {:induction false} GoodScalar(e: Ent)
    requires Good(e) && (e.ty == TArr || e.ty == TObj)
    ensures e.s == ""
  {
  }

  lemma {:induction false} EmptyVal(arr: bool, rest: string, st: St, k: string)
    requires st.p == Open(arr) + (Close(arr) + rest) && st.dep + 1 <= DEPTH
    ensures Parse(st, Fresh(k)) == (st.(p := rest), Ent(k, if arr then TArr else TObj, "", []))
  {
    hide Elems, Str, Literal;
    WsStops(st.p);
    assert st.p[1..] == Close(arr) + rest;
    WsStops(Close(arr) + rest);
    assert (Close(arr) + rest)[1..] == rest;
  }

  /** A container with something in it: its elements are read after its bracket. */
  lemma {:induction false} FullVal(arr: bool, q: string, st: St, k: string)
    requires st.p == Open(arr) + q && st.dep + 1 <= DEPTH && Ch(Ws(q), 0) != Closer(arr)
    ensures var (t, m) := Elems(Skip(St(q, st.bad, st.dep + 1)), arr, [], 0);
            Parse(st, Fresh(k)) == (t.(dep := st.dep), Ent(k, if arr then TArr else TObj, "", m))
  {
    hide Elems, Str, Literal;
    WsStops(st.p);
    assert st.p[1..] == q;
  }

  lemma {:induction false} WsTwice(p: string)
    ensures Ws(Ws(p)) == Ws(p)
  {
    if p != "" && Blank(p[0]) { WsTwice(p[1..]); }
  }

  /** Spaces before the first element do not matter. */
  lemma {:induction false} ElemsSkip(s: St, arr: bool, m: seq<Ent>, n: nat)
    ensures Elems(s, arr, m, n) == Elems(Skip(s), arr, m, n)
  {
    hide Parse, Str, Find;
    WsTwice(s.p);
    assert Key(s, arr, n) == Key(Skip(s), arr, n);
  }

  /** What follows the first element's text. */
  lemma {:induction false} AllText(m: seq<Ent>, arr: bool, pretty: bool, d: nat, tail: string) returns (x: string)
    requires m != []
    ensures EmitAll(m, arr, pretty, d) + tail == Break(pretty, d + 1) + (KeyText(m[0].k, arr, pretty) + (Emit(m[0], pretty, d + 1) + x))
  {
    hide Emit, Break, KeyText;
    x := (if |m| > 1 then "," else "") + EmitAll(m[1..], arr, pretty, d) + tail;
  }

  lemma {:induction false} KeyBegins(k: string, arr: bool, pretty: bool, v: string, x: string)
    requires v != ""
    ensures var q := KeyText(k, arr, pretty) + (v + x); q != "" && q[0] == (if arr then v[0] else '"')
  {
    hide Esc;
  }

  lemma {:induction false} AllBegin(e: Ent, pretty: bool, d: nat)
    requires Good(e) && (e.ty == TArr || e.ty == TObj) && e.els != []
    ensures var arr := e.ty == TArr;
            forall tail: string :: Ch(Ws(EmitAll(e.els, arr, pretty, d) + tail), 0) != Closer(arr)
  {
    hide Good, Emit, Ws, Esc, Break, EmitAll, KeyText;
    var arr, c := e.ty == TArr, e.els[0];
    GoodDistinct(e);
    EmitBegins(c, pretty, d + 1);
    EmitNoClose(c, pretty, d + 1);
    forall tail: string
      ensures Ch(Ws(EmitAll(e.els, arr, pretty, d) + tail), 0) != Closer(arr)
    {
      var x := AllText(e.els, arr, pretty, d, tail);
      var q := KeyText(c.k, arr, pretty) + (Emit(c, pretty, d + 1) + x);
      KeyBegins(c.k, arr, pretty, Emit(c, pretty, d + 1), x);
      WsBreak(pretty, d + 1, q);
    }
  }

  lemma {:induction false} EmitNoClose(e: Ent, pretty: bool, d: nat)
    requires Good(e)
    ensures var s := Emit(e, pretty, d); s != "" && s[0] != ']' && s[0] != '}'
  {
    hide EmitAll, Esc, Dec, Indent, Distinct;
  }

  /** The elements from the `i`th on are read, past the closing bracket. */
  lemma {:induction false} ElemsRead(e: Ent, i: nat, pretty: bool, d: nat, rest: string, st: St)
    requires Good(e) && (e.ty == TArr || e.ty == TObj) && i < |e.els| && st.dep + Highest(e.els) <= DEPTH
    requires var arr := e.ty == TArr; st.p == EmitAll(e.els[i..], arr, pretty, d) + (Break(pretty, d) + (Close(arr) + rest))
    ensures Elems(st, e.ty == TArr, e.els[..i], i) == (st.(p := rest), e.els)
    decreases e, 1, |e.els| - i
  {
    hide Parse, Elems, Good, Emit, EmitAll, Dec, Break, Key, Find, Distinct, Height, Highest;
    var arr, all, c := e.ty == TArr, e.els, e.els[i];
    GoodDistinct(e);
    HighestAll(all, i);
    var more := EmitAll(all[i + 1..], arr, pretty, d) + (Break(pretty, d) + (Close(arr) + rest));
    var after := if i + 1 < |all| then "," + more else Break(pretty, d) + (Close(arr) + rest);
    var v := Emit(c, pretty, d + 1) + after;
    ElemText(all, i, arr, pretty, d, Break(pretty, d) + (Close(arr) + rest));
    EmitBegins(c, pretty, d + 1);
    KeyRead(c.k, arr, pretty, d + 1, v, st, i);
    NotYet(all, i);
    AfterFollows(i + 1 < |all|, more, pretty, d, arr, rest);
    ValReads(c, pretty, d + 1, after, st.(p := v), c.k);
    assert c.(k := c.k) == c;
    assert all[..i] + [c] == all[..i + 1];
    ElemStep(st, arr, all[..i], i, c, v, after);
    if i + 1 < |all| {
      assert ("," + more)[1..] == more;
      ElemsRead(e, i + 1, pretty, d, rest, st.(p := more));
    } else {
      WsBreak(pretty, d, Close(arr) + rest);
      assert (Close(arr) + rest)[1..] == rest;
      assert all[..i + 1] == all;
    }
  }

  lemma {:induction false} ElemText(all: seq<Ent>, i: nat, arr: bool, pretty: bool, d: nat, tail: string)
    requires i < |all|
    ensures EmitAll(all[i..], arr, pretty, d) + tail ==
            Break(pretty, d + 1) + (KeyText(all[i].k, arr, pretty) + (Emit(all[i], pretty, d + 1) +
            (if i + 1 < |all| then "," + (EmitAll(all[i + 1..], arr, pretty, d) + tail) else tail)))
  {
    hide Emit, Break, KeyText;
    assert all[i..][0] == all[i] && all[i..][1..] == all[i + 1..];
    if i + 1 == |all| { assert all[i + 1..] == []; }
  }

  lemma {:induction false} AfterFollows(more: bool, s: string, pretty: bool, d: nat, arr: bool, rest: string)
    ensures Follows(if more then "," + s else Break(pretty, d) + (Close(arr) + rest))
  {
  }

  /** One element: its key, its value, and what comes after it. */
  lemma {:induction false} ElemStep(s: St, arr: bool, m: seq<Ent>, n: nat, c: Ent, v: string, after: string)
    requires Find(m, c.k) == None && Key(s, arr, n).1 == c.k && Skip(Key(s, arr, n).0) == s.(p := v)
    requires Parse(s.(p := v), Fresh(c.k)) == (s.(p := after), c)
    ensures var u := s.(p := Ws(after));
            Elems(s, arr, m, n) ==
            if Ch(u.p, 0) == ',' then Elems(u.(p := u.p[1..]), arr, m + [c], n + 1)
            else if Ch(u.p, 0) == Closer(arr) then (u.(p := u.p[1..]), m + [c])
            else (u.(bad := true), m + [c])
  {
    hide Parse, Key, Find;
    var st := Key(s, arr, n).0;
    ValSkips(st, Fresh(c.k));
    assert (m + [Fresh(c.k)])[|m|] == Fresh(c.k) && (m + [Fresh(c.k)])[|m| := c] == m + [c];
  }

  lemma {:induction false} ValSkips(s: St, e: Ent)
    ensures Parse(s, e) == Parse(Skip(s), e)
  {
    hide Elems, Str, Literal;
    WsTwice(s.p);
  }

  // ---- whole documents ----

  /** Parsing what was emitted, compact or pretty, gives the same document. */
  lemma {:induction false} DocumentBack(e: Ent, pretty: bool)
    requires Good(e) && Height(e) <= DEPTH
    ensures Document(Emit(e, pretty, 0)) == Some(e.(k := ""))
  {
    hide Parse, Emit, Height;
    var p := Emit(e, pretty, 0);
    assert p + "" == p;
    ValReads(e, pretty, 0, "", St(p, false, 0), "");
  }
}
