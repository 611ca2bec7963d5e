/** j_out and its like, which append to a buffer, and struct jp, the cursor j_val and j_str move. */
module JsonText {
  import opened Bits
  import opened Decimal
  import opened Json
  import opened CText
  import opened JsonRoundTrip

  // ---- writing ----

  /** lg_jstr between two quotes (j_quote). */
  method PutQuoted(o0: string, s: string) returns (o: string)
    ensures o == o0 + Quote(s)
  {
    hide Esc1;
    o := o0 + "\"";
    var t := s;
    while t != ""
      invariant o + Esc(t) == o0 + "\"" + Esc(s)
      decreases |t|
    {
      EscStep(t);
      Grouped(o, Esc1(t[0]), Esc(t[1..]));
      o := o + Esc1(t[0]);
      t := t[1..];
    }
    assert Esc("") == "" && o == o0 + "\"" + Esc(s);
    o := o + "\"";
    assert o == o0 + ("\"" + Esc(s) + "\"");
  }

  lemma {:induction false} EscStep(t: string)
    requires t != ""
    ensures Esc(t) == Esc1(t[0]) + Esc(t[1..])
  {
  }

  lemma {:induction false} Grouped(a: string, b: string, c: string)
    ensures a + (b + c) == a + b + c
  {
  }

  method PutIndent(o0: string, d: nat) returns (o: string)
    ensures o == o0 + Indent(d)
  {
    o := o0;
    var i := d;
    while i > 0
      invariant o + Indent(i) == o0 + Indent(d)
    {
      Grouped(o, "  ", Indent(i - 1));
      o := o + "  ";
      i := i - 1;
    }
    assert o + Indent(0) == o;
  }

  method PutBreak(o0: string, pretty: bool, d: nat) returns (o: string)
    ensures o == o0 + Break(pretty, d)
  {
    hide Indent;
    if !pretty { return o0; }
    o := PutIndent(o0 + "\n", d);
    Grouped(o0, "\n", Indent(d));
  }

  method PutKey(o0: string, k: string, arr: bool, pretty: bool) returns (o: string)
    ensures o == o0 + KeyText(k, arr, pretty)
  {
    hide Quote;
    if arr { return o0; }
    o := PutQuoted(o0, k);
    o := o + ":";
    if pretty { o := o + " "; }
    assert o == o0 + (Quote(k) + ":" + (if pretty then " " else ""));
  }

  /** j_out. */
  method Out(o0: string, e: Ent, pretty: bool, depth: nat) returns (o: string)
    ensures o == o0 + Emit(e, pretty, depth)
    decreases e, 1
  {
    hide EmitAll, Quote, IsArr, Break;
    if e.els == [] {
      o := PutScalar(o0, e);
      return;
    }
    var arr := IsArr(e.els, e.ty);
    o := OutAll(o0 + Open(arr), e, arr, pretty, depth);
    o := PutBreak(o, pretty, depth);
    o := o + Close(arr);
    FourJoin(o0, Open(arr), EmitAll(e.els, arr, pretty, depth), Break(pretty, depth), Close(arr));
  }

  lemma {:induction false} FourJoin(o: string, a: string, b: string, c: string, d: string)
    ensures o + a + b + c + d == o + (a + (b + (c + d)))
  {
  }

  method PutScalar(o0: string, e: Ent) returns (o: string)
    ensures o == o0 + Scalar(e)
  {
    hide Quote;
    match e.ty
    case TNum => o := o0 + (if e.s != "" then e.s else "null");
    case TBool => o := o0 + (if e.s != "" then e.s else "null");
    case TNull => o := o0 + (if e.s != "" then e.s else "null");
    case TArr => o := o0 + "[]";
    case TObj => o := o0 + "{}";
    case TStr => o := PutQuoted(o0, e.s);
  }

  /** The loop of j_out over the entries. */
  method OutAll(o0: string, e: Ent, arr: bool, pretty: bool, depth: nat) returns (o: string)
    ensures o == o0 + EmitAll(e.els, arr, pretty, depth)
    decreases e, 0
  {
    hide Emit, EmitAll, KeyText, Break;
    o := o0;
    var i := 0;
    assert e.els[0..] == e.els;
    while i < |e.els|
      invariant 0 <= i <= |e.els| && o + EmitAll(e.els[i..], arr, pretty, depth) == o0 + EmitAll(e.els, arr, pretty, depth)
    {
      ElemText(e.els, i, arr, pretty, depth, "");
      var c := e.els[i];
      NoneAfter(e.els, i, arr, pretty, depth);
      ElemJoin(o, Break(pretty, depth + 1), KeyText(c.k, arr, pretty), Emit(c, pretty, depth + 1),
               if i + 1 < |e.els| then "," else "", EmitAll(e.els[i + 1..], arr, pretty, depth));
      o := PutBreak(o, pretty, depth + 1);
      o := PutKey(o, c.k, arr, pretty);
      o := Out(o, c, pretty, depth + 1);
      if i + 1 < |e.els| { o := o + ","; }
      i := i + 1;
    }
    NoElems(arr, pretty, depth);
    assert e.els[i..] == [];
  }

  lemma {:induction false} NoElems(arr: bool, pretty: bool, d: nat)
    ensures EmitAll([], arr, pretty, d) == ""
  {
  }

  lemma {:induction false} ElemJoin(o: string, a: string, b: string, c: string, d: string, r: string)
    ensures o + (a + (b + (c + (d + r)))) == o + a + b + c + d + r && o + a + b + c + "" == o + a + b + c
  {
    assert o + a + b + c + "" == o + a + b + c;
  }

  lemma {:induction false} NoneAfter(all: seq<Ent>, i: nat, arr: bool, pretty: bool, d: nat)
    requires i < |all|
    ensures EmitAll(all[i..], arr, pretty, d) ==
            Break(pretty, d + 1) + (KeyText(all[i].k, arr, pretty) + (Emit(all[i], pretty, d + 1) +
            ((if i + 1 < |all| then "," else "") + EmitAll(all[i + 1..], arr, pretty, d))))
  {
    hide Emit, KeyText, Break;
    assert all[i..][0] == all[i] && all[i..][1..] == all[i + 1..];
  }

  // ---- reading ----

  class Jp {
    var p: string
    var bad: bool
    var dep: nat

    constructor (p: string)
      ensures State() == St(p, false, 0)
    {
      this.p, bad, dep := p, false, 0;
    }

    ghost function State(): St
      reads this
    {
      St(p, bad, dep)
    }

    /** j_ws. */
    method TakeWs()
      modifies this`p
      ensures State() == Skip(old(State()))
    {
      while p != "" && Blank(p[0])
        invariant Ws(p) == Ws(old(p))
        decreases |p|
      {
        p := p[1..];
      }
    }

    /** The inside of a string. */
    method TakeChars() returns (o: string)
      modifies this`p, this`bad
      ensures (o, p, bad) == Chars(old(p), "", old(bad))
    {
      hide Unicode;
      o := "";
      while p != "" && p[0] != '"'
        invariant Chars(p, o, bad) == Chars(old(p), "", old(bad))
        decreases |p|
      {
        if p[0] != '\\' {
          o := o + [p[0]];
          p := p[1..];
        } else {
          var was, before := p, o;
          CharsEscape(was, before, bad);
          var c;
          c, bad := TakeEscape();
          o := o + c;
        }
      }
    }

    /** One escape: what it stands for. */
    method TakeEscape() returns (c: string, bad': bool)
      requires p != "" && p[0] == '\\'
      modifies this`p
      ensures (c, p, bad') == Escape(old(p), bad)
    {
      hide Unicode;
      bad' := bad;
      p := p[1..];
      if p == "" { return "", bad; }
      var x := p[0];
      p := p[1..];
      if x == 'u' {
        UnicodeFits(p);
        var u := Unicode(p);
        if u.None? { return "", true; }
        p := u.value.1;
        return u.value.0, bad;
      }
      c := if x == 'n' then "\n" else if x == 't' then "\t" else if x == 'r' then "\r"
           else if x == 'b' then [8 as char] else if x == 'f' then [12 as char] else [x];
    }

    /** j_str. */
    method TakeStr() returns (s: string)
      modifies this`p, this`bad
      ensures (State(), s) == Str(old(State()))
    {
      hide Chars;
      if Ch(p, 0) != '"' {
        bad := true;
        return "";
      }
      p := p[1..];
      s := TakeChars();
      if Ch(p, 0) == '"' { p := p[1..]; } else { bad := true; }
    }

    method TakeLiteral(e: Ent) returns (e': Ent)
      modifies this`p, this`bad
      ensures (State(), e') == Literal(old(State()), e)
    {
      var n := FindEnd(p);
      var s := p[..n];
      p := p[n..];
      e' := e.(s := s);
      if s == "true" || s == "false" {
        e' := e'.(ty := TBool);
      } else if s == "null" {
        e' := e'.(ty := TNull);
      } else if Ch(s, 0) == '-' || Digit(Ch(s, 0)) {
        e' := e'.(ty := TNum);
      } else {
        bad := true;
      }
    }

    /** j_val: the value at the cursor, put into an entry. */
    method TakeVal(e: Ent) returns (e': Ent)
      modifies this
      ensures (State(), e') == Parse(old(State()), e)
      decreases |p|, 1
    {
      hide Elems, Str, Literal;
      TakeWs();
      var c := Ch(p, 0);
      if c == '{' || c == '[' {
        dep := dep + 1;
        if dep > DEPTH {
          bad := true;
          dep := dep - 1;
          return e;
        }
        var arr := c == '[';
        p := p[1..];
        e' := e.(ty := if arr then TArr else TObj);
        TakeWs();
        if Ch(p, 0) == Closer(arr) {
          p := p[1..];
          dep := dep - 1;
          return;
        }
        ghost var d := dep;
        var m := TakeElems(arr, e'.els);
        dep := dep - 1;
        e' := e'.(els := m);
        return;
      }
      if c == '"' {
        var s := TakeStr();
        return e.(ty := TStr, s := s);
      }
      e' := TakeLiteral(e);
    }

    /** The key of the next element. */
    method TakeKey(arr: bool, n: nat) returns (k: string)
      modifies this`p, this`bad
      ensures (State(), k) == Key(old(State()), arr, n)
    {
      hide Str, Dec;
      TakeWs();
      if arr { return Dec(n); }
      k := TakeStr();
      TakeWs();
      if Ch(p, 0) == ':' { p := p[1..]; } else { bad := true; }
    }

    /** The loop of j_val over the elements of a container. */
    method TakeElems(arr: bool, m0: seq<Ent>) returns (m: seq<Ent>)
      modifies this
      ensures (State(), m) == Elems(old(State()), arr, m0, 0) && dep == old(dep)
      decreases |p|, 2
    {
      hide Parse, Elems, Key, Find;
      m := m0;
      var n := 0;
      ghost var d := dep;
      while true
        invariant n >= 0 && Elems(State(), arr, m, n) == Elems(old(State()), arr, m0, 0) && |p| <= |old(p)| && dep == d
        decreases |p|
      {
        ElemsOne(State(), arr, m, n);
        var k := TakeKey(arr, n);
        n := n + 1;
        var i;
        m, i := AddEntry(m, k);
        var e := TakeVal(m[i]);
        m := m[i := e];
        TakeWs();
        if Ch(p, 0) == ',' {
          p := p[1..];
        } else if Ch(p, 0) == Closer(arr) {
          p := p[1..];
          return;
        } else {
          bad := true;
          return;
        }
      }
    }
  }

  /** What an escape comes to. */
  function Escape(p: string, bad: bool): (string, string, bool)
    requires p != ""
  {
    var c := Ch(p, 1);
    if |p| == 1 then ("", "", bad)
    else if c == 'n' then ("\n", p[2..], bad)
    else if c == 't' then ("\t", p[2..], bad)
    else if c == 'r' then ("\r", p[2..], bad)
    else if c == 'b' then ([8 as char], p[2..], bad)
    else if c == 'f' then ([12 as char], p[2..], bad)
    else if c == 'u' then
      match Unicode(p[2..])
      case None => ("", p[2..], true)
      case Some((u, q)) => (u, q, bad)
    else ([c], p[2..], bad)
  }

  lemma {:induction false} CharsEscape(p: string, o: string, bad: bool)
    requires p != "" && p[0] == '\\'
    ensures var (c, q, b) := Escape(p, bad); Chars(p, o, bad) == Chars(q, o + c, b) && |q| < |p|
  {
    hide Unicode;
    assert o + "" == o;
    if |p| >= 2 { UnicodeFits(p[2..]); }
  }

  lemma {:induction false} UnicodeFits(p: string)
    ensures Unicode(p).Some? ==> |Unicode(p).value.1| < |p|
  {
  }

  method FindEnd(p: string) returns (n: nat)
    ensures n == Run(p) <= |p|
  {
    n := 0;
    assert p[0..] == p;
    while n < |p| && !Ends(p[n])
      invariant n <= |p| && Run(p) == n + Run(p[n..])
    {
      n := n + 1;
    }
  }

  /** mp_add: the entry of a key, a fresh one at the end if there is none. */
  method AddEntry(m0: seq<Ent>, k: string) returns (m: seq<Ent>, i: nat)
    ensures i < |m| && m == (if Find(m0, k).None? then m0 + [Fresh(k)] else m0)
    ensures i == if Find(m0, k).None? then |m0| else Find(m0, k).value
  {
    i := 0;
    assert m0[0..] == m0;
    while i < |m0|
      invariant i <= |m0| && Find(m0, k) == match Find(m0[i..], k) case None => None case Some(j) => Some(i + j)
    {
      if m0[i].k == k { return m0, i; }
      i := i + 1;
    }
    m := m0 + [Fresh(k)];
  }

  lemma {:induction false} ElemsOne(s: St, arr: bool, m: seq<Ent>, n: nat)
    ensures var (st, k) := Key(s, arr, n);
            var m' := if Find(m, k).None? then m + [Fresh(k)] else m;
            var i := if Find(m, k).None? then |m| else Find(m, k).value;
            i < |m'| && |st.p| <= |s.p| &&
            var (t, e) := Parse(st, m'[i]);
            var u := Skip(t);
            |u.p| <= |s.p| && u.dep == s.dep &&
            Elems(s, arr, m, n) ==
            if Ch(u.p, 0) == ',' then Elems(u.(p := u.p[1..]), arr, m'[i := e], n + 1)
            else if Ch(u.p, 0) == Closer(arr) then (u.(p := u.p[1..]), m'[i := e])
            else (u.(bad := true), m'[i := e])
  {
    hide Parse, Key, Find;
    KeyFits(s, arr, n);
    FindFits(m, Key(s, arr, n).1);
    ParseFits(Key(s, arr, n).0, (if Find(m, Key(s, arr, n).1).None? then m + [Fresh(Key(s, arr, n).1)] else m)
              [if Find(m, Key(s, arr, n).1).None? then |m| else Find(m, Key(s, arr, n).1).value]);
  }

  lemma {:induction false} KeyFits(s: St, arr: bool, n: nat)
    ensures |Key(s, arr, n).0.p| <= |s.p| && Key(s, arr, n).0.dep == s.dep
  {
    hide Chars;
  }

  lemma {:induction false} FindFits(m: seq<Ent>, k: string)
    ensures Find(m, k).Some? ==> Find(m, k).value < |m|
  {
  }

  lemma {:induction false} ParseFits(s: St, e: Ent)
    ensures |Parse(s, e).0.p| <= |s.p| && Parse(s, e).0.dep == s.dep
  {
    hide Elems, Chars;
  }

  /** A document parsed from its text: None if it is malformed. */
  method ParseDocument(p: string) returns (r: Option<Ent>)
    ensures r == Document(p)
  {
    hide Parse;
    var j := new Jp(p);
    var e := j.TakeVal(Fresh(""));
    j.TakeWs();
    if !j.bad && j.p != "" { j.bad := true; }
    return if j.bad then None else Some(e);
  }

  /** Emitting and parsing gives the same document. */
  method ThereAndBack(e: Ent, pretty: bool) returns (r: Option<Ent>)
    requires Good(e) && Height(e) <= DEPTH
    ensures r == Some(e.(k := ""))
  {
    hide Good, Height, Emit, Document;
    var text := Out("", e, pretty, 0);
    assert "" + Emit(e, pretty, 0) == Emit(e, pretty, 0);
    DocumentBack(e, pretty);
    r := ParseDocument(text);
  }
}
