/** The parser reads every printed tree back: tokens, and the states between them. */
module ArithReads {
  import opened Bits
  import opened Int64
  import opened ArithText
  import opened ArithTree
  import opened Decimal

  // ---- text between tokens ----

  /** What follows a token: nothing, or a space. */
  predicate Spaced(s: string) { s == "" || s[0] == ' ' }

  lemma {:induction false} JoinSpaced(ts: seq<string>)
    ensures Spaced(Join(ts))
  {
  }

  lemma {:induction false} JoinConcat(a: seq<string>, b: seq<string>)
    ensures Join(a + b) == Join(a) + Join(b)
  {
    if a == [] {
      assert a + b == b;
    } else {
      assert (a + b)[1..] == a[1..] + b;
      JoinConcat(a[1..], b);
    }
  }

  lemma {:induction false} WsStops(p: string)
    requires p == "" || !Blank(p[0])
    ensures Ws(p) == p
  {
  }

  lemma {:induction false} WsTwice(p: string)
    ensures Ws(Ws(p)) == Ws(p) && (Ws(p) == "" || !Blank(Ws(p)[0]))
  {
    if p != "" && Blank(p[0]) { WsTwice(p[1..]); }
  }

  /** Skipping the space before a token leaves the cursor on it. */
  lemma {:induction false} WsJoin(ts: seq<string>)
    requires ts != [] && ts[0] != "" && !Blank(ts[0][0])
    ensures Ws(Join(ts)) == ts[0] + Join(ts[1..])
  {
    var s := ts[0] + Join(ts[1..]);
    assert Join(ts)[1..] == s;
    WsStops(s);
  }

  lemma {:induction false} SkipTwice(st: St)
    ensures Skip(Skip(st)) == Skip(st)
  {
    WsTwice(st.p);
  }

  /** Two steps that differ only in spaces still to be skipped. */
  ghost predicate Same(a: Step, b: Step) {
    a.v == b.v && Skip(a.st) == Skip(b.st)
  }

  lemma {:induction false} UnSkips(s: St)
    ensures Un(s) == Un(Skip(s))
  {
    SkipTwice(s);
  }

  lemma {:induction false} LoopSkips(s: St, v: int, mp: nat)
    ensures BinLoop(s, v, mp) == BinLoop(Skip(s), v, mp)
  {
    SkipTwice(s);
  }

  lemma {:induction false} CommaLoopSkips(s: St, v: int)
    ensures CommaLoop(s, v) == CommaLoop(Skip(s), v)
  {
    SkipTwice(s);
  }

  /** The cursor at the space before some tokens. */
  function Cur(st: St, ts: seq<string>): St { st.(p := Join(ts)) }

  // ---- names ----

  lemma {:induction false} NameEndIs(name: string, q: string)
    requires (forall i :: 0 <= i < |name| ==> Continues(name[i])) && Spaced(q)
    ensures NameEnd(name + q) == q
  {
    if name == "" {
      assert name + q == q;
    } else {
      assert (name + q)[1..] == name[1..] + q;
      NameEndIs(name[1..], q);
    }
  }

  lemma {:induction false} NameIs(st: St, name: string, q: string)
    requires IsName(name) && Spaced(q) && st.p == name + q
    ensures ArithText.Name(st) == (st.(p := q), Some(name))
  {
    NameEndIs(name, q);
    assert st.p[..|st.p| - |q|] == name;
  }

  // ---- numbers ----

  lemma {:induction false} DigitsDec(n: nat, q: string)
    ensures Digits(Dec(n) + q, 10, 0) == Digits(q, 10, n)
  {
    var d := (n % 10) as char + '0';
    if n < 10 {
      assert (Dec(n) + q)[1..] == q;
    } else {
      assert Dec(n) + q == Dec(n / 10) + ([d] + q);
      DigitsDec(n / 10, [d] + q);
      assert ([d] + q)[1..] == q;
    }
  }

  lemma {:induction false} DecStarts(n: nat)
    ensures IsDigit(Dec(n)[0]) && (n > 0 ==> Dec(n)[0] != '0') && (n == 0 ==> Dec(n) == "0")
  {
    if n >= 10 { DecStarts(n / 10); }
  }

  lemma {:induction false} DigitsStop(q: string, b: nat, n: nat)
    requires Spaced(q) && b <= 16
    ensures Digits(q, b, n) == (n, q)
  {
  }

  lemma {:induction false} NumberIs(st: St, n: nat, q: string)
    requires Spaced(q) && st.p == Dec(n) + q
    ensures IsDigit(Ch(st.p, 0)) && Number(st) == Step(st.(p := q), Wrap(n))
  {
    hide Wrap, Dec, Digits;
    DecStarts(n);
    DigitsDec(n, q);
    DigitsStop(q, 10, n);
    DigitsStop(q, 8, 0);
    if n == 0 { assert st.p[1..] == q; }
  }

  // ---- operators ----

  predicate Mark(tok: string) { tok == ")" || tok == ":" || tok == "?" || tok == "," }

  lemma {:induction false} MarkNoOp(tok: string, q: string)
    requires Mark(tok) && Spaced(q)
    ensures OpAt(tok + q) == None && Ch(tok + q, 0) == tok[0] && !Blank(tok[0]) && AsgAt(tok + q) == None
    ensures tok[0] !in "+-!~" && !Starts(tok[0]) && Drop(St(tok + q, map[], 0, false, 0, false), 1).p == q
  {
    assert (tok + q)[1..] == q;
  }

  lemma {:induction false} OpChars(op: Op, q: string)
    requires Spaced(q)
    ensures var s := OpText(op) + q;
            && Ch(s, 0) == OpText(op)[0] && Ch(s, 1) == (if Len(op) == 2 then OpText(op)[1] else if q == "" then '\0' else ' ')
            && (Ch(s, Len(op)) == '\0' || Ch(s, Len(op)) == ' ')
            && |OpText(op)| == Len(op) && s[Len(op)..] == q
  {
    var s := OpText(op) + q;
    assert s[|OpText(op)|..] == q;
  }

  lemma {:induction false} OpIs(op: Op, q: string)
    requires Spaced(q)
    ensures OpAt(OpText(op) + q) == Some(op) && |OpText(op)| == Len(op) && (OpText(op) + q)[Len(op)..] == q
  {
    OpChars(op, q);
  }

  lemma {:induction false} OpApart(op: Op, q: string)
    requires Spaced(q)
    ensures !Blank(OpText(op)[0]) && AsgAt(OpText(op) + q) == None
    ensures var s := OpText(op) + q; !(Ch(s, 0) == '+' && Ch(s, 1) == '+') && !(Ch(s, 0) == '-' && Ch(s, 1) == '-')
    ensures Ch(OpText(op) + q, 0) !in "?:,"
  {
    OpChars(op, q);
  }

  lemma {:induction false} EndNoOp()
    ensures OpAt("") == None && Ws("") == "" && AsgAt("") == None
  {
  }

  lemma {:induction false} AsgIs(how: Option<Op>, q: string)
    requires Assigns(how) && Spaced(q)
    ensures AsgAt(AsgText(how) + q) == Some((how, |AsgText(how)|)) && (AsgText(how) + q)[|AsgText(how)|..] == q
    ensures AsgText(how) != "" && !Blank(AsgText(how)[0])
  {
    var a := AsgText(how);
    var s := a + q;
    assert s[|a|..] == q;
    assert Ch(s, 0) == a[0] && (|a| > 1 ==> Ch(s, 1) == a[1]) && (|a| > 2 ==> Ch(s, 2) == a[2]);
  }
}
