/** Every tree, printed, is read back: ax_run gives its value and leaves its variables. */
module ArithRoundTrip {
  import opened Bits
  import opened Int64
  import opened ArithText
  import opened ArithTree
  import opened Decimal
  import opened ArithReads
  import opened ArithAtoms

  // ---- the loops ----

  /** Steps that agree up to spaces still do after an operator has been applied. */
  lemma {:induction false} DoSame(a: St, b: St, op: Op, l: int, r: int)
    requires Skip(a) == Skip(b)
    ensures Skip(ArithText.Do(a, op, l, r).st) == Skip(ArithText.Do(b, op, l, r).st)
    ensures ArithText.Do(a, op, l, r).v == ArithText.Do(b, op, l, r).v
  {
    hide Apply;
    assert a == Skip(b).(p := a.p) && b == Skip(a).(p := b.p);
  }

  lemma {:induction false} LoopStops(st: St, v: int, ts: seq<string>, mp: nat)
    requires Head(ts, 2 + mp)
    ensures BinLoop(Cur(st, ts), v, mp) == Step(Skip(Cur(st, ts)), v)
  {
    hide OpAt, AsgAt, Bin, Do, Head;
    HeadSees(ts, 2 + mp);
  }

  /** One operator: its operand is read, or walked through, and the loop goes on. */
  lemma {:induction false} LoopOp(st: St, v: int, op: Op, ts: seq<string>, mp: nat)
    requires Prec(op) >= mp
    ensures var u := Cur(st, ts);
            BinLoop(Cur(st, [OpText(op)] + ts), v, mp) ==
            if (op == OrOr && v != 0) || (op == AndAnd && v == 0) then
              BinLoop(OutOf(Bin(Into(u, true), Prec(op) + 1).st, true), Truth(op == OrOr), mp)
            else
              var a := Bin(u, if op == Pow then Prec(op) else Prec(op) + 1);
              var d := ArithText.Do(a.st, op, v, a.v);
              BinLoop(d.st, d.v, mp)
  {
    hide OpAt, AsgAt, Bin, Do, OpText, Prec;
    JoinSpaced(ts);
    OpApart(op, Join(ts));
    OpIs(op, Join(ts));
    SkipAt(st, OpText(op), ts);
  }

  // ---- the levels, each on top of the next ----

  /** The tree is read by a routine that has to stop at `ts`. */
  ghost predicate Reads(got: Step, t: Tree, st: St, ts: seq<string>) {
    Same(got, After(t, st, ts))
  }

  ghost predicate Fit(t: Tree, c: nat, st: St) {
    Good(t) && st.depth + Nesting(t, c) <= DEPTH && (HasSet(t) ==> st.asg)
  }

  predicate HasSet(t: Tree) {
    match t
    case Set(_, _, _) => true
    case Unary(_, e) => HasSet(e)
    case Binary(_, l, r) => HasSet(l) || HasSet(r)
    case Cond(c, yes, no) => HasSet(c) || HasSet(yes) || HasSet(no)
    case Seq(l, r) => HasSet(l) || HasSet(r)
    case _ => false
  }

  /** How tight what follows must not be: a right operand goes on reading. */
  function Edge(t: Tree, c: nat): nat {
    if Level(t) < c || !t.Binary? then 16 else RightLevel(t.op)
  }

  lemma {:induction false} HeadLooser(ts: seq<string>, a: nat, b: nat)
    requires Head(ts, a) && a <= b
    ensures Head(ts, b)
  {
  }

  lemma {:induction false} OpHead(op: Op, ts: seq<string>, lvl: nat)
    requires 2 + Prec(op) < lvl
    ensures Head([OpText(op)] + ts, lvl)
  {
  }

  lemma {:induction false} MarkHead(tok: string, ts: seq<string>, lvl: nat)
    requires tok == ")" || tok == ":" || (tok == "," && lvl >= 1) || (tok == "?" && lvl >= 3)
    ensures Head([tok] + ts, lvl)
  {
  }

  lemma {:induction false} UnReads(t: Tree, c: nat, ts: seq<string>, st: St)
    requires Fit(t, c, st) && (Level(t) < c || Level(t) >= 15) && Head(ts, 16)
    ensures Reads(Un(Cur(st, Tokens(t, c) + ts)), t, st, ts)
    decreases t, if Level(t) < c then 1 else 0, 1
  {
    hide Un, Ev, Comma, Head;
    if Level(t) < c {
      ParenFit(t, c, st);
      MarkHead(")", ts, 0);
      CommaReads(t, [")"] + ts, Deeper(st));
      ReadParen(t, ts, st);
    } else {
      match t
      case Num(n) => ReadNum(n, ts, st);
      case Var(name) => ReadVar(name, ts, st);
      case Pre(up, name) => ReadPre(up, name, ts, st);
      case Post(up, name) => ReadPost(up, name, ts, st);
      case Unary(sign, e) =>
        assert Nesting(t, c) == OwnNesting(t);
        UnReads(e, 15, ts, Deeper(st));
        ReadUnary(sign, e, ts, st);
    }
  }

  lemma {:induction false} ParenFit(t: Tree, c: nat, st: St)
    requires Fit(t, c, st) && Level(t) < c
    ensures Fit(t, 0, Deeper(st)) && st.depth + 1 <= DEPTH
  {
  }

  /** The operands of a binary tree read up to its end, the loop still to go on. */
  lemma {:induction false} BinPrefix(t: Tree, c: nat, ts: seq<string>, st: St, mp: nat)
    requires Fit(t, c, st) && c >= 2 + mp && mp >= 1 && Head(ts, Edge(t, c))
    ensures Bin(Cur(st, Tokens(t, c) + ts), mp) == BinLoop(After(t, st, ts).st, After(t, st, ts).v, mp)
    decreases t, if Level(t) < c then 1 else 0, 2
  {
    hide Un, Ev, BinLoop, Bin, Head, Tokens, Fit, OpText;
    if Level(t) < c || !t.Binary? {
      UnReads(t, c, ts, st);
      BinIs(Cur(st, Tokens(t, c) + ts), mp);
      LoopSame(Un(Cur(st, Tokens(t, c) + ts)), After(t, st, ts), mp);
    } else {
      var op, l, r := t.op, t.l, t.r;
      BinaryFit(t, c, st);
      var us := [OpText(op)] + (Tokens(r, RightLevel(op)) + ts);
      BinaryTokens(t, c, ts);
      LeftEdge(op, l, Tokens(r, RightLevel(op)) + ts);
      BinPrefix(l, LeftLevel(op), us, st, mp);
      BinGoesOn(op, l, r, ts, st, mp);
    }
  }

  lemma {:induction false} BinIs(s: St, mp: nat)
    ensures Bin(s, mp) == BinLoop(Un(s).st, Un(s).v, mp)
  {
    hide Un, BinLoop;
  }

  lemma {:induction false} LoopSame(a: Step, b: Step, mp: nat)
    requires Same(a, b)
    ensures BinLoop(a.st, a.v, mp) == BinLoop(b.st, b.v, mp)
  {
    hide BinLoop;
    LoopSkips(a.st, a.v, mp);
    LoopSkips(b.st, b.v, mp);
  }

  lemma {:induction false} BinaryFit(t: Tree, c: nat, st: St)
    requires Fit(t, c, st) && t.Binary? && Level(t) >= c
    ensures Fit(t.l, LeftLevel(t.op), st) && Fit(t.r, RightLevel(t.op), st)
    ensures LeftLevel(t.op) >= Level(t) == 2 + Prec(t.op)
  {
    assert Nesting(t, c) == OwnNesting(t);
  }

  lemma {:induction false} BinaryTokens(t: Tree, c: nat, ts: seq<string>)
    requires t.Binary? && Level(t) >= c
    ensures Tokens(t, c) + ts == Tokens(t.l, LeftLevel(t.op)) + ([OpText(t.op)] + (Tokens(t.r, RightLevel(t.op)) + ts))
  {
    hide OpText;
  }

  /** An operator stops the right operand of what may stand to its left. */
  lemma {:induction false} LeftEdge(op: Op, l: Tree, ts: seq<string>)
    ensures Head([OpText(op)] + ts, Edge(l, LeftLevel(op)))
  {
    hide OpText;
    OpHead(op, ts, Edge(l, LeftLevel(op)));
  }

  /** After the left operand: the operator, and the right operand. */
  lemma {:induction false} BinGoesOn(op: Op, l: Tree, r: Tree, ts: seq<string>, st: St, mp: nat)
    requires Fit(l, LeftLevel(op), st) && Fit(r, RightLevel(op), st) && Prec(op) >= mp && Head(ts, RightLevel(op))
    ensures var a := After(l, st, [OpText(op)] + (Tokens(r, RightLevel(op)) + ts));
            BinLoop(a.st, a.v, mp) ==
            BinLoop(After(Binary(op, l, r), st, ts).st, After(Binary(op, l, r), st, ts).v, mp)
    decreases Binary(op, l, r), 0, 0
  {
    hide Ev, BinLoop, Bin, Head, Tokens, Fit, OpText, ArithText.Do;
    var us := Tokens(r, RightLevel(op)) + ts;
    var a := Ev(l, st);
    EvKeeps(l, st);
    EvBinary(op, l, r, st);
    LoopOp(a.st, a.v, op, us, mp);
    if (op == OrOr && a.v != 0) || (op == AndAnd && a.v == 0) {
      SameFit(r, RightLevel(op), st, Into(a.st, true));
      BinReads(r, RightLevel(op), ts, Into(a.st, true), Prec(op) + 1);
      var b := Bin(Into(Cur(a.st, us), true), Prec(op) + 1);
      LoopSame(Step(OutOf(b.st, true), Truth(op == OrOr)), After(Binary(op, l, r), st, ts), mp);
    } else {
      SameFit(r, RightLevel(op), st, a.st);
      BinReads(r, RightLevel(op), ts, a.st, RightLevel(op) - 2);
      var b := Bin(Cur(a.st, us), RightLevel(op) - 2);
      var e := Ev(r, a.st);
      DoSame(b.st, Cur(e.st, ts), op, a.v, e.v);
      DoCur(e.st, ts, op, a.v, e.v);
      LoopSame(ArithText.Do(b.st, op, a.v, b.v), After(Binary(op, l, r), st, ts), mp);
    }
  }

  lemma {:induction false} DoCur(st: St, ts: seq<string>, op: Op, l: int, r: int)
    ensures ArithText.Do(Cur(st, ts), op, l, r) == Step(Cur(ArithText.Do(st, op, l, r).st, ts), ArithText.Do(st, op, l, r).v)
  {
    hide Apply;
  }

  lemma {:induction false} SameFit(t: Tree, c: nat, a: St, b: St)
    requires Fit(t, c, a) && b.depth == a.depth && b.asg == a.asg
    ensures Fit(t, c, b)
  {
  }

  lemma {:induction false} BinReads(t: Tree, c: nat, ts: seq<string>, st: St, mp: nat)
    requires Fit(t, c, st) && c >= 2 + mp && Head(ts, 2 + mp) && 1 <= mp <= 12
    ensures Reads(Bin(Cur(st, Tokens(t, c) + ts), mp), t, st, ts)
    decreases t, if Level(t) < c then 1 else 0, 3
  {
    hide Ev, BinLoop, Bin, Head, Tokens, Fit;
    HeadLooser(ts, 2 + mp, Edge(t, c));
    BinPrefix(t, c, ts, st, mp);
    LoopStops(Ev(t, st).st, Ev(t, st).v, ts, mp);
    SkipTwice(Cur(Ev(t, st).st, ts));
  }

  // ---- conditions ----

  /** ax_tern without a `?`. */
  lemma {:induction false} TernPlain(s: St)
    requires Ch(Skip(Bin(s, 1).st).p, 0) != '?'
    ensures Tern(s) == Step(Skip(Bin(s, 1).st), Bin(s, 1).v)
  {
    hide Bin, Assign;
  }

  lemma {:induction false} TernTaken(s: St)
    ensures var c := Bin(s, 1);
            var u := Skip(c.st);
            var t := Assign(Into(Drop(u, 1), c.v == 0));
            var m := Skip(OutOf(t.st, c.v == 0));
            var f := Assign(Into(Drop(m, 1), c.v != 0));
            Ch(u.p, 0) == '?' && Ch(m.p, 0) == ':' ==>
              Tern(s) == Step(OutOf(f.st, c.v != 0), if c.v != 0 then t.v else f.v)
  {
    hide Bin, Assign;
  }

  /** The cursor on a mark, and past it. */
  lemma {:induction false} PastMark(st: St, tok: string, ts: seq<string>)
    requires Mark(tok)
    ensures Skip(Cur(st, [tok] + ts)) == st.(p := tok + Join(ts)) && Ch(tok + Join(ts), 0) == tok[0]
    ensures Drop(st.(p := tok + Join(ts)), 1) == Cur(st, ts)
  {
    SkipAt(st, tok, ts);
    assert (tok + Join(ts))[1..] == Join(ts);
  }

  lemma {:induction false} CondTokens(c: Tree, yes: Tree, no: Tree, ts: seq<string>)
    ensures Own(Cond(c, yes, no)) + ts == Tokens(c, 3) + (["?"] + (Tokens(yes, 1) + ([":"] + (Tokens(no, 1) + ts))))
  {
    hide Tokens;
  }

  lemma {:induction false} CondFit(c: Tree, yes: Tree, no: Tree, st: St)
    requires Fit(Cond(c, yes, no), 0, st)
    ensures Fit(c, 3, st) && Fit(yes, 1, st) && Fit(no, 1, st)
  {
    assert Nesting(Cond(c, yes, no), 0) == OwnNesting(Cond(c, yes, no));
  }

  lemma {:induction false} OutSame(a: St, b: St, on: bool)
    requires Skip(a) == Skip(b)
    ensures Skip(OutOf(a, on)) == Skip(OutOf(b, on))
  {
    assert a == Skip(b).(p := a.p) && b == Skip(a).(p := b.p);
  }

  /** One branch of a condition, after its mark: read, taken or not. */
  lemma {:induction false} BranchReads(b: Tree, mark: string, ts: seq<string>, st: St, on: bool, u: St)
    requires Mark(mark) && Fit(b, 1, st) && Head(ts, 1) && Skip(u) == Skip(Cur(st, [mark] + (Tokens(b, 1) + ts)))
    ensures Ch(Skip(u).p, 0) == mark[0]
    ensures Same(Assign(Into(Drop(Skip(u), 1), on)), After(b, Into(st, on), ts))
    ensures var d := Ev(b, Into(st, on)); d.st.depth == st.depth && d.st.asg == st.asg
    decreases b, if Level(b) < 1 then 1 else 0, 7
  {
    hide Ev, Head, Tokens, Fit, Assign;
    PastMark(st, mark, Tokens(b, 1) + ts);
    SameFit(b, 1, st, Into(st, on));
    AssignReads(b, 1, ts, Into(st, on));
    EvKeeps(b, Into(st, on));
  }

  lemma {:induction false} CondReads(c: Tree, yes: Tree, no: Tree, ts: seq<string>, st: St)
    requires Fit(Cond(c, yes, no), 0, st) && Head(ts, 1)
    ensures Reads(Tern(Cur(st, Own(Cond(c, yes, no)) + ts)), Cond(c, yes, no), st, ts)
    decreases Cond(c, yes, no), 0, 4
  {
    hide Ev, Bin, Head, Tokens, Fit, Assign, Tern, Own;
    var nos := Tokens(no, 1) + ts;
    var yeses := Tokens(yes, 1) + ([":"] + nos);
    CondTokens(c, yes, no, ts);
    CondFit(c, yes, no, st);
    var s := Cur(st, Tokens(c, 3) + (["?"] + yeses));
    MarkHead("?", yeses, 3);
    MarkHead(":", nos, 1);
    BinReads(c, 3, ["?"] + yeses, st, 1);
    EvKeeps(c, st);
    TernTaken(s);
    EvCond(c, yes, no, st);
    BranchesRead(c, yes, no, ts, st, Ev(c, st), Bin(s, 1));
  }

  /** The second branch, from wherever the first one really left the cursor. */
  lemma {:induction false} SecondReads(no: Tree, ts: seq<string>, b: Step, t: Step, v: int)
    requires Fit(no, 1, OutOf(b.st, v == 0)) && Head(ts, 1)
    requires Same(t, Step(Cur(b.st, [":"] + (Tokens(no, 1) + ts)), b.v))
    ensures var m := Skip(OutOf(t.st, v == 0));
            var f := Assign(Into(Drop(m, 1), v != 0));
            var d := Ev(no, Into(OutOf(b.st, v == 0), v != 0));
            && Ch(m.p, 0) == ':'
            && Same(Step(OutOf(f.st, v != 0), if v != 0 then t.v else f.v),
                    Step(Cur(OutOf(d.st, v != 0), ts), if v != 0 then b.v else d.v))
    decreases no, if Level(no) < 1 then 1 else 0, 8
  {
    hide Ev, Head, Tokens, Fit, Assign, Drop;
    var st2 := OutOf(b.st, v == 0);
    OutSame(t.st, Cur(b.st, [":"] + (Tokens(no, 1) + ts)), v == 0);
    BranchReads(no, ":", ts, st2, v != 0, OutOf(t.st, v == 0));
    var f := Assign(Into(Drop(Skip(OutOf(t.st, v == 0)), 1), v != 0));
    OutSame(f.st, Cur(Ev(no, Into(st2, v != 0)).st, ts), v != 0);
  }

  /** Both branches, one of them only walked through. */
  lemma {:induction false} BranchesRead(c: Tree, yes: Tree, no: Tree, ts: seq<string>, st: St, a: Step, got: Step)
    requires Fit(yes, 1, st) && Fit(no, 1, st) && Head(ts, 1) && a.st.depth == st.depth && a.st.asg == st.asg
    requires Same(got, Step(Cur(a.st, ["?"] + (Tokens(yes, 1) + ([":"] + (Tokens(no, 1) + ts)))), a.v))
    ensures var u := Skip(got.st);
            var t := Assign(Into(Drop(u, 1), got.v == 0));
            var m := Skip(OutOf(t.st, got.v == 0));
            var f := Assign(Into(Drop(m, 1), got.v != 0));
            var b := Ev(yes, Into(a.st, a.v == 0));
            var d := Ev(no, Into(OutOf(b.st, a.v == 0), a.v != 0));
            && Ch(u.p, 0) == '?' && Ch(m.p, 0) == ':'
            && Same(Step(OutOf(f.st, got.v != 0), if got.v != 0 then t.v else f.v),
                    Step(Cur(OutOf(d.st, a.v != 0), ts), if a.v != 0 then b.v else d.v))
    decreases Cond(c, yes, no), 0, 3
  {
    hide Ev, Head, Tokens, Fit, Assign, Drop;
    MarkHead(":", Tokens(no, 1) + ts, 1);
    SameFit(yes, 1, st, a.st);
    BranchReads(yes, "?", [":"] + (Tokens(no, 1) + ts), a.st, a.v == 0, got.st);
    var b := Ev(yes, Into(a.st, a.v == 0));
    SameFit(no, 1, st, OutOf(b.st, a.v == 0));
    SecondReads(no, ts, b, Assign(Into(Drop(Skip(got.st), 1), got.v == 0)), a.v);
  }

  lemma {:induction false} TernReads(t: Tree, c: nat, ts: seq<string>, st: St)
    requires Fit(t, c, st) && (Level(t) < c || Level(t) >= 2) && Head(ts, 1)
    ensures Reads(Tern(Cur(st, Tokens(t, c) + ts)), t, st, ts)
    decreases t, if Level(t) < c then 1 else 0, 5
  {
    hide Ev, Bin, Head, Fit, Assign, Tern, Own;
    if Level(t) >= c && t.Cond? {
      OwnFit(t, c, st);
      CondReads(t.c, t.yes, t.no, ts, st);
    } else {
      HeadLooser(ts, 1, 3);
      TighterTokens(t, c, 3, st);
      BinReads(t, Max(c, 3), ts, st, 1);
      HeadSees(ts, 1);
      TernPlain(Cur(st, Tokens(t, c) + ts));
      SkipTwice(Cur(Ev(t, st).st, ts));
      SkipTwice(Bin(Cur(st, Tokens(t, c) + ts), 1).st);
    }
  }

  lemma {:induction false} OwnFit(t: Tree, c: nat, st: St)
    requires Fit(t, c, st) && Level(t) >= c
    ensures Fit(t, 0, st)
  {
  }

  /** Asking for a tighter level changes nothing when the tree is that tight, or in parentheses already. */
  lemma {:induction false} TighterTokens(t: Tree, c: nat, d: nat, st: St)
    requires Fit(t, c, st) && (Level(t) < c || Level(t) >= d)
    ensures Tokens(t, Max(c, d)) == Tokens(t, c) && Fit(t, Max(c, d), st)
  {
  }

  // ---- assignments ----

  lemma {:induction false} TernSkips(s: St)
    ensures Tern(s) == Tern(Skip(s))
  {
    hide Un, BinLoop, Assign;
    UnSkips(s);
    BinIs(s, 1);
    BinIs(Skip(s), 1);
  }

  /** Nothing assigns here: a condition is read instead. */
  lemma {:induction false} AssignFalls(s: St, nm: string, q: St)
    requires var st := Skip(s);
             !st.asg || !Starts(Ch(st.p, 0)) || (ArithText.Name(st) == (q, Some(nm)) && AsgAt(Skip(q).p) == None)
    ensures Assign(s) == Tern(s)
  {
    hide Tern, ArithText.Name, AsgAt;
    TernSkips(s);
  }

  ghost predicate NoAsg(ts: seq<string>) {
    AsgAt(Ws(Join(ts))) == None
  }

  lemma {:induction false} OpNoAsg(op: Op, ts: seq<string>)
    ensures NoAsg([OpText(op)] + ts)
  {
    hide OpText;
    JoinSpaced(ts);
    OpApart(op, Join(ts));
    OpIs(op, Join(ts));
    WsJoin([OpText(op)] + ts);
    assert ([OpText(op)] + ts)[1..] == ts;
  }

  lemma {:induction false} MarkNoAsg(tok: string, ts: seq<string>)
    requires Mark(tok) || tok == "++" || tok == "--"
    ensures NoAsg([tok] + ts)
  {
    JoinSpaced(ts);
    if Mark(tok) { MarkNoOp(tok, Join(ts)); }
    WsJoin([tok] + ts);
    assert ([tok] + ts)[1..] == ts;
  }

  ghost predicate Begins(us: seq<string>) {
    && us != [] && us[0] != "" && !Blank(us[0][0])
    && (Starts(us[0][0]) ==> IsName(us[0]) && NoAsg(us[1..]))
  }

  lemma {:induction false} NameTokens(name: string, c: nat)
    requires c <= 16
    ensures Tokens(Var(name), c) == [name]
  {
    assert Own(Var(name)) == [name];
  }

  lemma {:induction false} PostTokens(up: bool, name: string, c: nat, ts: seq<string>)
    requires c <= 16
    ensures Tokens(Post(up, name), c) + ts == [name] + ([Step2(up)] + ts)
  {
    assert Own(Post(up, name)) == [name, Step2(up)];
  }

  lemma {:induction false} NameFirst(name: string, ts: seq<string>)
    requires IsName(name) && NoAsg(ts)
    ensures Begins([name] + ts)
  {
    hide NoAsg, IsName;
    NameStarts2(name);
    assert ([name] + ts)[1..] == ts;
  }

  /** A tree that does not assign begins with a name only where no assignment operator follows it. */
  lemma {:induction false} NameThen(t: Tree, c: nat, ts: seq<string>)
    requires Good(t) && (Level(t) < c || Level(t) >= 2) && NoAsg(ts)
    ensures Begins(Tokens(t, c) + ts)
  {
    hide NoAsg, Dec, IsName, OpText;
    var us := Tokens(t, c) + ts;
    if Level(t) < c {
      assert us[0] == "(";
    } else {
      match t
      case Num(n) => DecStarts(n);
      case Var(name) =>
        NameTokens(name, c);
        NameFirst(name, ts);
      case Pre(_, _) =>
      case Post(up, name) =>
        MarkNoAsg(Step2(up), ts);
        PostTokens(up, name, c, ts);
        NameFirst(name, [Step2(up)] + ts);
      case Unary(_, _) =>
      case Binary(op, l, r) =>
        OpNoAsg(op, Tokens(r, RightLevel(op)) + ts);
        NameThen(l, LeftLevel(op), [OpText(op)] + (Tokens(r, RightLevel(op)) + ts));
        BinaryTokens(t, c, ts);
      case Cond(d, yes, no) =>
        MarkNoAsg("?", Tokens(yes, 1) + ([":"] + (Tokens(no, 1) + ts)));
        NameThen(d, 3, ["?"] + (Tokens(yes, 1) + ([":"] + (Tokens(no, 1) + ts))));
        CondTokens(d, yes, no, ts);
    }
  }

  lemma {:induction false} Falls(t: Tree, c: nat, ts: seq<string>, st: St)
    requires Good(t) && (Level(t) < c || Level(t) >= 2) && Head(ts, 1)
    ensures Assign(Cur(st, Tokens(t, c) + ts)) == Tern(Cur(st, Tokens(t, c) + ts))
  {
    hide Assign, Tern, Tokens, AsgAt, ArithText.Name, IsName, OpAt;
    HeadSees(ts, 1);
    NameThen(t, c, ts);
    var us := Tokens(t, c) + ts;
    assert us == [us[0]] + us[1..];
    SkipAt(st, us[0], us[1..]);
    if Starts(us[0][0]) { ReadName(us[0], us[1..], st); }
    AssignFalls(Cur(st, us), us[0], Cur(st, us[1..]));
  }

  /** An assignment: the name, its operator, and what is assigned. */
  lemma {:induction false} AssignTaken(s: St, q: St, nm: string, how: Option<Op>, n: nat)
    requires var st := Skip(s);
             st.asg && Starts(Ch(st.p, 0)) && ArithText.Name(st) == (q, Some(nm)) && AsgAt(Skip(q).p) == Some((how, n))
    ensures var r := Assign(Drop(Skip(q), n));
            Assign(s) ==
            match how
            case None => Step(ArithText.Set(r.st, nm, r.v), r.v)
            case Some(o) =>
              var d := ArithText.Do(r.st, o, Get(r.st, nm), r.v);
              Step(ArithText.Set(d.st, nm, d.v), d.v)
  {
    hide Tern, ArithText.Name, AsgAt, ArithText.Do, Get, ArithText.Set;
  }

  lemma {:induction false} SetSame(a: Step, b: Step, nm: string, how: Option<Op>)
    requires Same(a, b)
    ensures how.None? ==> Same(Step(ArithText.Set(a.st, nm, a.v), a.v), Step(ArithText.Set(b.st, nm, b.v), b.v))
    ensures how.Some? ==>
              var d, e := ArithText.Do(a.st, how.value, Get(a.st, nm), a.v), ArithText.Do(b.st, how.value, Get(b.st, nm), b.v);
              Same(Step(ArithText.Set(d.st, nm, d.v), d.v), Step(ArithText.Set(e.st, nm, e.v), e.v))
  {
    hide Apply, Wrap;
    assert a.st == Skip(b.st).(p := a.st.p) && b.st == Skip(a.st).(p := b.st.p);
  }

  /** What an assignment leaves, the cursor moved on. */
  lemma {:induction false} SetAfter(how: Option<Op>, name: string, e: Tree, st: St, ts: seq<string>)
    ensures var b := After(e, st, ts);
            After(Set(how, name, e), st, ts) ==
            match how
            case None => Step(ArithText.Set(b.st, name, b.v), b.v)
            case Some(o) =>
              var d := ArithText.Do(b.st, o, Get(b.st, name), b.v);
              Step(ArithText.Set(d.st, name, d.v), d.v)
  {
    hide Apply, Wrap;
  }

  lemma {:induction false} SetReads(how: Option<Op>, name: string, e: Tree, ts: seq<string>, st: St)
    requires Fit(Set(how, name, e), 0, st) && Head(ts, 1)
    ensures Reads(Assign(Cur(st, Own(Set(how, name, e)) + ts)), Set(how, name, e), st, ts)
    decreases Set(how, name, e), 0, 5
  {
    hide Assign, Tokens, AsgAt, ArithText.Name, IsName, Ev, Head, AsgText, ArithText.Do, ArithText.Set, Get;
    var us := Tokens(e, 1) + ts;
    SetFit(how, name, e, st);
    assert Own(Set(how, name, e)) + ts == [name] + ([AsgText(how)] + us);
    NameStarts2(name);
    ReadName(name, [AsgText(how)] + us, st);
    JoinSpaced(us);
    AsgIs(how, Join(us));
    SkipAt(st, AsgText(how), us);
    AssignTaken(Cur(st, [name] + ([AsgText(how)] + us)), Cur(st, [AsgText(how)] + us), name, how, |AsgText(how)|);
    AssignReads(e, 1, ts, st);
    SetSame(Assign(Cur(st, us)), After(e, st, ts), name, how);
    SetAfter(how, name, e, st, ts);
  }

  lemma {:induction false} SetFit(how: Option<Op>, name: string, e: Tree, st: St)
    requires Fit(Set(how, name, e), 0, st)
    ensures Fit(e, 1, st) && IsName(name) && Assigns(how) && st.asg
  {
    assert Nesting(Set(how, name, e), 0) == OwnNesting(Set(how, name, e));
  }

  lemma {:induction false} AssignReads(t: Tree, c: nat, ts: seq<string>, st: St)
    requires Fit(t, c, st) && (Level(t) < c || Level(t) >= 1) && Head(ts, 1)
    ensures Reads(Assign(Cur(st, Tokens(t, c) + ts)), t, st, ts)
    decreases t, if Level(t) < c then 1 else 0, 6
  {
    hide Ev, Head, Fit, Assign, Tern, Own;
    if Level(t) >= c && t.Set? {
      OwnFit(t, c, st);
      SetReads(t.how, t.name, t.e, ts, st);
    } else {
      assert Good(t) by { FitGood(t, c, st); }
      Falls(t, c, ts, st);
      TernReads(t, c, ts, st);
    }
  }

  lemma {:induction false} FitGood(t: Tree, c: nat, st: St)
    requires Fit(t, c, st)
    ensures Good(t)
  {
  }

  // ---- sequences ----

  lemma {:induction false} CommaIs(s: St)
    ensures Comma(s) == CommaLoop(Assign(s).st, Assign(s).v)
  {
    hide Assign, CommaLoop;
  }

  lemma {:induction false} CommaSame(a: Step, b: Step)
    requires Same(a, b)
    ensures CommaLoop(a.st, a.v) == CommaLoop(b.st, b.v)
  {
    hide CommaLoop;
    CommaLoopSkips(a.st, a.v);
    CommaLoopSkips(b.st, b.v);
  }

  lemma {:induction false} CommaStep(st: St, v: int, ts: seq<string>)
    ensures CommaLoop(Cur(st, [","] + ts), v) == CommaLoop(Assign(Cur(st, ts)).st, Assign(Cur(st, ts)).v)
  {
    hide Assign;
    PastMark(st, ",", ts);
  }

  /** A sequence up to its end, the loop still to go on. */
  lemma {:induction false} CommaPrefix(t: Tree, ts: seq<string>, st: St)
    requires Fit(t, 0, st) && Head(ts, 1)
    ensures Comma(Cur(st, Own(t) + ts)) == CommaLoop(After(t, st, ts).st, After(t, st, ts).v)
    decreases t, 0, 7
  {
    hide Ev, Head, Assign, Comma, CommaLoop;
    if t.Seq? {
      var us := Tokens(t.r, 1) + ts;
      SeqFit(t, st);
      assert Own(t) + ts == Own(t.l) + ([","] + us);
      MarkHead(",", us, 1);
      CommaPrefix(t.l, [","] + us, st);
      var a := Ev(t.l, st);
      EvKeeps(t.l, st);
      CommaStep(a.st, a.v, us);
      SameFit(t.r, 1, st, a.st);
      AssignReads(t.r, 1, ts, a.st);
      CommaSame(Assign(Cur(a.st, us)), After(t.r, a.st, ts));
      EvSeq(t, st);
    } else {
      AssignReads(t, 0, ts, st);
      CommaIs(Cur(st, Own(t) + ts));
      CommaSame(Assign(Cur(st, Own(t) + ts)), After(t, st, ts));
    }
  }

  lemma {:induction false} SeqFit(t: Tree, st: St)
    requires Fit(t, 0, st) && t.Seq?
    ensures Fit(t.l, 0, st) && Fit(t.r, 1, st)
  {
    assert Nesting(t, 0) == OwnNesting(t);
  }

  lemma {:induction false} EvSeq(t: Tree, st: St)
    requires t.Seq?
    ensures Ev(t, st) == Ev(t.r, Ev(t.l, st).st)
  {
  }

  lemma {:induction false} CommaStops(st: St, v: int, ts: seq<string>)
    requires Head(ts, 0)
    ensures CommaLoop(Cur(st, ts), v) == Step(Skip(Cur(st, ts)), v)
  {
    hide Assign;
    HeadSees(ts, 0);
  }

  lemma {:induction false} CommaReads(t: Tree, ts: seq<string>, st: St)
    requires Fit(t, 0, st) && Head(ts, 0)
    ensures Reads(Comma(Cur(st, Own(t) + ts)), t, st, ts)
    decreases t, 0, 8
  {
    hide Ev, Head, Comma, CommaLoop, Own, Fit;
    HeadLooser(ts, 0, 1);
    CommaPrefix(t, ts, st);
    CommaStops(Ev(t, st).st, Ev(t, st).v, ts);
    SkipTwice(Cur(Ev(t, st).st, ts));
  }

  // ---- whether the text assigns ----

  /** The scan does not miss an `=` that belongs to an assignment. */
  lemma {:induction false} ScanFinds(p: string, i: nat, k: nat)
    requires i <= k < |p| && p[k] == '=' && Ch(p, k + 1) != '=' && (k == 0 || p[k - 1] != '=')
    requires !(k > 0 && p[k - 1] in "!<>" && !(k > 1 && p[k - 2] == p[k - 1]))
    ensures HasAsg(p, i)
    decreases k - i
  {
    if i < k {
      if p[i] == '=' && Ch(p, i + 1) == '=' { ScanFinds(p, i + 2, k); } else if i + 1 <= k { ScanFinds(p, i + 1, k); }
    }
  }

  ghost predicate HasTok(ts: seq<string>) {
    exists m: nat, how: Option<Op> :: m < |ts| && Assigns(how) && ts[m] == AsgText(how)
  }

  lemma {:induction false} TokIn(a: seq<string>, b: seq<string>)
    requires HasTok(a) || HasTok(b)
    ensures HasTok(a + b)
  {
    hide AsgText;
    if HasTok(a) {
      var m: nat, how: Option<Op> :| m < |a| && Assigns(how) && a[m] == AsgText(how);
      assert (a + b)[m] == AsgText(how);
    } else {
      var m: nat, how: Option<Op> :| m < |b| && Assigns(how) && b[m] == AsgText(how);
      assert (a + b)[|a| + m] == AsgText(how);
    }
  }

  lemma {:induction false} OneTok(how: Option<Op>)
    requires Assigns(how)
    ensures HasTok([AsgText(how)])
  {
    assert [AsgText(how)][0] == AsgText(how);
  }

  lemma {:induction false} SetHasTok(t: Tree, c: nat)
    requires Good(t) && HasSet(t)
    ensures HasTok(Tokens(t, c))
    decreases t, 1
  {
    hide HasTok;
    OwnHasTok(t);
    if Level(t) < c {
      TokIn(["("], Own(t));
      TokIn(["("] + Own(t), [")"]);
    }
  }

  lemma {:induction false} OwnHasTok(t: Tree)
    requires Good(t) && HasSet(t)
    ensures HasTok(Own(t))
    decreases t, 0
  {
    hide HasTok, AsgText, OpText;
    match t
    case Set(how, name, e) =>
      OneTok(how);
      TokIn([name], [AsgText(how)]);
      TokIn([name] + [AsgText(how)], Tokens(e, 1));
      assert [name] + [AsgText(how)] == [name, AsgText(how)];
    case Unary(sign, e) =>
      SetHasTok(e, 15);
      TokIn([[sign]], Tokens(e, 15));
    case Binary(op, l, r) =>
      if HasSet(l) { SetHasTok(l, LeftLevel(op)); } else {
        SetHasTok(r, RightLevel(op));
        TokIn([OpText(op)], Tokens(r, RightLevel(op)));
      }
      TokIn(Tokens(l, LeftLevel(op)), [OpText(op)] + Tokens(r, RightLevel(op)));
    case Cond(d, yes, no) =>
      if HasSet(d) { SetHasTok(d, 3); }
      if HasSet(yes) { SetHasTok(yes, 1); TokIn(Tokens(yes, 1), [":"] + Tokens(no, 1)); }
      if HasSet(no) { SetHasTok(no, 1); TokIn([":"], Tokens(no, 1)); TokIn(Tokens(yes, 1), [":"] + Tokens(no, 1)); }
      if HasSet(yes) || HasSet(no) { TokIn(["?"], Tokens(yes, 1) + ([":"] + Tokens(no, 1))); }
      TokIn(Tokens(d, 3), ["?"] + (Tokens(yes, 1) + ([":"] + Tokens(no, 1))));
    case Seq(l, r) =>
      if HasSet(l) { SetHasTok(l, 0); } else {
        SetHasTok(r, 1);
        TokIn([","], Tokens(r, 1));
      }
      TokIn(Tokens(l, 0), [","] + Tokens(r, 1));
  }

  /** An assignment operator among spaced tokens is found. */
  lemma {:induction false} TokAssigns(ts: seq<string>)
    requires HasTok(ts)
    ensures HasAsg(Join(ts), 0)
  {
    hide AsgText, HasAsg;
    var m: nat, how: Option<Op> :| m < |ts| && Assigns(how) && ts[m] == AsgText(how);
    var a, q := Join(ts[..m]), Join(ts[m + 1..]);
    assert ts == ts[..m] + ts[m..] && ts[m..][0] == ts[m] && ts[m..][1..] == ts[m + 1..];
    JoinConcat(ts[..m], ts[m..]);
    JoinSpaced(ts[m + 1..]);
    AsgChars(how);
    var p := a + (" " + AsgText(how) + q);
    assert Join(ts) == p;
    var k := |a| + |AsgText(how)|;
    AsgPlace(a, how, q, p, k);
    ScanFinds(p, 0, k);
  }

  lemma {:induction false} AsgChars(how: Option<Op>)
    requires Assigns(how)
    ensures var s := AsgText(how); var n := |s|;
            && 1 <= n <= 3 && s[n - 1] == '=' && (n > 1 ==> s[n - 2] != '=')
            && (n == 2 ==> s[0] !in "!<>") && (n == 3 ==> s[0] == s[1])
  {
  }

  lemma {:induction false} AsgPlace(a: string, how: Option<Op>, q: string, p: string, k: nat)
    requires Assigns(how) && Spaced(q) && p == a + (" " + AsgText(how) + q) && k == |a| + |AsgText(how)|
    ensures k < |p| && p[k] == '=' && Ch(p, k + 1) != '=' && (k == 0 || p[k - 1] != '=')
    ensures !(k > 0 && p[k - 1] in "!<>" && !(k > 1 && p[k - 2] == p[k - 1]))
  {
    hide AsgText;
    AsgChars(how);
    var s := AsgText(how);
    var w := " " + s + q;
    assert forall i :: 0 <= i < |w| ==> p[|a| + i] == w[i];
    assert w[0] == ' ' && forall i :: 0 <= i < |s| ==> w[1 + i] == s[i];
  }

  // ---- the whole ----

  /** A tree printed with spaces and only the parentheses it needs. */
  function Print(t: Tree): string {
    Join(Tokens(t, 0))
  }

  /** ax_run on a printed tree: its value, 0 if it failed, and its variables. */
  lemma {:induction false} RunMeans(t: Tree, store: map<string, int>)
    requires Good(t) && Nesting(t, 0) <= DEPTH
    ensures var r := Eval(t, store);
            Run(Print(t), store) == Outcome(if r.v.None? then 0 else r.v.value, r.store, r.v.None?)
  {
    hide Comma, Ev, Eval, HasAsg, Tokens, HasTok, Nesting;
    var src := Print(t);
    if HasSet(t) {
      SetHasTok(t, 0);
      TokAssigns(Tokens(t, 0));
    }
    var st := St(src, store, 0, false, 0, HasAsg(src, 0));
    TokensOwn(t);
    NoHead();
    CommaReads(t, [], st);
    assert Own(t) + [] == Own(t);
    EvMeans(t, st);
    WsStops("");
  }

  lemma {:induction false} TokensOwn(t: Tree)
    ensures Tokens(t, 0) == Own(t)
  {
  }

  lemma {:induction false} NoHead()
    ensures Head([], 0)
  {
  }
}
