/** Numbers, names, prefix operators and parentheses are read back, whatever may follow them. */
module ArithAtoms {
  import opened Bits
  import opened Int64
  import opened ArithText
  import opened ArithTree
  import opened Decimal
  import opened ArithReads

  // ---- the parser's own evaluation does not look at the text ----

  lemma {:induction false} EvKeeps(t: Tree, st: St)
    ensures Ev(t, st).st.p == st.p && Ev(t, st).st.depth == st.depth && Ev(t, st).st.skip == st.skip && Ev(t, st).st.asg == st.asg
  {
    hide Apply, Wrap, Prefix, Get;
    match t
    case Num(_) =>
    case Var(_) =>
    case Pre(_, _) =>
    case Post(_, _) =>
    case Unary(_, e) => EvKeeps(e, st);
    case Binary(op, l, r) =>
      EvKeeps(l, st);
      EvKeeps(r, Ev(l, st).st);
      EvKeeps(r, Into(Ev(l, st).st, true));
    case Cond(c, yes, no) =>
      EvKeeps(c, st);
      var a := Ev(c, st);
      EvKeeps(yes, Into(a.st, a.v == 0));
      EvKeeps(no, Into(OutOf(Ev(yes, Into(a.st, a.v == 0)).st, a.v == 0), a.v != 0));
    case Set(_, _, e) => EvKeeps(e, st);
    case Seq(l, r) =>
      EvKeeps(l, st);
      EvKeeps(r, Ev(l, st).st);
  }

  lemma {:induction false} GetFrame(st: St, p: string, d: nat, nm: string)
    ensures Get(st.(p := p, depth := d), nm) == Get(st, nm)
  {
  }

  /** Evaluating elsewhere in the text, or at another depth, is the same. */
  ghost predicate Framed(t: Tree, st: St, p: string, d: nat) {
    Ev(t, st.(p := p, depth := d)) == Step(Ev(t, st).st.(p := p, depth := d), Ev(t, st).v)
  }

  lemma {:induction false} BinaryFramed(op: Op, l: Tree, r: Tree, st: St, p: string, d: nat)
    requires Framed(l, st, p, d) && Framed(r, Ev(l, st).st, p, d) && Framed(r, Into(Ev(l, st).st, true), p, d)
    ensures Framed(Binary(op, l, r), st, p, d)
  {
    hide Ev, ArithText.Do;
    EvBinary(op, l, r, st);
    EvBinary(op, l, r, st.(p := p, depth := d));
    var a := Ev(l, st);
    DoFrame(Ev(r, a.st).st, p, d, op, a.v, Ev(r, a.st).v);
  }

  lemma {:induction false} DoFrame(st: St, p: string, d: nat, op: Op, l: int, r: int)
    ensures ArithText.Do(st.(p := p, depth := d), op, l, r) ==
            Step(ArithText.Do(st, op, l, r).st.(p := p, depth := d), ArithText.Do(st, op, l, r).v)
  {
    hide Apply;
  }

  lemma {:induction false} EvBinary(op: Op, l: Tree, r: Tree, st: St)
    ensures Ev(Binary(op, l, r), st) ==
            var a := Ev(l, st);
            if (op == OrOr && a.v != 0) || (op == AndAnd && a.v == 0) then
              Step(OutOf(Ev(r, Into(a.st, true)).st, true), Truth(op == OrOr))
            else
              ArithText.Do(Ev(r, a.st).st, op, a.v, Ev(r, a.st).v)
  {
    hide ArithText.Do;
  }

  lemma {:induction false} CondFramed(c: Tree, yes: Tree, no: Tree, st: St, p: string, d: nat)
    requires Framed(c, st, p, d)
    requires var a := Ev(c, st);
             var b := Ev(yes, Into(a.st, a.v == 0));
             Framed(yes, Into(a.st, a.v == 0), p, d) && Framed(no, Into(OutOf(b.st, a.v == 0), a.v != 0), p, d)
    ensures Framed(Cond(c, yes, no), st, p, d)
  {
    hide Ev;
    EvCond(c, yes, no, st);
    EvCond(c, yes, no, st.(p := p, depth := d));
  }

  lemma {:induction false} EvCond(c: Tree, yes: Tree, no: Tree, st: St)
    ensures Ev(Cond(c, yes, no), st) ==
            var a := Ev(c, st);
            var b := Ev(yes, Into(a.st, a.v == 0));
            var d := Ev(no, Into(OutOf(b.st, a.v == 0), a.v != 0));
            Step(OutOf(d.st, a.v != 0), if a.v != 0 then b.v else d.v)
  {
  }

  lemma {:induction false} EvFrame(t: Tree, st: St, p: string, d: nat)
    ensures Framed(t, st, p, d)
  {
    hide Apply, Wrap, Prefix, Get;
    match t
    case Num(_) =>
    case Var(nm) => GetFrame(st, p, d, nm);
    case Pre(_, nm) => GetFrame(st, p, d, nm);
    case Post(_, nm) => GetFrame(st, p, d, nm);
    case Unary(_, e) => EvFrame(e, st, p, d);
    case Binary(op, l, r) =>
      EvFrame(l, st, p, d);
      EvFrame(r, Ev(l, st).st, p, d);
      EvFrame(r, Into(Ev(l, st).st, true), p, d);
      BinaryFramed(op, l, r, st, p, d);
    case Cond(c, yes, no) =>
      EvFrame(c, st, p, d);
      var a := Ev(c, st);
      EvFrame(yes, Into(a.st, a.v == 0), p, d);
      var b := Ev(yes, Into(a.st, a.v == 0));
      EvFrame(no, Into(OutOf(b.st, a.v == 0), a.v != 0), p, d);
      CondFramed(c, yes, no, st, p, d);
    case Set(_, nm, e) =>
      EvFrame(e, st, p, d);
      GetFrame(Ev(e, st).st, p, d, nm);
    case Seq(l, r) =>
      EvFrame(l, st, p, d);
      EvFrame(r, Ev(l, st).st, p, d);
  }

  /** What the parser should come to after a tree, with `ts` still to read. */
  function After(t: Tree, st: St, ts: seq<string>): Step {
    Step(Cur(Ev(t, st).st, ts), Ev(t, st).v)
  }

  lemma {:induction false} AfterDeeper(t: Tree, st: St, ts: seq<string>)
    ensures After(t, Deeper(st), ts) == Step(Deeper(After(t, st, ts).st), After(t, st, ts).v)
  {
    hide Ev;
    EvKeeps(t, st);
    EvFrame(t, st, st.p, st.depth + 1);
  }

  // ---- what may follow ----

  /** A token that does not go on with an expression of level `lvl`. */
  ghost predicate Allowed(tok: string, lvl: nat) {
    || tok == ")" || tok == ":" || (tok == "," && lvl >= 1) || (tok == "?" && lvl >= 3)
    || exists op :: tok == OpText(op) && 2 + Prec(op) < lvl
  }

  ghost predicate Head(ts: seq<string>, lvl: nat) {
    ts != [] ==> Allowed(ts[0], lvl)
  }

  /** What the cursor sees there. */
  lemma {:induction false} HeadSees(ts: seq<string>, lvl: nat)
    requires Head(ts, lvl)
    ensures var s := Ws(Join(ts));
            && !(Ch(s, 0) == '+' && Ch(s, 1) == '+') && !(Ch(s, 0) == '-' && Ch(s, 1) == '-') && AsgAt(s) == None
            && (OpAt(s).Some? ==> 2 + Prec(OpAt(s).value) < lvl)
            && (lvl < 3 ==> Ch(s, 0) != '?') && (lvl < 1 ==> Ch(s, 0) != ',')
  {
    hide OpAt, AsgAt, OpText;
    if ts == [] {
      EndNoOp();
    } else {
      var q := Join(ts[1..]);
      JoinSpaced(ts[1..]);
      if Mark(ts[0]) {
        MarkNoOp(ts[0], q);
      } else {
        var op :| ts[0] == OpText(op) && 2 + Prec(op) < lvl;
        OpIs(op, q);
        OpApart(op, q);
        OpChars(op, q);
      }
      WsJoin(ts);
    }
  }

  lemma {:induction false} SkipAt(st: St, tok: string, ts: seq<string>)
    requires tok != "" && !Blank(tok[0])
    ensures Skip(Cur(st, [tok] + ts)) == st.(p := tok + Join(ts))
  {
    WsJoin([tok] + ts);
    assert ([tok] + ts)[1..] == ts;
  }

  // ---- one routine at a time, the cursor on a token ----

  predicate Doubled(p: string) { (Ch(p, 0) == '+' && Ch(p, 1) == '+') || (Ch(p, 0) == '-' && Ch(p, 1) == '-') }

  lemma {:induction false} UnIsPrim(s: St)
    requires Skip(s) == s && Ch(s.p, 0) !in "-+!~"
    ensures Un(s) == Prim(s)
  {
    hide Prim, Unop, ArithText.Name;
  }

  lemma {:induction false} UnSigned(s: St)
    requires Skip(s) == s && Ch(s.p, 0) in "-+!~" && !Doubled(s.p)
    ensures Un(s) == Step(Unop(Drop(s, 1)).st, Prefix(Ch(s.p, 0), Unop(Drop(s, 1)).v))
  {
    hide Prim, Unop, ArithText.Name, Prefix;
  }

  lemma {:induction false} UnDoubled(s: St, t: St, nm: string)
    requires Skip(s) == s && Doubled(s.p) && ArithText.Name(Skip(Drop(s, 2))) == (t, Some(nm))
    ensures var v := Wrap(Get(t, nm) + (if Ch(s.p, 0) == '+' then 1 else -1)); Un(s) == Step(ArithText.Set(t, nm, v), v)
  {
    hide Prim, Unop, ArithText.Name, Wrap, Get, ArithText.Set;
  }

  lemma {:induction false} PrimNamed(s: St, t: St, nm: string)
    requires Skip(s) == s && Starts(Ch(s.p, 0)) && ArithText.Name(s) == (t, Some(nm))
    ensures var v, u := Get(t, nm), Skip(t);
            Prim(s) == if !Doubled(u.p) then Step(u, v)
                       else Step(Drop(ArithText.Set(u, nm, Wrap(v + (if Ch(u.p, 0) == '+' then 1 else -1))), 2), v)
  {
    hide ArithText.Name, Wrap, Get, ArithText.Set, Comma, Number, Drop;
  }

  lemma {:induction false} PrimParen(s: St)
    requires Skip(s) == s && Ch(s.p, 0) == '(' && s.depth + 1 <= DEPTH
    ensures var a := Comma(Drop(Deeper(s), 1));
            var b := Skip(Shallower(a.st));
            Ch(b.p, 0) == ')' ==> Prim(s) == Step(Drop(b, 1), a.v)
  {
    hide ArithText.Name, Comma, Number;
  }

  lemma {:induction false} PrimNumber(s: St)
    requires Skip(s) == s && IsDigit(Ch(s.p, 0))
    ensures Prim(s) == Number(s)
  {
    hide ArithText.Name, Comma, Number;
  }

  // ---- atoms ----

  lemma {:induction false} ReadNum(n: nat, ts: seq<string>, st: St)
    ensures Same(Un(Cur(st, [Dec(n)] + ts)), After(Num(n), st, ts))
  {
    hide Wrap, Dec, Number, Un, Prim;
    DecStarts(n);
    SkipAt(st, Dec(n), ts);
    JoinSpaced(ts);
    var s := st.(p := Dec(n) + Join(ts));
    NumberIs(s, n, Join(ts));
    UnSkips(Cur(st, [Dec(n)] + ts));
    WsStops(s.p);
    UnIsPrim(s);
    PrimNumber(s);
  }

  lemma {:induction false} ReadName(name: string, ts: seq<string>, st: St)
    requires IsName(name)
    ensures var s := st.(p := name + Join(ts));
            && Skip(Cur(st, [name] + ts)) == s && Skip(s) == s && ArithText.Name(s) == (Cur(st, ts), Some(name))
            && s.p[0] == name[0] && Ch(s.p, 0) == name[0]
  {
    hide IsName;
    JoinSpaced(ts);
    NameStarts2(name);
    SkipAt(st, name, ts);
    NameIs(st.(p := name + Join(ts)), name, Join(ts));
    WsStops(name + Join(ts));
  }

  lemma {:induction false} NameStarts2(name: string)
    requires IsName(name)
    ensures name != "" && Starts(name[0]) && !Blank(name[0]) && name[0] != '(' && !IsDigit(name[0]) && name[0] !in "+-!~"
  {
  }

  lemma {:induction false} ReadVar(name: string, ts: seq<string>, st: St)
    requires IsName(name) && Head(ts, 16)
    ensures Same(Un(Cur(st, [name] + ts)), After(Var(name), st, ts))
  {
    hide IsName, Wrap, ArithText.Name, Un, Prim, OpAt, AsgAt;
    NameStarts2(name);
    ReadName(name, ts, st);
    UnSkips(Cur(st, [name] + ts));
    HeadSees(ts, 16);
    SkipTwice(Cur(st, ts));
    var s := st.(p := name + Join(ts));
    UnIsPrim(s);
    PrimNamed(s, Cur(st, ts), name);
  }

  lemma {:induction false} ReadPost(up: bool, name: string, ts: seq<string>, st: St)
    requires IsName(name)
    ensures Same(Un(Cur(st, [name, Step2(up)] + ts)), After(Post(up, name), st, ts))
  {
    hide IsName, Wrap, ArithText.Name, Un, Prim;
    NameStarts2(name);
    var u := [Step2(up)] + ts;
    assert [name, Step2(up)] + ts == [name] + u;
    ReadName(name, u, st);
    UnSkips(Cur(st, [name] + u));
    SkipAt(st, Step2(up), ts);
    assert (Step2(up) + Join(ts))[2..] == Join(ts);
    var s := st.(p := name + Join(u));
    UnIsPrim(s);
    PrimNamed(s, Cur(st, u), name);
  }

  lemma {:induction false} ReadPre(up: bool, name: string, ts: seq<string>, st: St)
    requires IsName(name)
    ensures Same(Un(Cur(st, [Step2(up), name] + ts)), After(Pre(up, name), st, ts))
  {
    hide IsName, Wrap, ArithText.Name, Un, Prim;
    var u := [name] + ts;
    assert [Step2(up), name] + ts == [Step2(up)] + u;
    SkipAt(st, Step2(up), u);
    UnSkips(Cur(st, [Step2(up)] + u));
    ReadName(name, ts, st);
    var s := Step2(up) + Join(u);
    assert s[2..] == Join(u);
    WsStops(s);
    UnDoubled(st.(p := s), Cur(st, ts), name);
  }

  lemma {:induction false} ReadUnary(sign: char, e: Tree, ts: seq<string>, st: St)
    requires sign in "-+!~" && st.depth + 1 <= DEPTH
    requires Same(Un(Cur(Deeper(st), Tokens(e, 15) + ts)), After(e, Deeper(st), ts))
    ensures Same(Un(Cur(st, [[sign]] + Tokens(e, 15) + ts)), After(Unary(sign, e), st, ts))
  {
    hide Ev, Wrap, Prefix, Tokens, Un;
    var u := Tokens(e, 15) + ts;
    assert [[sign]] + Tokens(e, 15) + ts == [[sign]] + u;
    SkipAt(st, [sign], u);
    UnSkips(Cur(st, [[sign]] + u));
    var s := [sign] + Join(u);
    assert s[1..] == Join(u) && s[0] == sign;
    assert u != [] && Join(u)[0] == ' ' by { FirstSpace(u); }
    WsStops(s);
    AfterDeeper(e, st, ts);
    UnaryEv(sign, e, st);
    UnSigned(st.(p := s));
  }

  lemma {:induction false} FirstSpace(u: seq<string>)
    ensures u != [] ==> Join(u) != "" && Join(u)[0] == ' '
  {
  }

  lemma {:induction false} UnaryEv(sign: char, e: Tree, st: St)
    ensures Ev(Unary(sign, e), st) == Step(Ev(e, st).st, Prefix(sign, Ev(e, st).v))
  {
  }

  lemma {:induction false} ReadParen(t: Tree, ts: seq<string>, st: St)
    requires st.depth + 1 <= DEPTH
    requires Same(Comma(Cur(Deeper(st), Own(t) + ([")"] + ts))), After(t, Deeper(st), [")"] + ts))
    ensures Same(Un(Cur(st, ["("] + Own(t) + [")"] + ts)), After(t, st, ts))
  {
    hide Ev, Own, Comma, Un, Prim;
    var u := Own(t) + ([")"] + ts);
    assert ["("] + Own(t) + [")"] + ts == ["("] + u;
    SkipAt(st, "(", u);
    UnSkips(Cur(st, ["("] + u));
    var s := "(" + Join(u);
    assert s[1..] == Join(u) && s[0] == '(';
    WsStops(s);
    AfterDeeper(t, st, [")"] + ts);
    SkipAt(Ev(t, st).st, ")", ts);
    assert (")" + Join(ts))[1..] == Join(ts);
    UnIsPrim(st.(p := s));
    PrimParen(st.(p := s));
  }
}
