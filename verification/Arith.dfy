/** The arithmetic evaluator itself (struct ax): a cursor, flags and variables that every routine
    updates, proved to do what the functions in ArithText say. */
module Arith {
  import opened Bits
  import opened Int64
  import opened ArithText

  lemma {:induction false} ApplyFits(op: Op, l: int, r: int)
    requires Fits(l) && Fits(r)
    ensures Apply(op, l, r).Some? ==> Fits(Apply(op, l, r).value)
  {
    hide Wrap, Or, Xor, And, Power, Quot, U;
    match op
    case BitOr => WrapFits(Or(U(l), U(r)));
    case BitXor => WrapFits(Xor(U(l), U(r)));
    case BitAnd => WrapFits(And(U(l), U(r)));
    case Shl => WrapFits(l * Pow2(r % 64));
    case Shr => ShiftFits(l, r % 64);
    case Add => WrapFits(l + r);
    case Sub => WrapFits(l - r);
    case Mul => WrapFits(l * r);
    case Div => if r != 0 { WrapFits(Quot(l, r)); }
    case Rem => if r != 0 { WrapFits(l - r * Quot(l, r)); }
    case Pow => if r >= 0 { WrapFits(Power(l, r)); }
    case _ =>
  }

  lemma {:induction false} ShiftFits(l: int, n: nat)
    requires Fits(l)
    ensures Fits(Sar(l, n))
    decreases n
  {
    if n != 0 { ShiftFits(l / 2, n - 1); }
  }

  /** One turn of ax_bin's loop. */
  lemma {:induction false} LoopBody(s: St, l: int, mp: nat)
    ensures var st := Skip(s);
            var op := OpAt(st.p);
            if op.None? || Prec(op.value) < mp then BinLoop(s, l, mp) == Step(st, l)
            else st.p != "" && BinLoop(s, l, mp) == BinLoop(Operand(st, op.value, l).st, Operand(st, op.value, l).v, mp)
  {
    hide Operand, Longest;
  }

  lemma {:induction false} CommaBody(s: St, v: int)
    ensures var st := Skip(s);
            var a := Assign(Drop(st, 1));
            CommaLoop(s, v) == if Ch(st.p, 0) != ',' then Step(st, v) else CommaLoop(a.st, a.v)
  {
    hide Assign;
  }

  lemma {:induction false} AsgFits(p: string)
    ensures AsgAt(p).Some? ==> 1 <= AsgAt(p).value.1 <= |p|
  {
  }

  lemma {:induction false} AssignShrinks(s: St)
    ensures |Assign(s).st.p| <= |s.p|
  {
  }

  lemma {:induction false} NameKeeps(st: St)
    ensures Name(st).1.Some? ==> Name(st).0 == st.(p := Name(st).0.p)
  {
    hide Subs, NameEnd;
  }

  class Ax {
    var p: string
    var store: map<string, int>
    var depth: nat
    var bad: bool
    var skip: nat
    const asg: bool

    constructor (src: string, store: map<string, int>, asg: bool)
      ensures State() == St(src, store, 0, false, 0, asg)
    {
      this.p, this.store, this.asg := src, store, asg;
      depth, bad, skip := 0, false, 0;
    }

    ghost function State(): St
      reads this
    {
      St(p, store, depth, bad, skip, asg)
    }

    /** ax_ws. */
    method TakeWs()
      modifies this`p
      ensures State() == Skip(old(State()))
    {
      while p != "" && Blank(p[0])
        invariant Ws(p) == Ws(old(p))
        decreases |p|
      {
        p := p[1..];
      }
    }

    method Advance(n: nat)
      modifies this`p
      ensures State() == Drop(old(State()), n)
    {
      p := if n <= |p| then p[n..] else "";
    }

    /** The digits at the cursor in a base up to 16. */
    method TakeDigits(b: nat) returns (v: nat)
      modifies this`p
      ensures (v, p) == Digits(old(p), b, 0)
    {
      hide Push, HexVal;
      v := 0;
      while p != "" && HexVal(p[0]) < b
        invariant Digits(p, b, v) == Digits(old(p), b, 0)
        decreases |p|
      {
        v := Push(v, b, HexVal(p[0]));
        p := p[1..];
      }
    }

    method TakePlain() returns (v: nat)
      modifies this`p
      ensures (v, p) == Plain(old(p))
    {
      hide Digits;
      if Ch(p, 0) == '0' && (Ch(p, 1) == 'x' || Ch(p, 1) == 'X') && HexVal(Ch(p, 2)) < 16 {
        p := p[2..];
        v := TakeDigits(16);
      } else if Ch(p, 0) == '0' {
        p := p[1..];
        v := TakeDigits(8);
      } else {
        v := TakeDigits(10);
      }
    }

    method TakeBased(base: nat) returns (v: int)
      modifies this`p
      ensures (v, p) == Based(old(p), base, 0) && Fits(v)
    {
      hide Wrap;
      v := 0;
      while p != "" && Digit64(p[0], base).Some?
        invariant Based(p, base, v) == Based(old(p), base, 0) && Fits(v)
        decreases |p|
      {
        WrapFits(v * base + Digit64(p[0], base).value);
        v := Wrap(v * base + Digit64(p[0], base).value);
        p := p[1..];
      }
    }

    method TakeNumber() returns (v: int)
      requires IsDigit(Ch(p, 0))
      modifies this`p, this`bad
      ensures Step(State(), v) == Number(old(State())) && Fits(v)
    {
      hide Digits, Based, Plain, Wrap;
      var start := p;
      var base := TakeDigits(10);
      if Ch(p, 0) == '#' {
        if base < 2 || base > 64 {
          p := start;
          bad := true;
          return 0;
        }
        if Digit64(Ch(p, 1), base).None? {
          p := p[1..];
          bad := true;
          return 0;
        }
        p := p[1..];
        v := TakeBased(base);
        return;
      }
      p := start;
      var n := TakePlain();
      WrapFits(n);
      v := Wrap(n);
    }

    /** ax_name. */
    method TakeName() returns (nm: Option<string>)
      modifies this`p, this`bad
      ensures (State(), nm) == Name(old(State()))
    {
      hide NameEnd, Subs;
      if !Starts(Ch(p, 0)) { return None; }
      var start := p;
      var closed := TakeRest();
      if !closed {
        bad := true;
        return None;
      }
      return Some(start[..|start| - |p|]);
    }

    /** The letters of the name, and any subscripts. */
    method TakeRest() returns (closed: bool)
      modifies this`p
      ensures match Subs(NameEnd(old(p))) case None => !closed && p == "" case Some(q) => closed && p == q
    {
      hide SubEnd;
      while p != "" && Continues(p[0])
        invariant NameEnd(p) == NameEnd(old(p))
        decreases |p|
      {
        p := p[1..];
      }
      while Ch(p, 0) == '['
        invariant Subs(p) == Subs(NameEnd(old(p)))
        decreases |p|
      {
        closed := TakeSubscript();
        if !closed { return; }
      }
      closed := true;
    }

    method TakeSubscript() returns (closed: bool)
      requires Ch(p, 0) == '['
      modifies this`p
      ensures match SubEnd(old(p)[1..], 1) case None => !closed && p == "" case Some(q) => closed && p == q && |q| < |old(p)|
    {
      var d := 1;
      p := p[1..];
      while p != "" && d > 0
        invariant d >= 0 && SubEnd(p, d) == SubEnd(old(p)[1..], 1) && |p| < |old(p)|
        decreases |p|
      {
        if p[0] == '[' { d := d + 1; } else if p[0] == ']' { d := d - 1; }
        p := p[1..];
      }
      closed := d == 0;
    }

    /** ax_get. */
    method Read(nm: string) returns (v: int)
      ensures v == Get(State(), nm) && Fits(v)
    {
      hide Wrap;
      if nm !in store { return 0; }
      WrapFits(store[nm]);
      v := Wrap(store[nm]);
    }

    /** ax_set: nothing is written in a branch not taken, or after an error. */
    method Write(nm: string, v: int)
      modifies this`store
      ensures State() == Set(old(State()), nm, v)
    {
      if skip > 0 || bad { return; }
      store := store[nm := v];
    }

    /** ax_do. */
    method Operate(op: Op, l: int, r: int) returns (v: int)
      requires Fits(l) && Fits(r)
      modifies this`bad
      ensures Step(State(), v) == Do(old(State()), op, l, r) && Fits(v)
    {
      hide Apply;
      if skip > 0 { return 0; }
      ApplyFits(op, l, r);
      var x := Compute(op, l, r);
      if x.None? {
        bad := true;
        return 0;
      }
      return x.value;
    }

    /** ax_prim. */
    method TakePrim() returns (v: int)
      modifies this
      ensures Step(State(), v) == Prim(old(State())) && Fits(v)
      decreases |p|, 0
    {
      hide Comma, Number, Name, Wrap, Get, Set;
      TakeWs();
      if Ch(p, 0) == '(' {
        depth := depth + 1;
        if depth > DEPTH {
          bad := true;
          p := "";
          return 0;
        }
        Advance(1);
        v := TakeComma();
        depth := if depth > 0 then depth - 1 else 0;
        TakeWs();
        if Ch(p, 0) == ')' { Advance(1); } else { bad := true; }
        return;
      }
      if IsDigit(Ch(p, 0)) {
        v := TakeNumber();
        return;
      }
      if Starts(Ch(p, 0)) {
        v := TakeVariable();
        return;
      }
      bad := true;
      v := 0;
    }

    /** A variable, with a step after it perhaps. */
    method TakeVariable() returns (v: int)
      requires Starts(Ch(p, 0))
      modifies this
      ensures Step(State(), v) == Named(old(State())) && Fits(v)
    {
      hide Name, Wrap, Get, Set;
      var nm := TakeName();
      if nm.None? { return 0; }
      v := Read(nm.value);
      TakeWs();
      if Ch(p, 0) == '+' && Ch(p, 1) == '+' {
        Write(nm.value, Wrap(v + 1));
        Advance(2);
      } else if Ch(p, 0) == '-' && Ch(p, 1) == '-' {
        Write(nm.value, Wrap(v - 1));
        Advance(2);
      }
    }

    /** ax_unop. */
    method TakeUnop() returns (v: int)
      modifies this
      ensures Step(State(), v) == Unop(old(State())) && Fits(v)
      decreases |p|, 2
    {
      hide Un;
      depth := depth + 1;
      if depth > DEPTH {
        bad := true;
        p := "";
        depth := depth - 1;
        return 0;
      }
      v := TakeUn();
      depth := if depth > 0 then depth - 1 else 0;
    }

    /** ax_un. */
    method TakeUn() returns (v: int)
      modifies this
      ensures Step(State(), v) == Un(old(State())) && Fits(v)
      decreases |p|, 1
    {
      hide Unop, Prim, Name, Wrap, Get, Set;
      TakeWs();
      var c := Ch(p, 0);
      if (c == '+' && Ch(p, 1) == '+') || (c == '-' && Ch(p, 1) == '-') {
        v := TakeStep(c == '+');
        return;
      }
      if c == '-' || c == '+' || c == '!' || c == '~' {
        Advance(1);
        v := TakeUnop();
        WrapFits(-v);
        v := if c == '-' then Wrap(-v) else if c == '+' then v else if c == '!' then Truth(v == 0) else -1 - v;
        return;
      }
      v := TakePrim();
    }

    /** A step before a variable. */
    method TakeStep(up: bool) returns (v: int)
      requires p != ""
      modifies this
      ensures Step(State(), v) == Stepped(old(State()), up) && Fits(v)
    {
      hide Name, Wrap, Get, Set;
      Advance(2);
      TakeWs();
      var nm := TakeName();
      if nm.None? {
        bad := true;
        return 0;
      }
      v := Read(nm.value);
      WrapFits(v + (if up then 1 else -1));
      v := Wrap(v + (if up then 1 else -1));
      Write(nm.value, v);
    }

    /** ax_bin: precedence climbing; && and || walk through an operand they do not need. */
    method TakeBin(mp: nat) returns (v: int)
      modifies this
      ensures Step(State(), v) == Bin(old(State()), mp) && Fits(v)
      decreases |p|, 4
    {
      hide Un, BinLoop, OpAt, Do;
      v := TakeUn();
      while true
        invariant Fits(v) && BinLoop(State(), v, mp) == Bin(old(State()), mp) && |p| <= |old(p)|
        decreases |p|
      {
        LoopBody(State(), v, mp);
        TakeWs();
        var op := OpAt(p);
        if op.None? || Prec(op.value) < mp { return; }
        v := TakeOperand(op.value, v);
      }
    }

    /** One operator and its operand. */
    method TakeOperand(op: Op, l: int) returns (v: int)
      requires Fits(l) && p != ""
      modifies this
      ensures Step(State(), v) == Operand(old(State()), op, l) && Fits(v) && |p| < |old(p)|
      decreases |p|, 3
    {
      hide Bin, Do;
      Advance(Len(op));
      if (op == OrOr && l != 0) || (op == AndAnd && l == 0) {
        skip := skip + 1;
        v := TakeBin(Prec(op) + 1);
        skip := if skip > 0 then skip - 1 else 0;
        return Truth(op == OrOr);
      }
      v := TakeBin(if op == Pow then Prec(op) else Prec(op) + 1);
      v := Operate(op, l, v);
    }

    /** ax_tern. */
    method TakeTern() returns (v: int)
      modifies this
      ensures Step(State(), v) == Tern(old(State())) && Fits(v)
      decreases |p|, 5
    {
      hide Bin, Assign, Into, OutOf, Drop;
      var c := TakeBin(1);
      TakeWs();
      if Ch(p, 0) != '?' { return c; }
      var t := TakeBranch(c == 0);
      TakeWs();
      if Ch(p, 0) != ':' {
        bad := true;
        return 0;
      }
      var f := TakeBranch(c != 0);
      return if c != 0 then t else f;
    }

    /** A branch after its mark, only walked through when it is not taken. */
    method TakeBranch(idle: bool) returns (v: int)
      requires p != ""
      modifies this
      ensures var r := Assign(Into(Drop(old(State()), 1), idle)); Step(State(), v) == Step(OutOf(r.st, idle), r.v) && Fits(v)
      ensures |p| < |old(p)|
      decreases |p|, 4
    {
      hide Assign;
      Advance(1);
      if idle { skip := skip + 1; }
      AssignShrinks(State());
      v := TakeAssign();
      if idle { skip := if skip > 0 then skip - 1 else 0; }
    }

    /** ax_assign: the name is read twice when no assignment follows it. */
    method TakeAssign() returns (v: int)
      modifies this
      ensures Step(State(), v) == Assign(old(State())) && Fits(v)
      decreases |p|, 6
    {
      hide Tern, Name, AsgAt, Do, Get, Set;
      TakeWs();
      if !asg || !Starts(Ch(p, 0)) {
        v := TakeTern();
        return;
      }
      var save := p;
      NameKeeps(State());
      var nm := TakeName();
      if nm.Some? {
        TakeWs();
        var a := AsgAt(p);
        if a.Some? {
          AsgFits(p);
          Advance(a.value.1);
          v := TakeAssign();
          if a.value.0.Some? {
            var old_v := Read(nm.value);
            v := Operate(a.value.0.value, old_v, v);
          }
          Write(nm.value, v);
          return;
        }
      }
      p := save;
      v := TakeTern();
    }

    /** ax_comma. */
    method TakeComma() returns (v: int)
      modifies this
      ensures Step(State(), v) == Comma(old(State())) && Fits(v)
      decreases |p|, 8
    {
      hide Assign, CommaLoop;
      v := TakeAssign();
      while true
        invariant Fits(v) && CommaLoop(State(), v) == Comma(old(State())) && |p| <= |old(p)|
        decreases |p|
      {
        CommaBody(State(), v);
        TakeWs();
        if Ch(p, 0) != ',' { return; }
        Advance(1);
        v := TakeAssign();
      }
    }
  }

  lemma {:induction false} HasAsgStep(t: string, i: nat)
    ensures HasAsg(t, i) ==
            if i >= |t| then false
            else if t[i] != '=' then HasAsg(t, i + 1)
            else if Ch(t, i + 1) == '=' then HasAsg(t, i + 2)
            else if i > 0 && t[i - 1] in "!<>" && !(i > 1 && t[i - 2] == t[i - 1]) then HasAsg(t, i + 1)
            else true
  {
  }

  /** ax_hasasg. */
  method FindAsg(t: string) returns (found: bool)
    ensures found == HasAsg(t, 0)
  {
    hide HasAsg;
    var e := 0;
    while e < |t|
      invariant HasAsg(t, e) == HasAsg(t, 0)
      decreases |t| - e
    {
      HasAsgStep(t, e);
      if t[e] != '=' {
        e := e + 1;
      } else if Ch(t, e + 1) == '=' {
        e := e + 2;
      } else if e > 0 && t[e - 1] in "!<>" && !(e > 1 && t[e - 2] == t[e - 1]) {
        e := e + 1;
      } else {
        return true;
      }
    }
    HasAsgStep(t, e);
    return false;
  }

  /** ax_run: an expression's value, 0 if it failed, and the variables after it. */
  method RunText(src: string, store: map<string, int>) returns (r: Outcome)
    ensures r == Run(src, store)
  {
    hide Comma, HasAsg;
    var asg := FindAsg(src);
    var a := new Ax(src, store, asg);
    var v := a.TakeComma();
    a.TakeWs();
    if a.p != "" && !a.bad { a.bad := true; }
    return Outcome(if a.bad then 0 else v, a.store, a.bad);
  }
}
