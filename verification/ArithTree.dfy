/** Arithmetic expressions as trees: how one is written with spaces and only the parentheses it
    needs, and what it means. */
module ArithTree {
  import opened Bits
  import opened Int64
  import opened ArithText
  import opened Decimal

  datatype Tree =
    | Num(n: nat)
    | Var(name: string)
    | Pre(up: bool, name: string)
    | Post(up: bool, name: string)
    | Unary(sign: char, e: Tree)
    | Binary(op: Op, l: Tree, r: Tree)
    | Cond(c: Tree, yes: Tree, no: Tree)
    | Set(how: Option<Op>, name: string, e: Tree)
    | Seq(l: Tree, r: Tree)

  predicate IsName(s: string) {
    s != "" && Starts(s[0]) && forall i :: 0 <= i < |s| ==> Continues(s[i])
  }

  predicate Assigns(how: Option<Op>) {
    how.None? || how.value in {Shl, Shr, Pow, Add, Sub, Mul, Div, Rem, BitAnd, BitOr, BitXor}
  }

  predicate Good(t: Tree) {
    match t
    case Num(_) => true
    case Var(name) => IsName(name)
    case Pre(_, name) => IsName(name)
    case Post(_, name) => IsName(name)
    case Unary(c, e) => c in "-+!~" && Good(e)
    case Binary(_, l, r) => Good(l) && Good(r)
    case Cond(c, yes, no) => Good(c) && Good(yes) && Good(no)
    case Set(how, name, e) => Assigns(how) && IsName(name) && Good(e)
    case Seq(l, r) => Good(l) && Good(r)
  }

  // ---- writing a tree ----

  /** How tightly a tree holds together: 0 for a sequence, up to 16 for a number or a name. */
  function Level(t: Tree): nat {
    match t
    case Seq(_, _) => 0
    case Set(_, _, _) => 1
    case Cond(_, _, _) => 2
    case Binary(op, _, _) => 2 + Prec(op)
    case Unary(_, _) => 15
    case Pre(_, _) => 15
    case _ => 16
  }

  function OpText(op: Op): string {
    match op
    case OrOr => "||" case AndAnd => "&&" case BitOr => "|" case BitXor => "^" case BitAnd => "&"
    case Eq => "==" case Ne => "!=" case Shl => "<<" case Shr => ">>" case Le => "<=" case Ge => ">="
    case Lt => "<" case Gt => ">" case Add => "+" case Sub => "-" case Mul => "*" case Div => "/" case Rem => "%"
    case Pow => "**"
  }

  function AsgText(how: Option<Op>): string {
    if how.None? then "=" else OpText(how.value) + "="
  }

  function Step2(up: bool): string { if up then "++" else "--" }

  function LeftLevel(op: Op): nat { if op == Pow then 15 else 2 + Prec(op) }
  function RightLevel(op: Op): nat { if op == Pow then 14 else 3 + Prec(op) }

  /** The tokens of a tree where anything looser than `c` needs parentheses. */
  function Tokens(t: Tree, c: nat): (ts: seq<string>)
    ensures ts != []
    decreases t, 1
  {
    if Level(t) < c then ["("] + Own(t) + [")"] else Own(t)
  }

  function Own(t: Tree): (ts: seq<string>)
    ensures ts != []
    decreases t, 0
  {
    match t
    case Num(n) => [Dec(n)]
    case Var(name) => [name]
    case Pre(up, name) => [Step2(up), name]
    case Post(up, name) => [name, Step2(up)]
    case Unary(c, e) => [[c]] + Tokens(e, 15)
    case Binary(op, l, r) => Tokens(l, LeftLevel(op)) + ([OpText(op)] + Tokens(r, RightLevel(op)))
    case Cond(c, yes, no) => Tokens(c, 3) + (["?"] + (Tokens(yes, 1) + ([":"] + Tokens(no, 1))))
    case Set(how, name, e) => [name, AsgText(how)] + Tokens(e, 1)
    case Seq(l, r) => Tokens(l, 0) + ([","] + Tokens(r, 1))
  }

  /** Every token with a space before it. */
  function Join(ts: seq<string>): string {
    if ts == [] then "" else " " + ts[0] + Join(ts[1..])
  }

  function Max(a: nat, b: nat): nat { if a >= b then a else b }

  /** How deep its parentheses and prefix operators nest. */
  function Nesting(t: Tree, c: nat): nat
    decreases t, 1
  {
    if Level(t) < c then 1 + OwnNesting(t) else OwnNesting(t)
  }

  function OwnNesting(t: Tree): nat
    decreases t, 0
  {
    match t
    case Unary(_, e) => 1 + Nesting(e, 15)
    case Binary(op, l, r) => Max(Nesting(l, LeftLevel(op)), Nesting(r, RightLevel(op)))
    case Cond(c, yes, no) => Max(Nesting(c, 3), Max(Nesting(yes, 1), Nesting(no, 1)))
    case Set(_, _, e) => Nesting(e, 1)
    case Seq(l, r) => Max(Nesting(l, 0), Nesting(r, 1))
    case _ => 0
  }

  // ---- what a tree means ----

  /** A value, unless something was divided by zero or raised to a negative power; and the variables. */
  datatype Result = Result(v: Option<int>, store: map<string, int>)

  function Lookup(store: map<string, int>, name: string): int {
    if name in store then Wrap(store[name]) else 0
  }

  /** The meaning of a tree: left to right, untaken branches not at all, and nothing after an error. */
  function Eval(t: Tree, store: map<string, int>): Result {
    match t
    case Num(n) => Result(Some(Wrap(n)), store)
    case Var(name) => Result(Some(Lookup(store, name)), store)
    case Pre(up, name) =>
      var v := Wrap(Lookup(store, name) + (if up then 1 else -1));
      Result(Some(v), store[name := v])
    case Post(up, name) =>
      var v := Lookup(store, name);
      Result(Some(v), store[name := Wrap(v + (if up then 1 else -1))])
    case Unary(c, e) =>
      var a := Eval(e, store);
      if a.v.None? then a else Result(Some(Prefix(c, a.v.value)), a.store)
    case Binary(op, l, r) =>
      var a := Eval(l, store);
      if a.v.None? then a
      else if op == OrOr && a.v.value != 0 then Result(Some(1), a.store)
      else if op == AndAnd && a.v.value == 0 then Result(Some(0), a.store)
      else
        var b := Eval(r, a.store);
        if b.v.None? then b else Result(Apply(op, a.v.value, b.v.value), b.store)
    case Cond(c, yes, no) =>
      var a := Eval(c, store);
      if a.v.None? then a else if a.v.value != 0 then Eval(yes, a.store) else Eval(no, a.store)
    case Set(how, name, e) =>
      var a := Eval(e, store);
      if a.v.None? then a
      else
        var v := if how.None? then a.v else Apply(how.value, Lookup(a.store, name), a.v.value);
        if v.None? then Result(None, a.store) else Result(v, a.store[name := v.value])
    case Seq(l, r) =>
      var a := Eval(l, store);
      if a.v.None? then a else Eval(r, a.store)
  }

  // ---- what the parser does with a tree, on its own state ----

  /** The tree evaluated the parser's way: branches not taken are walked through, and so is what follows an error. */
  function Ev(t: Tree, st: St): (r: Step)
    decreases t
  {
    match t
    case Num(n) => Step(st, Wrap(n))
    case Var(name) => Step(st, Get(st, name))
    case Pre(up, name) =>
      var v := Wrap(Get(st, name) + (if up then 1 else -1));
      Step(ArithText.Set(st, name, v), v)
    case Post(up, name) =>
      var v := Get(st, name);
      Step(ArithText.Set(st, name, Wrap(v + (if up then 1 else -1))), v)
    case Unary(c, e) =>
      var a := Ev(e, st);
      Step(a.st, Prefix(c, a.v))
    case Binary(op, l, r) =>
      var a := Ev(l, st);
      if (op == OrOr && a.v != 0) || (op == AndAnd && a.v == 0) then
        Step(OutOf(Ev(r, Into(a.st, true)).st, true), Truth(op == OrOr))
      else
        var b := Ev(r, a.st);
        Do(b.st, op, a.v, b.v)
    case Cond(c, yes, no) =>
      var a := Ev(c, st);
      var b := Ev(yes, Into(a.st, a.v == 0));
      var d := Ev(no, Into(OutOf(b.st, a.v == 0), a.v != 0));
      Step(OutOf(d.st, a.v != 0), if a.v != 0 then b.v else d.v)
    case Set(how, name, e) =>
      var a := Ev(e, st);
      if how.None? then Step(ArithText.Set(a.st, name, a.v), a.v)
      else
        var d := Do(a.st, how.value, Get(a.st, name), a.v);
        Step(ArithText.Set(d.st, name, d.v), d.v)
    case Seq(l, r) => Ev(r, Ev(l, st).st)
  }

  /** In a branch that is not taken, or once something went wrong, nothing is changed. */
  lemma {:induction false} EvIdle(t: Tree, st: St)
    requires st.skip > 0 || st.bad
    ensures Ev(t, st).st == st
  {
    hide Apply;
    match t
    case Num(_) =>
    case Var(_) =>
    case Pre(_, _) =>
    case Post(_, _) =>
    case Unary(_, e) => EvIdle(e, st);
    case Binary(op, l, r) =>
      EvIdle(l, st);
      EvIdle(r, st);
      EvIdle(r, Into(st, true));
    case Cond(c, yes, no) =>
      EvIdle(c, st);
      var on := Ev(c, st).v == 0;
      EvIdle(yes, Into(st, on));
      EvIdle(no, Into(st, !on));
    case Set(_, _, e) => EvIdle(e, st);
    case Seq(l, r) =>
      EvIdle(l, st);
      EvIdle(r, st);
  }

  /** The state a meaning leaves behind. */
  function Left(st: St, r: Result): St { st.(store := r.store, bad := r.v.None?) }

  ghost predicate Agrees(t: Tree, st: St) {
    var r := Eval(t, st.store);
    Ev(t, st).st == Left(st, r) && (r.v.Some? ==> Ev(t, st).v == r.v.value)
  }

  /** Otherwise the parser's way comes to the meaning. */
  lemma {:induction false} EvMeans(t: Tree, st: St)
    requires st.skip == 0 && !st.bad
    ensures Agrees(t, st)
    decreases t, 1
  {
    hide Apply, Wrap;
    match t
    case Num(_) =>
    case Var(_) =>
    case Pre(_, _) =>
    case Post(_, _) =>
    case Unary(_, e) => EvMeans(e, st);
    case Binary(op, l, r) =>
      EvMeans(l, st);
      EvThen(r, Ev(l, st).st);
      EvIdle(r, Into(Ev(l, st).st, true));
    case Cond(c, yes, no) =>
      EvMeans(c, st);
      CondMeans(c, yes, no, st);
    case Set(_, _, e) => EvMeans(e, st);
    case Seq(l, r) =>
      EvMeans(l, st);
      EvThen(r, Ev(l, st).st);
  }

  lemma {:induction false} EvThen(t: Tree, st: St)
    requires st.skip == 0
    ensures if st.bad then Ev(t, st).st == st else Agrees(t, st)
    decreases t, 2
  {
    if st.bad { EvIdle(t, st); } else { EvMeans(t, st); }
  }

  lemma {:induction false} CondMeans(c: Tree, yes: Tree, no: Tree, st: St)
    requires st.skip == 0 && !st.bad && Agrees(c, st)
    ensures Agrees(Cond(c, yes, no), st)
    decreases Cond(c, yes, no), 0
  {
    hide Apply;
    var a := Ev(c, st);
    if a.v == 0 {
      EvIdle(yes, Into(a.st, true));
      EvThen(no, a.st);
    } else {
      EvThen(yes, a.st);
      EvIdle(no, Into(Ev(yes, a.st).st, true));
    }
  }
}
