/** What the arithmetic parser makes of a text, as functions: every ax_ routine as a step from the
    state before it to the state after. */
module ArithText {
  import opened Bits
  import opened Int64

  const DEPTH: nat := 1000

  /** The text still to be read, the variables, how deep it is nested, whether something went wrong, and how
      many untaken branches it is inside. `asg` says whether the text could assign at all. */
  datatype St = St(p: string, store: map<string, int>, depth: nat, bad: bool, skip: nat, asg: bool)

  /** A value may come with every step. */
  datatype Step = Step(st: St, v: int)

  function Ch(p: string, i: nat): char { if i < |p| then p[i] else '\0' }

  predicate IsDigit(c: char) { '0' <= c <= '9' }
  predicate IsAlpha(c: char) { 'a' <= c <= 'z' || 'A' <= c <= 'Z' }
  predicate Starts(c: char) { IsAlpha(c) || c == '_' }
  predicate Continues(c: char) { Starts(c) || IsDigit(c) }
  predicate Blank(c: char) { c == ' ' || c == '\t' || c == '\n' }

  function Ws(p: string): (r: string)
    ensures |r| <= |p|
  {
    if p != "" && Blank(p[0]) then Ws(p[1..]) else p
  }

  function Skip(st: St): St { st.(p := Ws(st.p)) }

  function Drop(st: St, n: nat): (r: St)
    ensures |r.p| <= |st.p| && (n > 0 && st.p != "" ==> |r.p| < |st.p|)
  {
    st.(p := if n <= |st.p| then st.p[n..] else "")
  }

  function Bad(st: St): St { st.(bad := true) }

  // ---- numbers ----

  /** A digit's value in the usual alphabet, up to 16. */
  function HexVal(c: char): nat {
    if IsDigit(c) then (c - '0') as nat
    else if 'a' <= c <= 'f' then (c - 'a') as nat + 10
    else if 'A' <= c <= 'F' then (c - 'A') as nat + 10
    else 16
  }

  function Push(acc: nat, b: nat, d: nat): nat { acc * b + d }

  /** The digits of base `b` at the front, added to `acc`; what strtol reads, before any limit. */
  function Digits(p: string, b: nat, acc: nat): (r: (nat, string))
    ensures |r.1| <= |p|
    ensures p != "" && HexVal(p[0]) < b ==> |r.1| < |p|
    decreases |p|
  {
    if p != "" && HexVal(p[0]) < b then Digits(p[1..], b, Push(acc, b, HexVal(p[0]))) else (acc, p)
  }

  /** strtol with base 0: hexadecimal after 0x, octal after 0, else decimal. */
  function Plain(p: string): (r: (nat, string))
    ensures |r.1| <= |p|
    ensures p != "" && IsDigit(p[0]) ==> |r.1| < |p|
  {
    if Ch(p, 0) == '0' && (Ch(p, 1) == 'x' || Ch(p, 1) == 'X') && HexVal(Ch(p, 2)) < 16 then Digits(p[2..], 16, 0)
    else if Ch(p, 0) == '0' then
      var r := Digits(p[1..], 8, 0);
      r
    else Digits(p, 10, 0)
  }

  /** ax_digit: a digit of a base up to 64. */
  function Digit64(c: char, base: nat): Option<nat> {
    var v :=
      if IsDigit(c) then (c - '0') as nat
      else if 'a' <= c <= 'z' then (c - 'a') as nat + 10
      else if 'A' <= c <= 'Z' then (c - 'A') as nat + (if base > 36 then 36 else 10)
      else if c == '@' then 62
      else if c == '_' then 63
      else 64;
    if v >= base || v == 64 then None else Some(v)
  }

  function Based(p: string, base: nat, acc: int): (r: (int, string))
    ensures |r.1| <= |p|
    decreases |p|
  {
    if p != "" && Digit64(p[0], base).Some? then Based(p[1..], base, Wrap(acc * base + Digit64(p[0], base).value)) else (acc, p)
  }

  /** A number: `base#digits`, or as strtol reads it, wrapped where it is too big. */
  function Number(st: St): (r: Step)
    requires IsDigit(Ch(st.p, 0))
    ensures |r.st.p| <= |st.p|
  {
    var (base, e) := Digits(st.p, 10, 0);
    if Ch(e, 0) == '#' then
      if base < 2 || base > 64 then Step(Bad(st), 0)
      else if Digit64(Ch(e, 1), base).None? then Step(Bad(st.(p := e[1..])), 0)
      else
        var (v, rest) := Based(e[1..], base, 0);
        Step(st.(p := rest), v)
    else
      var (v, rest) := Plain(st.p);
      Step(st.(p := rest), Wrap(v))
  }

  // ---- names and variables ----

  function NameEnd(p: string): (r: string)
    ensures |r| <= |p|
  {
    if p != "" && Continues(p[0]) then NameEnd(p[1..]) else p
  }

  /** Past the bracket that closes a subscript; None when there is none. */
  function SubEnd(p: string, d: nat): (r: Option<string>)
    ensures r.Some? ==> |r.value| <= |p|
    decreases |p|
  {
    if d == 0 then Some(p)
    else if p == "" then None
    else if p[0] == '[' then SubEnd(p[1..], d + 1)
    else if p[0] == ']' then SubEnd(p[1..], d - 1)
    else SubEnd(p[1..], d)
  }

  /** Any subscripts after a name. */
  function Subs(p: string): (r: Option<string>)
    ensures r.Some? ==> |r.value| <= |p|
    decreases |p|
  {
    if Ch(p, 0) != '[' then Some(p)
    else
      match SubEnd(p[1..], 1)
      case None => None
      case Some(q) => Subs(q)
  }

  /** ax_name: the name at the cursor, if there is one; an unclosed subscript is an error. */
  function Name(st: St): (r: (St, Option<string>))
    ensures |r.0.p| <= |st.p| && (r.1.Some? ==> |r.0.p| < |st.p|)
  {
    if !Starts(Ch(st.p, 0)) then (st, None)
    else
      match Subs(NameEnd(st.p))
      case None => (Bad(st.(p := "")), None)
      case Some(q) =>
        assert |NameEnd(st.p)| < |st.p| by { assert NameEnd(st.p) == NameEnd(st.p[1..]); }
        (st.(p := q), Some(st.p[..|st.p| - |q|]))
  }

  function Get(st: St, nm: string): int {
    if nm in st.store then Wrap(st.store[nm]) else 0
  }

  function Set(st: St, nm: string, v: int): St {
    if st.skip > 0 || st.bad then st else st.(store := st.store[nm := v])
  }

  // ---- operators ----

  function Prec(op: Op): nat {
    match op
    case OrOr => 1 case AndAnd => 2 case BitOr => 3 case BitXor => 4 case BitAnd => 5
    case Eq => 6 case Ne => 6 case Shl => 9 case Shr => 9 case Le => 7 case Ge => 7 case Lt => 7 case Gt => 7
    case Add => 10 case Sub => 10 case Mul => 11 case Div => 11 case Rem => 11 case Pow => 12
  }

  function Len(op: Op): nat {
    if op in {BitOr, BitXor, BitAnd, Lt, Gt, Add, Sub, Mul, Div, Rem} then 1 else 2
  }

  /** The longest operator two characters begin. */
  function Longest(c: char, d: char): Option<Op> {
    if c == '|' then Some(if d == '|' then OrOr else BitOr)
    else if c == '&' then Some(if d == '&' then AndAnd else BitAnd)
    else if c == '^' then Some(BitXor)
    else if c == '=' then if d == '=' then Some(Eq) else None
    else if c == '!' then if d == '=' then Some(Ne) else None
    else if c == '<' then Some(if d == '<' then Shl else if d == '=' then Le else Lt)
    else if c == '>' then Some(if d == '>' then Shr else if d == '=' then Ge else Gt)
    else if c == '+' then Some(Add)
    else if c == '-' then Some(Sub)
    else if c == '*' then Some(if d == '*' then Pow else Mul)
    else if c == '/' then Some(Div)
    else if c == '%' then Some(Rem)
    else None
  }

  /** ax_op: the binary operator at the cursor; with `=` after it, it is an assignment's instead. */
  function OpAt(p: string): (r: Option<Op>)
    ensures r.Some? ==> p != ""
  {
    match Longest(Ch(p, 0), Ch(p, 1))
    case None => None
    case Some(op) => if Ch(p, Len(op)) == '=' && op !in {Eq, Ne, Le, Ge} then None else Some(op)
  }

  /** ax_do. */
  function Do(st: St, op: Op, l: int, r: int): Step {
    if st.skip > 0 then Step(st, 0)
    else
      match Apply(op, l, r)
      case None => Step(Bad(st), 0)
      case Some(v) => Step(st, v)
  }

  /** The operator a one-character assignment operator applies. */
  function Short(c: char): Option<Op> {
    if c == '+' then Some(Add) else if c == '-' then Some(Sub) else if c == '*' then Some(Mul) else if c == '/' then Some(Div)
    else if c == '%' then Some(Rem) else if c == '&' then Some(BitAnd) else if c == '|' then Some(BitOr)
    else if c == '^' then Some(BitXor) else None
  }

  /** The assignment operator at the cursor and its length; the operator it applies first, if any. */
  function AsgAt(p: string): (r: Option<(Option<Op>, nat)>)
    ensures r.Some? ==> 1 <= r.value.1 <= |p|
  {
    var c, d, e := Ch(p, 0), Ch(p, 1), Ch(p, 2);
    if c == '<' && d == '<' && e == '=' then Some((Some(Shl), 3))
    else if c == '>' && d == '>' && e == '=' then Some((Some(Shr), 3))
    else if c == '*' && d == '*' && e == '=' then Some((Some(Pow), 3))
    else if Short(c).Some? && d == '=' then Some((Short(c), 2))
    else if c == '=' && d != '=' then Some((None, 1))
    else None
  }

  // ---- the parser ----

  function Deeper(st: St): St { st.(depth := st.depth + 1) }
  function Shallower(st: St): St { st.(depth := if st.depth > 0 then st.depth - 1 else 0) }
  function Into(st: St, on: bool): St { if on then st.(skip := st.skip + 1) else st }
  function OutOf(st: St, on: bool): St { if on && st.skip > 0 then st.(skip := st.skip - 1) else st }

  /** A variable, and a step after it if there is one. */
  function Named(st: St): (r: Step)
    ensures |r.st.p| <= |st.p|
  {
    match Name(st)
    case (t, None) => Step(t, 0)
    case (t, Some(nm)) =>
      var v := Get(t, nm);
      var u := Skip(t);
      if Ch(u.p, 0) == '+' && Ch(u.p, 1) == '+' then Step(Drop(Set(u, nm, Wrap(v + 1)), 2), v)
      else if Ch(u.p, 0) == '-' && Ch(u.p, 1) == '-' then Step(Drop(Set(u, nm, Wrap(v - 1)), 2), v)
      else Step(u, v)
  }

  /** A step before a variable. */
  function Stepped(st: St, up: bool): (r: Step)
    ensures |r.st.p| <= |st.p|
  {
    match Name(Skip(Drop(st, 2)))
    case (t, None) => Step(Bad(t), 0)
    case (t, Some(nm)) =>
      var v := Wrap(Get(t, nm) + (if up then 1 else -1));
      Step(Set(t, nm, v), v)
  }

  function Prim(s: St): (r: Step)
    ensures |r.st.p| <= |s.p|
    decreases |s.p|, 0
  {
    var st := Skip(s);
    var c := Ch(st.p, 0);
    if c == '(' then
      if st.depth + 1 > DEPTH then Step(Bad(Deeper(st)).(p := ""), 0)
      else
        var a := Comma(Drop(Deeper(st), 1));
        var b := Skip(Shallower(a.st));
        if Ch(b.p, 0) == ')' then Step(Drop(b, 1), a.v) else Step(Bad(b), a.v)
    else if IsDigit(c) then Number(st)
    else if Starts(c) then Named(st)
    else Step(Bad(st), 0)
  }

  /** ax_unop, after its operator. */
  function Unop(s: St): (r: Step)
    ensures |r.st.p| <= |s.p|
    decreases |s.p|, 2
  {
    if s.depth + 1 > DEPTH then Step(Bad(s).(p := ""), 0)
    else
      var a := Un(Deeper(s));
      Step(Shallower(a.st), a.v)
  }

  /** What a prefix operator does to its operand. */
  function Prefix(c: char, v: int): int {
    if c == '-' then Wrap(-v) else if c == '+' then v else if c == '!' then Truth(v == 0) else -1 - v
  }

  function Un(s: St): (r: Step)
    ensures |r.st.p| <= |s.p|
    decreases |s.p|, 1
  {
    var st := Skip(s);
    var c := Ch(st.p, 0);
    if (c == '+' && Ch(st.p, 1) == '+') || (c == '-' && Ch(st.p, 1) == '-') then
      Stepped(st, c == '+')
    else if c == '-' || c == '+' || c == '!' || c == '~' then
      var a := Unop(Drop(st, 1));
      Step(a.st, Prefix(c, a.v))
    else Prim(st)
  }

  function Bin(s: St, mp: nat): (r: Step)
    ensures |r.st.p| <= |s.p|
    decreases |s.p|, 4
  {
    var a := Un(s);
    BinLoop(a.st, a.v, mp)
  }

  /** The loop of ax_bin: operators of precedence `mp` and up. */
  function BinLoop(s: St, l: int, mp: nat): (r: Step)
    ensures |r.st.p| <= |s.p|
    decreases |s.p|, 3
  {
    var st := Skip(s);
    match OpAt(st.p)
    case None => Step(st, l)
    case Some(op) =>
      if Prec(op) < mp then Step(st, l)
      else
        var d := Operand(st, op, l);
        BinLoop(d.st, d.v, mp)
  }

  /** One operator and its operand, which is only walked through when && or || does not need it. */
  function Operand(st: St, op: Op, l: int): (r: Step)
    requires st.p != ""
    ensures |r.st.p| < |st.p|
    decreases |st.p|, 2
  {
    var t := Drop(st, Len(op));
    if (op == OrOr && l != 0) || (op == AndAnd && l == 0) then
      Step(OutOf(Bin(Into(t, true), Prec(op) + 1).st, true), Truth(op == OrOr))
    else
      var a := Bin(t, if op == Pow then Prec(op) else Prec(op) + 1);
      Do(a.st, op, l, a.v)
  }

  function Tern(s: St): (r: Step)
    ensures |r.st.p| <= |s.p|
    decreases |s.p|, 5
  {
    var c := Bin(s, 1);
    var st := Skip(c.st);
    if Ch(st.p, 0) != '?' then Step(st, c.v)
    else
      var t := Assign(Into(Drop(st, 1), c.v == 0));
      var m := Skip(OutOf(t.st, c.v == 0));
      if Ch(m.p, 0) != ':' then Step(Bad(m), 0)
      else
        var f := Assign(Into(Drop(m, 1), c.v != 0));
        Step(OutOf(f.st, c.v != 0), if c.v != 0 then t.v else f.v)
  }

  function Assign(s: St): (r: Step)
    ensures |r.st.p| <= |s.p|
    decreases |s.p|, 6
  {
    var st := Skip(s);
    if !st.asg || !Starts(Ch(st.p, 0)) then Tern(st)
    else
      match Name(st)
      case (t, None) => Tern(t.(p := st.p))
      case (t, Some(nm)) =>
        var u := Skip(t);
        match AsgAt(u.p)
        case None => Tern(st)
        case Some((op, n)) =>
          var r := Assign(Drop(u, n));
          match op
          case None => Step(Set(r.st, nm, r.v), r.v)
          case Some(o) =>
            var d := Do(r.st, o, Get(r.st, nm), r.v);
            Step(Set(d.st, nm, d.v), d.v)
  }

  function Comma(s: St): (r: Step)
    ensures |r.st.p| <= |s.p|
    decreases |s.p|, 8
  {
    var a := Assign(s);
    CommaLoop(a.st, a.v)
  }

  function CommaLoop(s: St, v: int): (r: Step)
    ensures |r.st.p| <= |s.p|
    decreases |s.p|, 7
  {
    var st := Skip(s);
    if Ch(st.p, 0) != ',' then Step(st, v)
    else
      var a := Assign(Drop(st, 1));
      CommaLoop(a.st, a.v)
  }

  // ---- ax_hasasg and ax_run ----

  /** Whether a text may assign: an `=` that is not part of ==, !=, <= or >=. */
  function HasAsg(p: string, i: nat): bool
    decreases |p| - i
  {
    if i >= |p| then false
    else if p[i] != '=' then HasAsg(p, i + 1)
    else if Ch(p, i + 1) == '=' then HasAsg(p, i + 2)
    else if i > 0 && p[i - 1] in "!<>" && !(i > 1 && p[i - 2] == p[i - 1]) then HasAsg(p, i + 1)
    else true
  }

  /** What an expression comes to: its value, the variables after it, and whether it failed. */
  datatype Outcome = Outcome(v: int, store: map<string, int>, bad: bool)

  function Run(src: string, store: map<string, int>): Outcome {
    var a := Comma(St(src, store, 0, false, 0, HasAsg(src, 0)));
    var st := Skip(a.st);
    var bad := st.bad || st.p != "";
    Outcome(if bad then 0 else a.v, st.store, bad)
  }
}
