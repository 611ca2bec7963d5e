/** What expressions come to, said of their text: which operator each spelling is, which binds tighter, and how
    numbers in other bases are read. None of it goes by the precedence table. */
module ArithLaws {
  import opened Bits
  import opened Int64
  import opened ArithText
  import opened ArithTree
  import opened ArithRoundTrip
  import opened Decimal

  /** What ax_run makes of the tokens, with spaces between them. */
  function Says(ts: seq<string>, store: map<string, int>): Outcome {
    Run(Join(ts), store)
  }

  function Yes(v: int, store: map<string, int>): Outcome { Outcome(v, store, false) }

  function Outcome1(r: Result): Outcome {
    Outcome(if r.v.None? then 0 else r.v.value, r.store, r.v.None?)
  }

  lemma {:induction false} TreeSays(t: Tree, ts: seq<string>, store: map<string, int>)
    requires Good(t) && Nesting(t, 0) <= DEPTH && Tokens(t, 0) == ts
    ensures Says(ts, store) == Outcome1(Eval(t, store))
  {
    hide Run, Eval, Good, Tokens, Nesting, Join;
    RunMeans(t, store);
  }

  // ---- the tokens of small trees ----

  lemma {:induction false} NumTokens(n: nat, c: nat)
    requires c <= 16
    ensures Tokens(Num(n), c) == [Dec(n)] && Nesting(Num(n), c) == 0 && Good(Num(n))
  {
  }

  lemma {:induction false} BinTokens(o: Op, l: Tree, r: Tree, c: nat)
    requires c <= 2 + Prec(o)
    ensures Tokens(Binary(o, l, r), c) == Tokens(l, LeftLevel(o)) + ([OpText(o)] + Tokens(r, RightLevel(o)))
    ensures Nesting(Binary(o, l, r), c) == Max(Nesting(l, LeftLevel(o)), Nesting(r, RightLevel(o)))
    ensures Good(Binary(o, l, r)) <==> Good(l) && Good(r)
    ensures 1 <= Prec(o) <= 12 && LeftLevel(o) <= 15 && RightLevel(o) <= 15
  {
  }

  lemma {:induction false} SignTokens(sign: char, e: Tree, c: nat)
    requires c <= 15 && sign in "-+!~"
    ensures Tokens(Unary(sign, e), c) == [[sign]] + Tokens(e, 15)
    ensures Nesting(Unary(sign, e), c) == 1 + Nesting(e, 15) && (Good(Unary(sign, e)) <==> Good(e))
  {
  }

  lemma {:induction false} CondTokens(q: Tree, yes: Tree, no: Tree, c: nat)
    requires c <= 2
    ensures Tokens(Cond(q, yes, no), c) == Tokens(q, 3) + (["?"] + (Tokens(yes, 1) + ([":"] + Tokens(no, 1))))
    ensures Nesting(Cond(q, yes, no), c) == Max(Nesting(q, 3), Max(Nesting(yes, 1), Nesting(no, 1)))
    ensures Good(Cond(q, yes, no)) <==> Good(q) && Good(yes) && Good(no)
  {
  }

  // ---- one operator ----

  lemma {:induction false} OneTokens(o: Op, a: nat, b: nat, c: nat)
    requires c <= 2 + Prec(o)
    ensures Tokens(Binary(o, Num(a), Num(b)), c) == [Dec(a), OpText(o), Dec(b)]
    ensures Nesting(Binary(o, Num(a), Num(b)), c) == 0 && Good(Binary(o, Num(a), Num(b)))
  {
    hide Tokens, Nesting, Good, Dec, OpText;
    BinTokens(o, Num(a), Num(b), c);
    NumTokens(a, LeftLevel(o));
    NumTokens(b, RightLevel(o));
  }

  lemma {:induction false} OneOperator(op: Op, a: nat, b: nat, store: map<string, int>)
    requires Fits(a) && Fits(b)
    ensures Says([Dec(a), OpText(op), Dec(b)], store) ==
            match Apply(op, a, b) case None => Outcome(0, store, true) case Some(v) => Yes(v, store)
  {
    hide Says, Dec, Apply, Tokens, Nesting, Good, OpText;
    WrapFits(a);
    WrapFits(b);
    var t := Binary(op, Num(a), Num(b));
    OneTokens(op, a, b, 0);
    TreeSays(t, [Dec(a), OpText(op), Dec(b)], store);
    Shortcuts(op, a, b);
  }

  lemma {:induction false} Shortcuts(op: Op, a: int, b: int)
    ensures op == OrOr && a != 0 ==> Apply(op, a, b) == Some(1)
    ensures op == AndAnd && a == 0 ==> Apply(op, a, b) == Some(0)
  {
  }

  lemma {:induction false} PlainQuot(a: nat, b: nat)
    requires b > 0
    ensures Quot(a, b) == a / b && a - b * Quot(a, b) == a % b
  {
  }

  /** Arithmetic, by the operators' spellings. */
  lemma {:induction false} Sums(a: nat, b: nat, store: map<string, int>)
    requires Fits(a) && Fits(b)
    ensures Says([Dec(a), "+", Dec(b)], store) == Yes(Wrap(a + b), store)
    ensures Says([Dec(a), "-", Dec(b)], store) == Yes(a - b, store)
    ensures Says([Dec(a), "*", Dec(b)], store) == Yes(Wrap(a * b), store)
    ensures Says([Dec(a), "**", Dec(b)], store) == Yes(Wrap(Power(a, b)), store)
    ensures Says([Dec(a), "/", Dec(b)], store) == if b == 0 then Outcome(0, store, true) else Yes(a / b, store)
    ensures Says([Dec(a), "%", Dec(b)], store) == if b == 0 then Outcome(0, store, true) else Yes(a % b, store)
  {
    hide Says, Dec, Power, Wrap, Quot;
    OneOperator(Add, a, b, store);
    OneOperator(Sub, a, b, store);
    OneOperator(Mul, a, b, store);
    OneOperator(Pow, a, b, store);
    OneOperator(Div, a, b, store);
    OneOperator(Rem, a, b, store);
    WrapFits(a - b);
    if b > 0 {
      DivFits(a, b);
      PlainQuot(a, b);
    }
  }

  /** Comparisons and the logical operators. */
  lemma {:induction false} Tests(a: nat, b: nat, store: map<string, int>)
    requires Fits(a) && Fits(b)
    ensures Says([Dec(a), "<", Dec(b)], store) == Yes(if a < b then 1 else 0, store)
    ensures Says([Dec(a), "<=", Dec(b)], store) == Yes(if a <= b then 1 else 0, store)
    ensures Says([Dec(a), ">", Dec(b)], store) == Yes(if a > b then 1 else 0, store)
    ensures Says([Dec(a), ">=", Dec(b)], store) == Yes(if a >= b then 1 else 0, store)
    ensures Says([Dec(a), "==", Dec(b)], store) == Yes(if a == b then 1 else 0, store)
    ensures Says([Dec(a), "!=", Dec(b)], store) == Yes(if a != b then 1 else 0, store)
    ensures Says([Dec(a), "&&", Dec(b)], store) == Yes(if a > 0 && b > 0 then 1 else 0, store)
    ensures Says([Dec(a), "||", Dec(b)], store) == Yes(if a > 0 || b > 0 then 1 else 0, store)
  {
    hide Says, Dec;
    OneOperator(Lt, a, b, store);
    OneOperator(Le, a, b, store);
    OneOperator(Gt, a, b, store);
    OneOperator(Ge, a, b, store);
    OneOperator(Eq, a, b, store);
    OneOperator(Ne, a, b, store);
    OneOperator(AndAnd, a, b, store);
    OneOperator(OrOr, a, b, store);
  }

  /** Shifts. */
  lemma {:induction false} Shifts(a: nat, b: nat, store: map<string, int>)
    requires Fits(a) && Fits(b)
    ensures Says([Dec(a), "<<", Dec(b)], store) == Yes(Wrap(a * Pow2(b % 64)), store)
    ensures Says([Dec(a), ">>", Dec(b)], store) == Yes(a / Pow2(b % 64), store)
  {
    hide Says, Dec, Sar, Pow2, Wrap;
    OneOperator(Shl, a, b, store);
    OneOperator(Shr, a, b, store);
    SarHalves(a, b % 64);
  }

  /** The bitwise operators. */
  lemma {:induction false} Masks(a: nat, b: nat, store: map<string, int>)
    requires Fits(a) && Fits(b)
    ensures Says([Dec(a), "&", Dec(b)], store) == Yes(Wrap(And(a, b)), store)
    ensures Says([Dec(a), "|", Dec(b)], store) == Yes(Wrap(Or(a, b)), store)
    ensures Says([Dec(a), "^", Dec(b)], store) == Yes(Wrap(Xor(a, b)), store)
  {
    hide Says, Dec, And, Or, Xor, Wrap;
    OneOperator(BitAnd, a, b, store);
    OneOperator(BitOr, a, b, store);
    OneOperator(BitXor, a, b, store);
    Unsigned(a);
    Unsigned(b);
  }

  lemma {:induction false} Unsigned(a: nat)
    requires Fits(a)
    ensures U(a) == a
  {
  }

  lemma {:induction false} SarHalves(a: nat, n: nat)
    ensures Sar(a, n) == a / Pow2(n)
  {
    if n > 0 {
      SarHalves(a / 2, n - 1);
      DivTwice(a, Pow2(n - 1));
    }
  }

  lemma {:induction false} DivTwice(a: nat, m: nat)
    requires m > 0
    ensures a / 2 / m == a / (2 * m)
  {
    var q, r := a / 2 / m, a / 2 % m;
    var s := 2 * r + a % 2;
    assert a / 2 == m * q + r;
    assert a == 2 * m * q + s && 0 <= s < 2 * m by {
      assert 2 * (m * q) == 2 * m * q;
    }
    QuotIs(a, 2 * m, q, s);
  }

  lemma {:induction false} QuotIs(a: nat, d: nat, q: nat, s: nat)
    requires a == d * q + s && s < d
    ensures a / d == q
  {
    var q', s' := a / d, a % d;
    assert a == d * q' + s';
    if q' < q { LeastGap(d, q', q); } else if q < q' { LeastGap(d, q, q'); }
  }

  lemma {:induction false} LeastGap(d: nat, p: nat, q: nat)
    requires p < q
    ensures d * p + d <= d * q
  {
    if p + 1 < q {
      LeastGap(d, p, q - 1);
    }
  }

  /** The prefix operators. */
  lemma {:induction false} Prefixes(a: int, store: map<string, int>)
    requires 0 <= a && Fits(a)
    ensures Says(["-", Dec(a)], store) == Yes(-a, store)
    ensures Says(["+", Dec(a)], store) == Yes(a, store)
    ensures Says(["~", Dec(a)], store) == Yes(-a - 1, store)
    ensures Says(["!", Dec(a)], store) == Yes(if a == 0 then 1 else 0, store)
  {
    hide Says, Dec;
    WrapFits(a);
    WrapFits(-a);
    WrapFits(-a - 1);
    forall c: char | c in "-+!~" ensures Says([[c], Dec(a)], store) == Yes(Prefix(c, a), store) {
      var t := Unary(c, Num(a));
      NumTokens(a, 15);
      SignTokens(c, Num(a), 0);
      TreeSays(t, [[c], Dec(a)], store);
    }
  }

  // ---- two operators ----

  /** The operators of C, those that bind tightest first. */
  ghost function Groups(): seq<set<Op>> {
    [{Pow}, {Mul, Div, Rem}, {Add, Sub}, {Shl, Shr}, {Lt, Le, Gt, Ge}, {Eq, Ne}, {BitAnd}, {BitXor}, {BitOr}, {AndAnd}, {OrOr}]
  }

  ghost predicate Tighter(o: Op, p: Op) {
    exists i, j :: 0 <= i < j < |Groups()| && o in Groups()[i] && p in Groups()[j]
  }

  /** Where an operator stands among the groups. */
  function Place(o: Op): (i: nat)
    ensures i < 11
  {
    var p := Prec(o);
    if p >= 9 then if p <= 12 then 12 - p else 0 else if p >= 1 then 11 - p else 0
  }

  lemma {:induction false} InGroup(o: Op, i: nat)
    ensures |Groups()| == 11 && (i < 11 ==> (o in Groups()[i] <==> i == Place(o)))
  {
  }

  lemma {:induction false} Places(o: Op, p: Op)
    ensures Place(o) < Place(p) <==> Prec(o) > Prec(p)
  {
  }

  lemma {:induction false} TighterOnly(o: Op, p: Op)
    requires Tighter(o, p)
    ensures Place(o) < Place(p)
  {
    hide Groups, Place;
    var i, j :| 0 <= i < j < |Groups()| && o in Groups()[i] && p in Groups()[j];
    InGroup(o, i);
    InGroup(p, j);
  }

  lemma {:induction false} TighterIf(o: Op, p: Op)
    requires Place(o) < Place(p)
    ensures Tighter(o, p)
  {
    hide Groups, Place;
    InGroup(o, Place(o));
    InGroup(p, Place(p));
  }

  lemma {:induction false} TighterIs(o: Op, p: Op)
    ensures Tighter(o, p) <==> Prec(o) > Prec(p)
  {
    hide Place, Prec, Tighter;
    Places(o, p);
    if Place(o) < Place(p) { TighterIf(o, p); }
    if Tighter(o, p) { TighterOnly(o, p); }
  }

  /** Without parentheses, the operator that binds tighter takes its operands first; of equals the left one does,
      but for `**` the right one. */
  lemma {:induction false} TwoOperators(a: nat, o: Op, b: nat, p: Op, c: nat, store: map<string, int>)
    ensures Says([Dec(a), OpText(o), Dec(b), OpText(p), Dec(c)], store) ==
            Outcome1(Eval(if Tighter(p, o) || (o == Pow && p == Pow) then Binary(o, Num(a), Binary(p, Num(b), Num(c)))
                          else Binary(p, Binary(o, Num(a), Num(b)), Num(c)), store))
  {
    hide Says, Dec, Eval, OpText, Groups, Tighter, Tokens, Nesting, Good, Outcome1;
    TighterIs(p, o);
    var ts := [Dec(a), OpText(o), Dec(b), OpText(p), Dec(c)];
    var right := Binary(o, Num(a), Binary(p, Num(b), Num(c)));
    var left := Binary(p, Binary(o, Num(a), Num(b)), Num(c));
    if Tighter(p, o) || (o == Pow && p == Pow) {
      OneTokens(p, b, c, RightLevel(o));
      NumTokens(a, LeftLevel(o));
      BinTokens(o, Num(a), Binary(p, Num(b), Num(c)), 0);
      TreeSays(right, ts, store);
    } else {
      OneTokens(o, a, b, LeftLevel(p));
      NumTokens(c, RightLevel(p));
      BinTokens(p, Binary(o, Num(a), Num(b)), Num(c), 0);
      TreeSays(left, ts, store);
    }
  }

  /** A prefix operator takes its operand before any binary one, `**` included. */
  lemma {:induction false} PrefixFirst(sign: char, a: nat, o: Op, b: nat, store: map<string, int>)
    requires sign in "-+!~"
    ensures Says([[sign], Dec(a), OpText(o), Dec(b)], store) == Outcome1(Eval(Binary(o, Unary(sign, Num(a)), Num(b)), store))
  {
    hide Says, Dec, Eval, OpText, Tokens, Nesting, Good, Outcome1;
    var t := Binary(o, Unary(sign, Num(a)), Num(b));
    NumTokens(a, 15);
    NumTokens(b, RightLevel(o));
    SignTokens(sign, Num(a), LeftLevel(o));
    BinTokens(o, Unary(sign, Num(a)), Num(b), 0);
    TreeSays(t, [[sign], Dec(a), OpText(o), Dec(b)], store);
  }

  /** `?:` takes its condition after every binary operator, and nests to the right. */
  lemma {:induction false} Conditions(a: nat, o: Op, b: nat, c: nat, d: nat, e: nat, f: nat, store: map<string, int>)
    ensures Says([Dec(a), OpText(o), Dec(b), "?", Dec(c), ":", Dec(d), "?", Dec(e), ":", Dec(f)], store)
         == Outcome1(Eval(Cond(Binary(o, Num(a), Num(b)), Num(c), Cond(Num(d), Num(e), Num(f))), store))
  {
    hide Says, Dec, Eval, OpText, Tokens, Nesting, Good, Outcome1;
    var t := Cond(Binary(o, Num(a), Num(b)), Num(c), Cond(Num(d), Num(e), Num(f)));
    var ts := [Dec(a), OpText(o), Dec(b), "?", Dec(c), ":", Dec(d), "?", Dec(e), ":", Dec(f)];
    OneTokens(o, a, b, 3);
    NumTokens(c, 1);
    NumTokens(d, 3);
    NumTokens(e, 1);
    NumTokens(f, 1);
    CondTokens(Num(d), Num(e), Num(f), 1);
    CondTokens(Binary(o, Num(a), Num(b)), Num(c), Cond(Num(d), Num(e), Num(f)), 0);
    TreeSays(t, ts, store);
  }

  /** An assignment takes all that follows up to a comma, and leaves the value in the variable. */
  lemma {:induction false} Assigned(x: string, a: nat, o: Op, b: nat, c: nat, store: map<string, int>)
    requires IsName(x) && Fits(a) && Fits(b) && Fits(c) && Apply(o, a, b).Some?
    ensures var v := Apply(o, a, b).value;
            Says([x, "=", Dec(a), OpText(o), Dec(b), ",", Dec(c)], store) == Yes(c, store[x := v])
  {
    hide Says, Dec, OpText, Apply, Tokens, Nesting;
    WrapFits(a);
    WrapFits(b);
    WrapFits(c);
    Shortcuts(o, a, b);
    OneTokens(o, a, b, 1);
    NumTokens(c, 1);
    var t := Seq(Set(None, x, Binary(o, Num(a), Num(b))), Num(c));
    var ts := [x, "=", Dec(a), OpText(o), Dec(b), ",", Dec(c)];
    SetTokens(x, Binary(o, Num(a), Num(b)), Num(c));
    TreeSays(t, ts, store);
    assert Eval(Binary(o, Num(a), Num(b)), store) == Result(Apply(o, a, b), store);
  }

  lemma {:induction false} SetTokens(x: string, e: Tree, then_: Tree)
    ensures var t := Seq(Set(None, x, e), then_);
            Tokens(t, 0) == [x, "="] + Tokens(e, 1) + ([","] + Tokens(then_, 1))
            && Nesting(t, 0) == Max(Nesting(e, 1), Nesting(then_, 1))
  {
    var a := Set(None, x, e);
    assert Own(a) == [x, "="] + Tokens(e, 1) && OwnNesting(a) == Nesting(e, 1);
    assert Tokens(a, 0) == Own(a) && Nesting(a, 0) == OwnNesting(a);
    var t := Seq(a, then_);
    assert Tokens(t, 0) == Own(t) && Nesting(t, 0) == OwnNesting(t);
  }

  // ---- names ----

  /** A name as far as it goes. */
  lemma {:induction false} NameEndIs(nm: string, rest: string)
    requires (forall i :: 0 <= i < |nm| ==> Continues(nm[i])) && (rest == "" || !Continues(rest[0]))
    ensures ArithText.NameEnd(nm + rest) == rest
    decreases |nm|
  {
    if nm == "" {
      assert nm + rest == rest;
    } else {
      assert (nm + rest)[1..] == nm[1..] + rest;
      NameEndIs(nm[1..], rest);
    }
  }

  /** Text in which every bracket that opens is closed, and none is closed before. */
  predicate Balanced(s: string, d: nat) {
    if s == "" then d == 0
    else if s[0] == '[' then Balanced(s[1..], d + 1)
    else if s[0] == ']' then d > 0 && Balanced(s[1..], d - 1)
    else Balanced(s[1..], d)
  }

  lemma {:induction false} SubscriptEnds(s: string, rest: string, d: nat)
    requires Balanced(s, d)
    ensures SubEnd(s + ("]" + rest), d + 1) == Some(rest)
    decreases |s|
  {
    if s == "" {
      assert s + ("]" + rest) == "]" + rest && ("]" + rest)[1..] == rest;
      assert SubEnd(rest, 0) == Some(rest);
    } else {
      assert (s + ("]" + rest))[1..] == s[1..] + ("]" + rest);
      if s[0] == '[' { SubscriptEnds(s[1..], rest, d + 1); }
      else if s[0] == ']' { SubscriptEnds(s[1..], rest, d - 1); }
      else { SubscriptEnds(s[1..], rest, d); }
    }
  }

  /** A name takes its subscript along, whatever brackets are balanced inside. */
  lemma {:induction false} SubscriptedName(nm: string, s: string, rest: string, st: St)
    requires IsName(nm) && Balanced(s, 0) && Ch(rest, 0) != '[' && st.p == nm + ("[" + (s + ("]" + rest)))
    ensures ArithText.Name(st) == (st.(p := rest), Some(nm + "[" + s + "]"))
  {
    hide SubEnd, Balanced;
    var q := "[" + (s + ("]" + rest));
    NameEndIs(nm, q);
    assert q[1..] == s + ("]" + rest);
    SubscriptEnds(s, rest, 0);
    assert Subs(rest) == Some(rest);
    assert Subs(q) == Some(rest);
    assert st.p == nm + "[" + s + "]" + rest;
    assert st.p[..|st.p| - |rest|] == nm + "[" + s + "]";
  }

  // ---- numbers in other bases ----

  /** What a list of digits says, the first the most significant. */
  function Horner(ds: seq<nat>, b: nat, acc: nat): nat {
    if ds == [] then acc else Horner(ds[1..], b, acc * b + ds[0])
  }

  /** Each character is that digit, in either case. */
  predicate Spells(s: string, ds: seq<nat>, b: nat) {
    |s| == |ds| && forall i :: 0 <= i < |s| ==>
      ds[i] < b <= 16 && (s[i] == "0123456789abcdef"[ds[i]] || s[i] == "0123456789ABCDEF"[ds[i]])
  }

  predicate NoDigit(rest: string) {
    rest != "" ==> !('0' <= rest[0] <= '9') && !('a' <= rest[0] <= 'f') && !('A' <= rest[0] <= 'F')
  }

  lemma {:induction false} DigitIs(c: char, d: nat)
    requires d < 16 && (c == "0123456789abcdef"[d] || c == "0123456789ABCDEF"[d])
    ensures HexVal(c) == d && (d < 10 ==> IsDigit(c)) && c != '#'
  {
  }

  lemma {:induction false} NoneIs(c: char)
    requires !('0' <= c <= '9') && !('a' <= c <= 'f') && !('A' <= c <= 'F')
    ensures HexVal(c) == 16
  {
  }

  lemma {:induction false} DigitsRead(s: string, ds: seq<nat>, b: nat, rest: string, acc: nat)
    requires Spells(s, ds, b) && NoDigit(rest) && b <= 16
    ensures Digits(s + rest, b, acc) == (Horner(ds, b, acc), rest)
    decreases |s|
  {
    hide HexVal;
    if s == "" {
      assert s + rest == rest;
      if rest != "" { NoneIs(rest[0]); }
    } else {
      DigitIs(s[0], ds[0]);
      assert (s + rest)[1..] == s[1..] + rest;
      DigitsRead(s[1..], ds[1..], b, rest, Push(acc, b, ds[0]));
    }
  }

  /** After 0x or 0X, hexadecimal. */
  lemma {:induction false} HexNumber(x: char, s: string, ds: seq<nat>, rest: string, st: St)
    requires x in "xX" && s != "" && Spells(s, ds, 16) && NoDigit(rest) && st.p == ['0', x] + s + rest
    ensures Number(st) == Step(st.(p := rest), Wrap(Horner(ds, 16, 0)))
  {
    hide HexVal, Wrap, Digits, Horner;
    var p := st.p;
    assert p[2..] == s + rest && p[1..] == [x] + (s + rest);
    DigitIs(s[0], ds[0]);
    DigitsRead(s, ds, 16, rest, 0);
    ZeroFirst(p);
  }

  lemma {:induction false} ZeroFirst(p: string)
    requires |p| >= 2 && p[0] == '0' && (p[1] == 'x' || p[1] == 'X')
    ensures Digits(p, 10, 0) == (0, p[1..])
  {
    assert HexVal('0') == 0 && HexVal(p[1]) == 16;
    assert Digits(p[1..], 10, Push(0, 10, 0)) == (0, p[1..]);
  }

  /** After a lone 0, octal. */
  lemma {:induction false} OctalNumber(s: string, ds: seq<nat>, rest: string, st: St)
    requires Spells(s, ds, 8) && NoDigit(rest) && Ch(rest, 0) !in "#xX" && st.p == "0" + s + rest
    ensures Number(st) == Step(st.(p := rest), Wrap(Horner(ds, 8, 0)))
  {
    hide HexVal, Wrap, Digits;
    var p := st.p;
    assert p[1..] == s + rest;
    DigitsRead(s, ds, 8, rest, 0);
    assert Spells("0" + s, [0] + ds, 10);
    DigitsRead("0" + s, [0] + ds, 10, rest, 0);
    if s != "" { DigitIs(s[0], ds[0]); }
  }

  /** After `base#`, that base: letters in either case up to 36, then capitals, `@` and `_` after the small ones. */
  predicate SpellsBased(s: string, ds: seq<nat>, b: nat) {
    |s| == |ds| && forall i :: 0 <= i < |s| ==> SpellsOne(s[i], ds[i], b)
  }

  predicate SpellsOne(c: char, d: nat, b: nat) {
    && d < b <= 64
    && if d < 10 then c == "0123456789"[d]
       else if d < 36 then c == "abcdefghijklmnopqrstuvwxyz"[d - 10] || (b <= 36 && c == "ABCDEFGHIJKLMNOPQRSTUVWXYZ"[d - 10])
       else if d < 62 then c == "ABCDEFGHIJKLMNOPQRSTUVWXYZ"[d - 36]
       else if d == 62 then c == '@'
       else c == '_'
  }

  lemma {:induction false} Figures(i: nat)
    requires i < 10
    ensures "0123456789"[i] as int == '0' as int + i
  {
  }

  lemma {:induction false} Small(i: nat)
    requires i < 26
    ensures "abcdefghijklmnopqrstuvwxyz"[i] as int == 'a' as int + i
  {
  }

  lemma {:induction false} Capitals(i: nat)
    requires i < 26
    ensures "ABCDEFGHIJKLMNOPQRSTUVWXYZ"[i] as int == 'A' as int + i
  {
  }

  lemma {:induction false} BasedDigit(c: char, d: nat, b: nat)
    requires SpellsOne(c, d, b)
    ensures Digit64(c, b) == Some(d)
  {
    if d < 10 {
      Figures(d);
    } else if d < 36 {
      Small(d - 10);
      Capitals(d - 10);
    } else if d < 62 {
      Capitals(d - 36);
    }
  }

  lemma {:induction false} BasedRead(s: string, ds: seq<nat>, b: nat, rest: string, acc: int, h: nat)
    requires SpellsBased(s, ds, b) && (rest == "" || Digit64(rest[0], b).None?) && acc == Wrap(h)
    ensures Based(s + rest, b, acc) == (Wrap(Horner(ds, b, h)), rest)
    decreases |s|
  {
    hide Digit64, SpellsOne, Wrap;
    if s == "" {
      assert s + rest == rest;
    } else {
      assert (s + rest)[1..] == s[1..] + rest;
      assert SpellsOne(s[0], ds[0], b);
      BasedDigit(s[0], ds[0], b);
      WrapStep(h, b, ds[0]);
      BasedRead(s[1..], ds[1..], b, rest, Wrap(acc * b + ds[0]), h * b + ds[0]);
    }
  }

  lemma {:induction false} WrapStep(h: nat, b: nat, d: nat)
    ensures Wrap(Wrap(h) * b + d) == Wrap(h * b + d)
  {
    var q := (h - Wrap(h)) / W;
    assert h == Wrap(h) + W * q;
    TimesOut(Wrap(h), q, b);
    ModShift(Wrap(h) * b + d, q * b);
  }

  lemma {:induction false} TimesOut(w: int, q: int, b: nat)
    ensures (w + W * q) * b == w * b + W * (q * b)
  {
  }

  lemma {:induction false} BasedNumber(bs: string, bd: seq<nat>, s: string, ds: seq<nat>, rest: string, st: St)
    requires bs != "" && Spells(bs, bd, 10) && s != "" && 2 <= Horner(bd, 10, 0) <= 64
    requires SpellsBased(s, ds, Horner(bd, 10, 0)) && (rest == "" || Digit64(rest[0], Horner(bd, 10, 0)).None?)
    requires st.p == bs + ("#" + (s + rest))
    ensures Number(st) == Step(st.(p := rest), Wrap(Horner(ds, Horner(bd, 10, 0), 0)))
  {
    hide HexVal, Digit64, Wrap, SpellsOne, Horner;
    var b, e := Horner(bd, 10, 0), "#" + (s + rest);
    DigitsRead(bs, bd, 10, e, 0);
    assert e[1..] == s + rest && (s + rest)[0] == s[0];
    assert SpellsOne(s[0], ds[0], b);
    BasedDigit(s[0], ds[0], b);
    DigitIs(bs[0], bd[0]);
    ZeroWraps();
    BasedRead(s, ds, b, rest, 0, 0);
  }

  lemma {:induction false} ZeroWraps()
    ensures Wrap(0) == 0
  {
  }
}
