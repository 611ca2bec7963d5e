/** Arithmetic in 64 bits as ax_do does it, through unsigned numbers, and what each operator means. */
module Int64 {
  import opened Bits

  const W: nat := 0x1_0000_0000_0000_0000

  /** `(long)v` and `(unsigned long)v`. */
  function Wrap(v: int): int {
    var u := v % W;
    if u < W / 2 then u else u - W
  }

  function U(v: int): nat { v % W }

  predicate Fits(v: int) { -(W / 2) <= v < W / 2 }

  lemma {:induction false} WrapFits(v: int)
    ensures Fits(Wrap(v)) && (Fits(v) ==> Wrap(v) == v)
  {
  }

  /** Whole multiples of 2^64 do not matter. */
  lemma {:induction false} ModShift(x: int, k: int)
    ensures (x + W * k) % W == x % W
    decreases if k < 0 then -k else k
  {
    if k > 0 {
      ModShift(x, k - 1);
      assert x + W * k == x + W * (k - 1) + W;
    } else if k < 0 {
      ModShift(x, k + 1);
      assert x + W * k == x + W * (k + 1) - W;
    }
  }

  lemma {:induction false} ModAdd(a: int, b: int)
    ensures (U(a) + U(b)) % W == (a + b) % W
  {
    var q, r := a / W, b / W;
    assert U(a) + U(b) + W * (q + r) == a + b;
    ModShift(U(a) + U(b), q + r);
  }

  lemma {:induction false} ModSub(a: int, b: int)
    ensures (U(a) - U(b)) % W == (a - b) % W
  {
    var q, r := a / W, b / W;
    assert U(a) - U(b) + W * (q - r) == a - b;
    ModShift(U(a) - U(b), q - r);
  }

  lemma {:induction false} ModMul(a: int, b: int)
    ensures (U(a) * b) % W == (a * b) % W
  {
    var q := a / W;
    assert a == W * q + U(a);
    MulOut(q, U(a), b);
    ModShift(U(a) * b, q * b);
  }

  lemma {:induction false} MulOut(q: int, u: int, b: int)
    ensures (W * q + u) * b == u * b + W * (q * b)
  {
  }

  lemma {:induction false} ModMulBoth(a: int, b: int)
    ensures (U(a) * U(b)) % W == (a * b) % W
  {
    ModMul(a, U(b));
    ModMul(b, a);
    assert a * U(b) == U(b) * a && b * a == a * b;
  }

  // ---- the operators ----

  datatype Op = OrOr | AndAnd | BitOr | BitXor | BitAnd | Eq | Ne | Shl | Shr | Le | Ge | Lt | Gt | Add | Sub | Mul | Div | Rem | Pow

  function Truth(b: bool): int { if b then 1 else 0 }

  function And(v: nat, w: nat): nat {
    if v == 0 then 0 else (if v % 2 == 1 && w % 2 == 1 then 1 else 0) + 2 * And(v / 2, w / 2)
  }

  /** `l >> n` on a signed number: halved `n` times, rounding down. */
  function Sar(l: int, n: nat): int
    decreases n
  {
    if n == 0 then l else Sar(l / 2, n - 1)
  }

  /** Division that drops the fraction, as C's does. */
  function Quot(l: int, r: int): int
    requires r != 0
  {
    if l >= 0 then if r > 0 then l / r else -(l / -r)
    else if r > 0 then -(-l / r) else -l / -r
  }

  function Power(b: int, e: nat): int {
    if e == 0 then 1 else b * Power(b, e - 1)
  }

  /** What an operator means: the exact result wrapped to 64 bits; no result when dividing by zero or raising
      to a negative power. */
  function Apply(op: Op, l: int, r: int): Option<int> {
    match op
    case OrOr => Some(Truth(l != 0 || r != 0))
    case AndAnd => Some(Truth(l != 0 && r != 0))
    case BitOr => Some(Wrap(Or(U(l), U(r))))
    case BitXor => Some(Wrap(Xor(U(l), U(r))))
    case BitAnd => Some(Wrap(And(U(l), U(r))))
    case Eq => Some(Truth(l == r))
    case Ne => Some(Truth(l != r))
    case Shl => Some(Wrap(l * Pow2(r % 64)))
    case Shr => Some(Sar(l, r % 64))
    case Le => Some(Truth(l <= r))
    case Ge => Some(Truth(l >= r))
    case Lt => Some(Truth(l < r))
    case Gt => Some(Truth(l > r))
    case Add => Some(Wrap(l + r))
    case Sub => Some(Wrap(l - r))
    case Mul => Some(Wrap(l * r))
    case Div => if r == 0 then None else Some(Wrap(Quot(l, r)))
    case Rem => if r == 0 then None else Some(Wrap(l - r * Quot(l, r)))
    case Pow => if r < 0 then None else Some(Wrap(Power(l, r)))
  }

  // ---- ax_do ----

  /** `**` by squaring, on unsigned numbers. */
  method Squaring(l: int, r0: nat) returns (acc: nat)
    ensures acc % W == Power(l, r0) % W
  {
    hide Power;
    acc := 1;
    var base: nat, r: nat := U(l), r0;
    SamePower(U(l), l, r0);
    while r > 0
      invariant (acc * Power(base, r)) % W == Power(l, r0) % W
    {
      HalfPower(base, r);
      SquareStep(acc, base, r);
      if r % 2 == 1 { acc := U(acc * base); }
      base := U(base * base);
      r := r / 2;
    }
    PowerNone(base);
  }

  lemma {:induction false} PowerNone(b: int)
    ensures Power(b, 0) == 1
  {
  }

  /** Powers of equal numbers modulo 2^64 are equal modulo 2^64. */
  lemma {:induction false} SamePower(a: nat, b: int, e: nat)
    requires a % W == b % W
    ensures Power(a, e) % W == Power(b, e) % W
  {
    if e != 0 {
      SamePower(a, b, e - 1);
      ModMulBoth(a, Power(a, e - 1));
      ModMulBoth(b, Power(b, e - 1));
    }
  }

  lemma {:induction false} PowerAdd(b: int, m: nat, n: nat)
    ensures Power(b, m + n) == Power(b, m) * Power(b, n)
  {
    if m != 0 {
      PowerAdd(b, m - 1, n);
      assert b * (Power(b, m - 1) * Power(b, n)) == b * Power(b, m - 1) * Power(b, n);
    }
  }

  lemma {:induction false} PowerSquare(b: int, h: nat)
    ensures Power(b * b, h) == Power(b, 2 * h)
  {
    if h != 0 {
      PowerSquare(b, h - 1);
      PowerAdd(b, 2, 2 * h - 2);
      assert Power(b, 2) == b * b by { assert Power(b, 1) == b * Power(b, 0); }
    }
  }

  lemma {:induction false} HalfPower(b: int, r: nat)
    ensures Power(b, r) == if r % 2 == 1 then b * Power(b * b, r / 2) else Power(b * b, r / 2)
  {
    PowerSquare(b, r / 2);
    if r % 2 == 1 { assert r == 1 + 2 * (r / 2); } else { assert r == 2 * (r / 2); }
  }

  lemma {:induction false} SquareStep(acc: nat, base: nat, r: nat)
    requires Power(base, r) == if r % 2 == 1 then base * Power(base * base, r / 2) else Power(base * base, r / 2)
    ensures var acc' := if r % 2 == 1 then (acc * base) % W else acc;
            (acc' * Power((base * base) % W, r / 2)) % W == (acc * Power(base, r)) % W
  {
    hide Power;
    var sq, h := base * base, r / 2;
    var p, p' := Power(sq, h), Power(sq % W, h);
    SamePower(sq % W, sq, h);
    if r % 2 == 1 {
      ModMulBoth((acc * base) % W, p');
      ModMulBoth(acc * base, p);
      assert acc * base * p == acc * (base * p);
    } else {
      ModMulBoth(acc, p');
      ModMulBoth(acc, p);
    }
  }

  /** ax_do, where nothing is skipped: None is an error. */
  method Compute(op: Op, l: int, r: int) returns (v: Option<int>)
    requires Fits(l) && Fits(r)
    ensures v == Apply(op, l, r)
  {
    hide Wrap, U, Or, Xor, And, Power, Quot;
    match op
    case OrOr => return Some(Truth(l != 0 || r != 0));
    case AndAnd => return Some(Truth(l != 0 && r != 0));
    case BitOr => return Some(Wrap(Or(U(l), U(r))));
    case BitXor => return Some(Wrap(Xor(U(l), U(r))));
    case BitAnd => return Some(Wrap(And(U(l), U(r))));
    case Eq => return Some(Truth(l == r));
    case Ne => return Some(Truth(l != r));
    case Shl =>
      ShiftUnsigned(l, r % 64);
      return Some(Wrap(U(l) * Pow2(r % 64)));
    case Shr => return Some(Sar(l, r % 64));
    case Le => return Some(Truth(l <= r));
    case Ge => return Some(Truth(l >= r));
    case Lt => return Some(Truth(l < r));
    case Gt => return Some(Truth(l > r));
    case Add =>
      SumUnsigned(l, r);
      return Some(Wrap(U(l) + U(r)));
    case Sub =>
      SumUnsigned(l, r);
      return Some(Wrap(U(l) - U(r)));
    case Mul =>
      SumUnsigned(l, r);
      return Some(Wrap(U(l) * U(r)));
    case Div =>
      if r == 0 { return None; }
      DivFits(l, r);
      return Some(if r == -1 then Wrap(0 - U(l)) else Quot(l, r));
    case Rem =>
      if r == 0 { return None; }
      DivFits(l, r);
      return Some(if r == -1 then 0 else l - r * Quot(l, r));
    case Pow =>
      if r < 0 { return None; }
      var acc := Squaring(l, r);
      WrapSame(acc, Power(l, r));
      return Some(Wrap(acc));
  }

  lemma {:induction false} WrapSame(a: int, b: int)
    ensures a % W == b % W ==> Wrap(a) == Wrap(b)
  {
  }

  lemma {:induction false} ShiftUnsigned(l: int, k: nat)
    ensures Wrap(U(l) * Pow2(k)) == Wrap(l * Pow2(k))
  {
    ModMul(l, Pow2(k));
    WrapSame(U(l) * Pow2(k), l * Pow2(k));
  }

  lemma {:induction false} SumUnsigned(l: int, r: int)
    ensures Wrap(U(l) + U(r)) == Wrap(l + r) && Wrap(U(l) - U(r)) == Wrap(l - r) && Wrap(U(l) * U(r)) == Wrap(l * r)
  {
    hide U, Wrap;
    ModAdd(l, r);
    ModSub(l, r);
    ModMulBoth(l, r);
    WrapSame(U(l) + U(r), l + r);
    WrapSame(U(l) - U(r), l - r);
    WrapSame(U(l) * U(r), l * r);
  }

  /** Division by anything but -1 stays in range; by -1 it is a wrapped negation. */
  lemma {:induction false} DivFits(l: int, r: int)
    requires Fits(l) && Fits(r) && r != 0
    ensures r == -1 ==> Wrap(Quot(l, r)) == Wrap(0 - U(l)) && Wrap(l - r * Quot(l, r)) == 0
    ensures r != -1 ==> Wrap(Quot(l, r)) == Quot(l, r) && Wrap(l - r * Quot(l, r)) == l - r * Quot(l, r)
  {
    if r == -1 {
      assert Quot(l, r) == -l;
      ModSub(0, l);
      WrapSame(0 - U(l), 0 - l);
      assert Wrap(0) == 0;
    } else {
      QuotBound(l, r);
      WrapFits(Quot(l, r));
      WrapFits(l - r * Quot(l, r));
    }
  }

  lemma {:induction false} QuotBound(l: int, r: int)
    requires Fits(l) && Fits(r) && r != 0 && r != -1
    ensures Fits(Quot(l, r)) && Fits(l - r * Quot(l, r))
  {
    var a, b := if l < 0 then -l else l, if r < 0 then -r else r;
    AbsQuot(a, b);
    var q := a / b;
    assert Quot(l, r) == q || Quot(l, r) == -q;
    assert r * Quot(l, r) == (if l >= 0 then b * q else -(b * q)) by { Signs(l, r, q); }
  }

  lemma {:induction false} Signs(l: int, r: int, q: nat)
    requires r != 0 && q == (if l < 0 then -l else l) / (if r < 0 then -r else r)
    ensures r * Quot(l, r) == if l >= 0 then (if r < 0 then -r else r) * q else -((if r < 0 then -r else r) * q)
  {
  }

  lemma {:induction false} DivMod(a: nat, b: nat)
    requires b >= 1
    ensures a == b * (a / b) + a % b && 0 <= a % b < b && a / b >= 0
  {
  }

  lemma {:induction false} QuotFacts(a: nat, b: nat, q: nat, r: nat)
    requires b >= 1 && a == b * q + r && r < b
    ensures 0 <= b * q <= a && a - b * q < b && q <= a && (b >= 2 ==> 2 * q <= a)
  {
    Grows(b, q);
  }

  lemma {:induction false} Grows(b: nat, q: nat)
    requires b >= 1
    ensures b * q >= q && (b >= 2 ==> b * q >= 2 * q)
    decreases b
  {
    if b >= 3 { Grows(b - 1, q); }
  }

  lemma {:induction false} AbsQuot(a: nat, b: nat)
    requires b >= 1
    ensures 0 <= b * (a / b) <= a && a - b * (a / b) < b && 0 <= a / b <= a
    ensures b >= 2 ==> 2 * (a / b) <= a
  {
    DivMod(a, b);
    QuotFacts(a, b, a / b, a % b);
  }
}
