/** CRC-32 as division by its generator polynomial (ISO 3309; RFC 1952, section 8), the lowest bit first. */
module CrcLaws {
  import opened Bits
  import opened Checksums

  /** The exponents below 32 of x^32 + x^26 + x^23 + x^22 + x^16 + x^12 + x^11 + x^10 + x^8 + x^7 + x^5 + x^4 + x^2 + x + 1. */
  const TAPS: set<nat> := {26, 23, 22, 16, 12, 11, 10, 8, 7, 5, 4, 2, 1, 0}

  /** The remainder moves one place, and where a one leaves it the polynomial is taken off. */
  function Shifted(r: seq<bool>): (t: seq<bool>)
    requires |r| == 32
    ensures |t| == 32
  {
    seq(32, i requires 0 <= i < 32 => (i < 31 && r[i + 1]) != (r[0] && (31 - i) in TAPS))
  }

  function ShiftedTimes(r: seq<bool>, n: nat): (t: seq<bool>)
    requires |r| == 32
    ensures |t| == 32
    decreases n
  {
    if n == 0 then r else ShiftedTimes(Shifted(r), n - 1)
  }

  /** A byte goes into the eight bits that leave first. */
  function Entered(r: seq<bool>, b: byte): (t: seq<bool>)
    requires |r| == 32
    ensures |t| == 32
  {
    seq(32, i requires 0 <= i < 32 => r[i] != (i < 8 && Low(b, 8)[i]))
  }

  /** The remainder after the bytes, all ones before them. */
  function Remainder(s: seq<byte>): (r: seq<bool>)
    ensures |r| == 32
  {
    if s == [] then seq(32, _ => true) else ShiftedTimes(Entered(Remainder(s[..|s| - 1]), s[|s| - 1]), 8)
  }

  lemma {:induction false} LowXor(v: nat, w: nat, n: nat, i: nat)
    requires i < n
    ensures Low(Xor(v, w), n)[i] == (Low(v, n)[i] != Low(w, n)[i])
  {
    hide Xor;
    XorParts(v, w);
    if i > 0 { LowXor(v / 2, w / 2, n - 1, i - 1); }
  }

  lemma {:induction false} LowHalf(v: nat, n: nat, i: nat)
    requires i + 1 < n
    ensures Low(v / 2, n)[i] == Low(v, n)[i + 1]
  {
    LowPrefix(v / 2, n, n - 1, i);
  }

  lemma {:induction false} LowPrefix(v: nat, n: nat, m: nat, i: nat)
    requires i < m <= n
    ensures Low(v, n)[i] == Low(v, m)[i]
  {
    if i > 0 { LowPrefix(v / 2, n - 1, m - 1, i - 1); }
  }

  lemma {:induction false} LowAbove(v: nat, n: nat, i: nat)
    requires i < n && v < Pow2(i)
    ensures !Low(v, n)[i]
  {
    if i > 0 { LowAbove(v / 2, n - 1, i - 1); }
  }

  lemma {:induction false} LowJoin(h: nat, b: nat, k: nat, n: nat)
    requires b < Pow2(k)
    ensures Low(h * Pow2(k) + b, k + n) == Low(b, k) + Low(h, n)
  {
    if k > 0 {
      var p := h * Pow2(k - 1);
      assert h * Pow2(k) == 2 * p;
      assert (2 * p + b) / 2 == p + b / 2 && (2 * p + b) % 2 == b % 2;
      LowJoin(h, b / 2, k - 1, n);
    }
  }

  lemma {:induction false} PolyLow()
    ensures Low(POLY, 32) == Low(0x20, 8) + (Low(0x83, 8) + (Low(0xb8, 8) + Low(0xed, 8)))
  {
    Pow2Values();
    LowJoin(0xedb883, 0x20, 8, 24);
    LowJoin(0xedb8, 0x83, 8, 16);
    LowJoin(0xed, 0xb8, 8, 8);
  }

  lemma {:induction false} LowFour(v: nat, n: nat)
    ensures Low(v, n + 4) == [v % 2 == 1, v / 2 % 2 == 1, v / 2 / 2 % 2 == 1, v / 2 / 2 / 2 % 2 == 1] + Low(v / 2 / 2 / 2 / 2, n)
  {
    assert Low(v, n + 4) == [v % 2 == 1] + Low(v / 2, n + 3);
    assert Low(v / 2, n + 3) == [v / 2 % 2 == 1] + Low(v / 2 / 2, n + 2);
    assert Low(v / 2 / 2, n + 2) == [v / 2 / 2 % 2 == 1] + Low(v / 2 / 2 / 2, n + 1);
  }

  lemma {:induction false} LowByte(v: byte, lo: seq<bool>, hi: seq<bool>)
    requires lo == [v % 2 == 1, v / 2 % 2 == 1, v / 2 / 2 % 2 == 1, v / 2 / 2 / 2 % 2 == 1]
    requires var w := v / 2 / 2 / 2 / 2; hi == [w % 2 == 1, w / 2 % 2 == 1, w / 2 / 2 % 2 == 1, w / 2 / 2 / 2 % 2 == 1]
    ensures Low(v, 8) == lo + hi
  {
    hide Low;
    LowFour(v, 4);
    LowFour(v / 2 / 2 / 2 / 2, 0);
    NoBits(v / 2 / 2 / 2 / 2 / 2 / 2 / 2 / 2);
    assert hi + [] == hi;
  }

  lemma {:induction false} NoBits(v: nat)
    ensures Low(v, 0) == []
  {
  }

  lemma {:induction false} PolyBytes()
    ensures Low(0x20, 8) == [false, false, false, false, false, true, false, false]
    ensures Low(0x83, 8) == [true, true, false, false, false, false, false, true]
    ensures Low(0xb8, 8) == [false, false, false, true, true, true, false, true]
    ensures Low(0xed, 8) == [true, false, true, true, false, true, true, true]
  {
    hide Low;
    LowByte(0x20, [false, false, false, false], [false, true, false, false]);
    LowByte(0x83, [true, true, false, false], [false, false, false, true]);
    LowByte(0xb8, [false, false, false, true], [true, true, false, true]);
    LowByte(0xed, [true, false, true, true], [false, true, true, true]);
  }

  /** The constant is the polynomial, its bits in the order they leave. */
  lemma {:induction false} PolyBits(i: nat)
    requires i < 32
    ensures Low(POLY, 32)[i] == ((31 - i) in TAPS)
  {
    hide Low;
    PolyLow();
    PolyBytes();
  }

  /** One step of the register is one step of the division. */
  lemma {:induction false} StepDivides(c: nat)
    requires c < Pow2(32)
    ensures Step(c) < Pow2(32) && Low(Step(c), 32) == Shifted(Low(c, 32))
  {
    hide Xor, Low, TAPS, POLY;
    var r := Low(c, 32);
    PolyFits();
    assert c / 2 < Pow2(31);
    FirstBit(c, 32);
    XorBound(POLY, c / 2, 32);
    forall i | 0 <= i < 32 ensures Low(Step(c), 32)[i] == Shifted(r)[i] {
      LowXor(POLY, c / 2, 32, i);
      PolyBits(i);
      if i < 31 { LowHalf(c, 32, i); } else { LowAbove(c / 2, 32, 31); }
    }
  }

  lemma {:induction false} PolyFits()
    ensures POLY < Pow2(32) && Pow2(32) == 2 * Pow2(31)
  {
    Pow2Values();
  }

  lemma {:induction false} FirstBit(c: nat, n: nat)
    requires n > 0
    ensures Low(c, n)[0] == (c % 2 == 1)
  {
  }

  lemma {:induction false} StepsDivide(c: nat, n: nat)
    requires c < Pow2(32)
    ensures Steps(c, n) < Pow2(32) && Low(Steps(c, n), 32) == ShiftedTimes(Low(c, 32), n)
    decreases n
  {
    hide Step, Low, Pow2, Shifted;
    StepDivides(c);
    if n > 0 { StepsDivide(Step(c), n - 1); }
  }

  lemma {:induction false} ByteEnters(c: nat, b: byte)
    requires c < Pow2(32)
    ensures Xor(c, b) < Pow2(32) && Low(Xor(c, b), 32) == Entered(Low(c, 32), b)
  {
    hide Xor, Low;
    Pow2Values();
    ByteBelow(b);
    XorBound(c, b, 32);
    forall i | 0 <= i < 32 ensures Low(Xor(c, b), 32)[i] == Entered(Low(c, 32), b)[i] {
      LowXor(c, b, 32, i);
      if i < 8 { LowPrefix(b, 32, 8, i); } else { Pow2Mono(8, i); LowAbove(b, 32, i); }
    }
  }

  lemma {:induction false} ByteBelow(b: byte)
    ensures b < Pow2(8) && b < Pow2(32)
  {
    Pow2Values();
  }

  lemma {:induction false} AllOnes(n: nat)
    ensures Low(Pow2(n) - 1, n) == seq(n, _ => true)
  {
    if n > 0 {
      assert (2 * Pow2(n - 1) - 1) / 2 == Pow2(n - 1) - 1;
      AllOnes(n - 1);
    }
  }

  lemma {:induction false} FourBytes()
    ensures Pow2(32) == 0x1_0000_0000
  {
    assert Pow2(8) == 256;
    assert Pow2(16) == 256 * 256 by { Pow2Add(8, 8); }
    Pow2Add(16, 16);
  }

  lemma {:induction false} RegisterDivides(s: seq<byte>)
    ensures Register(s) < Pow2(32) && Low(Register(s), 32) == Remainder(s)
  {
    hide Low, Xor, Steps, ShiftedTimes, Entered, Pow2;
    FourBytes();
    if s == [] {
      AllOnes(32);
    } else {
      RegisterDivides(s[..|s| - 1]);
      ByteEnters(Register(s[..|s| - 1]), s[|s| - 1]);
      StepsDivide(Xor(Register(s[..|s| - 1]), s[|s| - 1]), 8);
    }
  }

  /** The CRC is the remainder of that division, each of its bits turned over. */
  lemma {:induction false} CrcDivides(s: seq<byte>, i: nat)
    requires i < 32
    ensures Crc(s) < Pow2(32) && Low(Crc(s), 32)[i] == !Remainder(s)[i]
  {
    hide Low, Xor, Register, Remainder, Pow2;
    FourBytes();
    RegisterDivides(s);
    AllOnes(32);
    XorBound(Register(s), 0xffff_ffff, 32);
    LowXor(Register(s), 0xffff_ffff, 32, i);
  }
}
