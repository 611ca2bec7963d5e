/** The checksums of zlib and gzip: Adler-32, and the table-driven CRC-32 of df_crc32. */
module Checksums {
  import opened Bits

  // ---- exclusive or ----

  lemma {:induction false} XorParts(v: nat, w: nat)
    ensures Xor(v, w) / 2 == Xor(v / 2, w / 2)
    ensures Xor(v, w) % 2 == if v % 2 == w % 2 then 0 else 1
  {
  }

  lemma {:induction false} XorZero(v: nat)
    ensures Xor(v, 0) == v
  {
    if v != 0 { XorZero(v / 2); }
  }

  /** Two numbers are equal when their halves and their lowest bits are. */
  lemma {:induction false} SameParts(v: nat, w: nat)
    requires v / 2 == w / 2 && v % 2 == w % 2
    ensures v == w
  {
  }

  lemma {:induction false} XorSame(v: nat)
    ensures Xor(v, v) == 0
  {
    if v != 0 { XorSame(v / 2); }
  }

  lemma {:induction false} XorComm(v: nat, w: nat)
    ensures Xor(v, w) == Xor(w, v)
    decreases v + w
  {
    XorZero(v);
    XorZero(w);
    if v != 0 && w != 0 {
      XorComm(v / 2, w / 2);
      XorParts(v, w);
      XorParts(w, v);
    }
  }

  lemma {:induction false} XorAssoc(u: nat, v: nat, w: nat)
    ensures Xor(Xor(u, v), w) == Xor(u, Xor(v, w))
    decreases u + v + w
  {
    if u == 0 {
    } else if v + w == 0 {
      XorZero(u);
    } else {
      hide Xor;
      XorAssoc(u / 2, v / 2, w / 2);
      XorParts(u, v);
      XorParts(v, w);
      XorParts(Xor(u, v), w);
      XorParts(u, Xor(v, w));
      SameParts(Xor(Xor(u, v), w), Xor(u, Xor(v, w)));
    }
  }

  lemma {:induction false} XorBound(v: nat, w: nat, n: nat)
    requires v < Pow2(n) && w < Pow2(n)
    ensures 0 <= Xor(v, w) < Pow2(n)
  {
    if n != 0 && v != 0 { XorBound(v / 2, w / 2, n - 1); }
  }

  lemma {:induction false} SplitParts(v: nat, h: nat, n: nat)
    requires n > 0
    ensures Mask(v, n) / 2 == Mask(v / 2, n - 1) && Mask(v, n) % 2 == v % 2
    ensures Shl(h, n) / 2 == Shl(h, n - 1) && Shl(h, n) % 2 == 0
  {
  }

  /** A number is its low `n` bits and what is above them. */
  lemma {:induction false} XorSplit(v: nat, n: nat)
    ensures v == Xor(Mask(v, n), Shl(Shr(v, n), n))
  {
    if n != 0 {
      var h := Shr(v, n);
      XorSplit(v / 2, n - 1);
      SplitParts(v, h, n);
      XorHalves(v, Mask(v, n), Shl(h, n));
    }
  }

  lemma {:induction false} XorHalves(v: nat, a: nat, b: nat)
    requires v / 2 == Xor(a / 2, b / 2) && v % 2 == a % 2 && b % 2 == 0
    ensures v == Xor(a, b)
  {
    XorParts(a, b);
    SameParts(v, Xor(a, b));
  }

  lemma {:induction false} ShrXor(v: nat, w: nat, n: nat)
    ensures Shr(Xor(v, w), n) == Xor(Shr(v, n), Shr(w, n))
  {
    if n != 0 {
      XorParts(v, w);
      ShrXor(v / 2, w / 2, n - 1);
    }
  }

  // ---- CRC-32 ----

  const POLY: nat := 0xedb88320

  /** One bit through the shift register. */
  function Step(c: nat): nat {
    if c % 2 == 1 then Xor(POLY, c / 2) else c / 2
  }

  function Steps(c: nat, n: nat): nat
    decreases n
  {
    if n == 0 then c else Steps(Step(c), n - 1)
  }

  /** The register after the bytes of `s`, a bit at a time. */
  function Register(s: seq<byte>): nat {
    if s == [] then 0xffff_ffff else Steps(Xor(Register(s[..|s| - 1]), s[|s| - 1]), 8)
  }

  /** CRC-32 as its definition has it: the register, complemented. */
  function Crc(s: seq<byte>): nat {
    Xor(Register(s), 0xffff_ffff)
  }

  /** The register is linear: this is what lets a table stand for eight steps. */
  lemma {:induction false} StepLinear(v: nat, w: nat)
    ensures Step(Xor(v, w)) == Xor(Step(v), Step(w))
  {
    hide Xor;
    var a, b := v / 2, w / 2;
    XorParts(v, w);
    XorAssoc(POLY, a, b);
    XorAssoc(a, POLY, b);
    XorComm(a, POLY);
    XorAssoc(Xor(POLY, a), POLY, b);
    XorComm(Xor(POLY, a), POLY);
    XorAssoc(POLY, POLY, a);
    XorSame(POLY);
    ZeroXor(a);
  }

  lemma {:induction false} ZeroXor(a: nat)
    ensures Xor(0, a) == a
  {
  }

  lemma {:induction false} StepsLinear(v: nat, w: nat, n: nat)
    ensures Steps(Xor(v, w), n) == Xor(Steps(v, n), Steps(w, n))
    decreases n
  {
    hide Xor, Step;
    if n != 0 {
      StepLinear(v, w);
      StepsLinear(Step(v), Step(w), n - 1);
    }
  }

  lemma {:induction false} StepsShifted(h: nat, n: nat)
    ensures Steps(Shl(h, n), n) == h
  {
    if n != 0 { StepsShifted(h, n - 1); }
  }

  /** One byte by the table is eight bits one at a time. */
  lemma {:induction false} ByteStep(c: nat, p: byte)
    ensures Steps(Xor(c, p), 8) == Xor(Steps(Mask(Xor(c, p), 8), 8), Shr(c, 8))
  {
    hide Xor, Step, Steps, Shl, Mask;
    var x := Xor(c, p);
    XorSplit(x, 8);
    StepsLinear(Mask(x, 8), Shl(Shr(x, 8), 8), 8);
    StepsShifted(Shr(x, 8), 8);
    ShrXor(c, p, 8);
    Pow2Values();
    ShrBound(p, 8, 0);
    XorZero(Shr(c, 8));
  }

  lemma {:induction false} StepBound(c: nat)
    requires c < Pow2(32)
    ensures 0 <= Step(c) < Pow2(32)
  {
    hide Xor;
    Word32();
    XorBound(POLY, c / 2, 32);
  }

  lemma {:induction false} Word32()
    ensures Pow2(32) == 0x1_0000_0000
  {
    Pow2Values();
    Pow2Add(16, 16);
  }

  lemma {:induction false} StepsBound(c: nat, n: nat)
    requires c < Pow2(32)
    ensures 0 <= Steps(c, n) < Pow2(32)
    decreases n
  {
    hide Step;
    if n != 0 {
      StepBound(c);
      StepsBound(Step(c), n - 1);
    }
  }

  lemma {:induction false} StepsNext(c: nat, n: nat)
    requires n > 0
    ensures Steps(c, n) == Steps(Step(c), n - 1)
  {
    hide Xor, Step;
  }

  lemma {:induction false} StepsNone(c: nat)
    ensures Steps(c, 0) == c
  {
  }

  /** The table: eight steps for every byte. */
  method MakeTable() returns (tab: array<uint32>)
    ensures fresh(tab) && tab.Length == 256 && forall j :: 0 <= j < 256 ==> tab[j] == Steps(j, 8)
  {
    hide Xor, Steps;
    tab := new uint32[256](_ => 0);
    Word32();
    var j := 0;
    while j < 256
      invariant 0 <= j <= 256 && forall i :: 0 <= i < j ==> tab[i] == Steps(i, 8)
    {
      var v: nat := j;
      var k := 0;
      while k < 8
        invariant 0 <= k <= 8 && Steps(v, 8 - k) == Steps(j, 8) && v < Pow2(32)
        modifies {}
      {
        StepBound(v);
        StepsNext(v, 8 - k);
        v := if v % 2 == 1 then Xor(POLY, v / 2) else v / 2;
        k := k + 1;
      }
      StepsNone(v);
      tab[j] := v;
      j := j + 1;
    }
  }

  /** df_crc32. */
  method Crc32(p: seq<byte>) returns (r: uint32)
    ensures r == Crc(p)
  {
    hide Xor, Steps, Mask, Shr;
    var tab := MakeTable();
    Word32();
    var c: uint32 := 0xffff_ffff;
    var i := 0;
    while i < |p|
      invariant 0 <= i <= |p| && c == Register(p[..i])
      modifies {}
    {
      assert p[..i + 1][..i] == p[..i];
      ByteStep(c, p[i]);
      XorBound(c, p[i], 32);
      StepsBound(Xor(c, p[i]), 8);
      MaskByte(Xor(c, p[i]));
      c := Xor(tab[Mask(Xor(c, p[i]), 8)], Shr(c, 8));
      i := i + 1;
    }
    assert p[..i] == p;
    XorBound(c, 0xffff_ffff, 32);
    r := Xor(c, 0xffff_ffff);
  }

  lemma {:induction false} MaskByte(v: nat)
    ensures 0 <= Mask(v, 8) < 256
  {
    Pow2Values();
  }

  // ---- what the CRC catches ----

  lemma {:induction false} XorCancel(v: nat, x: nat, y: nat)
    requires Xor(v, x) == Xor(v, y)
    ensures x == y
  {
    hide Xor;
    XorAssoc(v, v, x);
    XorAssoc(v, v, y);
    XorSame(v);
    ZeroXor(x);
    ZeroXor(y);
  }

  lemma {:induction false} ShrOne(v: nat, n: nat)
    requires Pow2(n) <= v < 2 * Pow2(n)
    ensures Shr(v, n) == 1
  {
    if n != 0 { ShrOne(v / 2, n - 1); }
  }

  /** The bit shifted out decides the top bit shifted in. */
  lemma {:induction false} TopBit(c: nat)
    requires c < Pow2(32)
    ensures Shr(Step(c), 31) == c % 2
  {
    hide Xor;
    var h := c / 2;
    assert h < Pow2(31);
    ShrBound(h, 31, 0);
    assert Pow2(0) == 1;
    ShrXor(POLY, h, 31);
    Word32();
    ShrOne(POLY, 31);
    XorZero(1);
  }

  lemma {:induction false} StepInjective(c: nat, d: nat)
    requires c < Pow2(32) && d < Pow2(32) && Step(c) == Step(d)
    ensures c == d
  {
    hide Xor, Shr, Pow2;
    TopBit(c);
    TopBit(d);
    if c % 2 == 1 { XorCancel(POLY, c / 2, d / 2); }
  }

  lemma {:induction false} StepsInjective(c: nat, d: nat, n: nat)
    requires c < Pow2(32) && d < Pow2(32) && Steps(c, n) == Steps(d, n)
    ensures c == d
    decreases n
  {
    hide Step, Pow2;
    if n != 0 {
      StepBound(c);
      StepBound(d);
      StepsInjective(Step(c), Step(d), n - 1);
      StepInjective(c, d);
    }
  }

  lemma {:induction false} RegisterBound(s: seq<byte>)
    ensures Register(s) < Pow2(32)
  {
    hide Xor, Steps;
    Word32();
    if s != [] {
      var r, b := Register(s[..|s| - 1]), s[|s| - 1];
      RegisterBound(s[..|s| - 1]);
      XorBound(r, b, 32);
      StepsBound(Xor(r, b), 8);
    }
  }

  /** From different registers, the same byte leads to different registers; so do different bytes from the same. */
  lemma {:induction false} ByteInjective(r: nat, b: byte, q: nat, c: byte)
    requires r < Pow2(32) && q < Pow2(32) && Steps(Xor(r, b), 8) == Steps(Xor(q, c), 8)
    ensures b == c ==> r == q
    ensures r == q ==> b == c
  {
    hide Xor, Steps, Pow2;
    Word32();
    XorBound(r, b, 32);
    XorBound(q, c, 32);
    StepsInjective(Xor(r, b), Xor(q, c), 8);
    XorComm(r, b);
    XorComm(q, c);
    if b == c { XorCancel(b, r, q); }
    if r == q { XorCancel(r, b, c); }
  }

  /** No change of a single byte goes unnoticed. */
  lemma {:induction false} CrcDetects(s: seq<byte>, i: nat, b: byte)
    requires i < |s| && b != s[i]
    ensures Crc(s[i := b]) != Crc(s)
  {
    hide Xor;
    RegisterDetects(s, i, b);
    var r, q := Register(s), Register(s[i := b]);
    XorComm(r, 0xffff_ffff);
    XorComm(q, 0xffff_ffff);
    if Crc(s[i := b]) == Crc(s) { XorCancel(0xffff_ffff, r, q); }
  }

  lemma {:induction false} RegisterDetects(s: seq<byte>, i: nat, b: byte)
    requires i < |s| && b != s[i]
    ensures Register(s[i := b]) != Register(s)
  {
    hide Xor, Steps, Pow2;
    var k, t := |s| - 1, s[i := b];
    RegisterBound(s[..k]);
    RegisterBound(t[..k]);
    if i < k {
      assert t[..k] == s[..k][i := b];
      RegisterDetects(s[..k], i, b);
    } else {
      assert t[..k] == s[..k];
    }
    if Register(t) == Register(s) { ByteInjective(Register(t[..k]), t[k], Register(s[..k]), s[k]); }
  }

  // ---- Adler-32 ----

  const MOD: nat := 65521

  /** One more than the sum of the bytes, and the sum of all those sums, not yet reduced. */
  function SumA(s: seq<byte>): nat {
    if s == [] then 1 else SumA(s[..|s| - 1]) + s[|s| - 1]
  }

  function SumB(s: seq<byte>): nat {
    if s == [] then 0 else SumB(s[..|s| - 1]) + SumA(s)
  }

  lemma {:induction false} ModAdd(x: nat, y: nat)
    ensures (x % MOD + y) % MOD == (x + y) % MOD && (x + y % MOD) % MOD == (x + y) % MOD
  {
    var q, r := x / MOD, y / MOD;
    assert x + y == MOD * q + (x % MOD + y);
    ModShift(x % MOD + y, q);
    ModShift(x + y % MOD, r);
  }

  lemma {:induction false} ModShift(x: nat, q: nat)
    ensures (MOD * q + x) % MOD == x % MOD
  {
    if q != 0 {
      ModShift(x, q - 1);
      assert MOD * q + x == MOD * (q - 1) + x + MOD;
    }
  }

  /** The two halves of Adler-32, reduced at every byte. */
  method Adler(s: seq<byte>) returns (a: nat, b: nat)
    ensures a == SumA(s) % 65521 && b == SumB(s) % 65521
  {
    a, b := 1, 0;
    var i := 0;
    while i < |s|
      invariant 0 <= i <= |s| && a == SumA(s[..i]) % MOD && b == SumB(s[..i]) % MOD
    {
      assert s[..i + 1][..i] == s[..i];
      ModAdd(SumA(s[..i]), s[i]);
      ModAdd(SumB(s[..i]), a + s[i]);
      ModAdd(SumB(s[..i]), SumA(s[..i + 1]));
      a := (a + s[i]) % MOD;
      ModAdd(SumB(s[..i]), a);
      b := (b + a) % MOD;
      i := i + 1;
    }
    assert s[..i] == s;
  }
}
