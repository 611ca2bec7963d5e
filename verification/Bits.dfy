/** Bytes, bit strings, and the arithmetic that moves between them.

    DEFLATE packs everything least significant bit first, except a Huffman code, which
    goes most significant bit first (RFC 1951, section 3.1.1). A bit string is a
    `seq<bool>`; bit `k` of byte `b` of a stream is element `8*b + k`. */
module Bits {
  type byte = x: int | 0 <= x < 256
  type uint32 = x: int | 0 <= x < 0x1_0000_0000

  datatype Option<+T> = None | Some(value: T)

  function Pow2(n: nat): (r: nat)
    ensures r >= 1
  {
    if n == 0 then 1 else 2 * Pow2(n - 1)
  }

  /** The low `n` bits of `v`, least significant first. */
  function Low(v: nat, n: nat): (b: seq<bool>)
    ensures |b| == n
  {
    if n == 0 then [] else [v % 2 == 1] + Low(v / 2, n - 1)
  }

  /** The low `n` bits of `v`, most significant first. */
  function High(v: nat, n: nat): (b: seq<bool>)
    ensures |b| == n
  {
    if n == 0 then [] else High(v / 2, n - 1) + [v % 2 == 1]
  }

  function Bit(b: bool): nat { if b then 1 else 0 }

  /** The number a bit string denotes, least significant bit first. */
  function Val(b: seq<bool>): nat {
    if b == [] then 0 else Bit(b[0]) + 2 * Val(b[1..])
  }

  /** The bits of a byte string, in the order DEFLATE reads them. */
  function Unpack(s: seq<byte>): (b: seq<bool>)
    ensures |b| == 8 * |s|
  {
    if s == [] then [] else Unpack(s[..|s| - 1]) + Low(s[|s| - 1], 8)
  }

  lemma {:induction false} Pow2Add(m: nat, n: nat)
    ensures Pow2(m + n) == Pow2(m) * Pow2(n)
  {
    if m != 0 { Pow2Add(m - 1, n); }
  }

  lemma {:induction false} Pow2Mono(m: nat, n: nat)
    requires m <= n
    ensures Pow2(m) <= Pow2(n)
  {
    if m < n { Pow2Mono(m, n - 1); }
  }

  lemma {:induction false} Pow2Values()
    ensures Pow2(1) == 2 && Pow2(2) == 4 && Pow2(3) == 8 && Pow2(4) == 16 && Pow2(5) == 32
    ensures Pow2(6) == 64 && Pow2(7) == 128 && Pow2(8) == 256 && Pow2(9) == 512
    ensures Pow2(13) == 8192 && Pow2(14) == 16384 && Pow2(15) == 32768 && Pow2(16) == 65536
  {
    assert Pow2(4) == 16;
    assert Pow2(8) == 256;
    assert Pow2(12) == 4096;
  }

  lemma {:induction false} ValBound(b: seq<bool>)
    ensures Val(b) < Pow2(|b|)
  {
    if b != [] { ValBound(b[1..]); }
  }

  lemma {:induction false} LowVal(b: seq<bool>)
    ensures Low(Val(b), |b|) == b
  {
    if b != [] {
      LowVal(b[1..]);
      assert Val(b) / 2 == Val(b[1..]);
      assert b == [b[0]] + b[1..];
    }
  }

  lemma {:induction false} ValLow(v: nat, n: nat)
    requires v < Pow2(n)
    ensures Val(Low(v, n)) == v
  {
    if n != 0 {
      ValLow(v / 2, n - 1);
      assert Low(v, n)[1..] == Low(v / 2, n - 1);
    }
  }

  /** `Low` is the only number below `2^n` with those bits: equal bits, equal numbers. */
  lemma {:induction false} LowInjective(v: nat, w: nat, n: nat)
    requires v < Pow2(n) && w < Pow2(n) && Low(v, n) == Low(w, n)
    ensures v == w
  {
    ValLow(v, n);
    ValLow(w, n);
  }

  /** `v >> n`, `v << n`, `v & ((1 << n) - 1)` `v | w` and `v ^ w` on unsigned numbers, bit by bit. */
  function Shr(v: nat, n: nat): nat {
    if n == 0 then v else Shr(v / 2, n - 1)
  }

  function Shl(v: nat, n: nat): nat {
    if n == 0 then v else 2 * Shl(v, n - 1)
  }

  lemma {:induction false} ShlIs(v: nat, n: nat)
    ensures Shl(v, n) == v * Pow2(n)
  {
    if n != 0 {
      ShlIs(v, n - 1);
      assert v * Pow2(n) == 2 * (v * Pow2(n - 1));
    }
  }

  function Mask(v: nat, n: nat): (r: nat)
    ensures r < Pow2(n)
  {
    if n == 0 then 0 else v % 2 + 2 * Mask(v / 2, n - 1)
  }

  function Or(v: nat, w: nat): nat {
    if v == 0 then w
    else (if v % 2 == 1 || w % 2 == 1 then 1 else 0) + 2 * Or(v / 2, w / 2)
  }

  function Xor(v: nat, w: nat): nat {
    if v == 0 then w
    else (if v % 2 != w % 2 then 1 else 0) + 2 * Xor(v / 2, w / 2)
  }

  lemma {:induction false} LowMask(v: nat, n: nat)
    ensures Low(Mask(v, n), n) == Low(v, n)
  {
    if n != 0 { LowMask(v / 2, n - 1); }
  }

  lemma {:induction false} LowSplit(v: nat, m: nat, n: nat)
    ensures Low(v, m + n) == Low(v, m) + Low(Shr(v, m), n)
  {
    if m != 0 {
      LowSplit(v / 2, m - 1, n);
      assert Low(v, m + n) == [v % 2 == 1] + Low(v / 2, m - 1 + n);
    }
  }

  lemma {:induction false} ShrBound(v: nat, m: nat, n: nat)
    requires v < Pow2(m + n)
    ensures Shr(v, m) < Pow2(n)
  {
    if m != 0 { ShrBound(v / 2, m - 1, n); }
  }

  /** Or-ing a number shifted above the low `m` bits puts its bits after them. */
  lemma {:induction false} OrJoin(v: nat, m: nat, w: nat, n: nat)
    requires v < Pow2(m) && w < Pow2(n)
    ensures Low(Or(v, w * Pow2(m)), m + n) == Low(v, m) + Low(w, n)
    ensures Or(v, w * Pow2(m)) < Pow2(m + n)
  {
    if m == 0 {
      assert w * Pow2(0) == w;
    } else {
      OrJoin(v / 2, m - 1, w, n);
      assert w * Pow2(m) == 2 * (w * Pow2(m - 1));
      if v == 0 { ZeroOr(w, m); }
      assert Low(v, m) + Low(w, n) == [v % 2 == 1] + (Low(v / 2, m - 1) + Low(w, n));
    }
  }

  /** Where no bit is in both, or-ing is adding. */
  lemma {:induction false} OrAdds(v: nat, m: nat, w: nat)
    requires v < Pow2(m)
    ensures Or(v, Shl(w, m)) == v + Shl(w, m)
  {
    if m == 0 {
      assert v == 0;
    } else if v != 0 {
      OrAdds(v / 2, m - 1, w);
    }
  }

  lemma {:induction false} TwoBytes(a: byte, b: byte)
    ensures Or(a, Shl(b, 8)) == a + 256 * b
  {
    Pow2Values();
    OrAdds(a, 8, b);
    ShlIs(b, 8);
  }

  lemma {:induction false} ZeroOr(w: nat, m: nat)
    requires m >= 1
    ensures w * Pow2(m) == 2 * Or(0, w * Pow2(m - 1))
  {
    assert w * Pow2(m) == 2 * (w * Pow2(m - 1));
  }

  lemma {:induction false} UnpackSnoc(s: seq<byte>, b: byte)
    ensures Unpack(s + [b]) == Unpack(s) + Low(b, 8)
  {
    assert (s + [b])[..|s|] == s;
  }

  lemma {:induction false} UnpackNone()
    ensures Unpack([]) == []
  {
  }

  lemma {:induction false} UnpackConcat(s: seq<byte>, t: seq<byte>)
    ensures Unpack(s + t) == Unpack(s) + Unpack(t)
  {
    hide Unpack, Low;
    if t == [] {
      UnpackNone();
      assert s + t == s;
    } else {
      var n := |t| - 1;
      var b := t[n];
      UnpackConcat(s, t[..n]);
      assert s + t == (s + t[..n]) + [b] && t == t[..n] + [b];
      UnpackSnoc(s + t[..n], b);
      UnpackSnoc(t[..n], b);
    }
  }

  lemma {:induction false} UnpackAt(s: seq<byte>, i: nat)
    requires i < |s|
    ensures Unpack(s)[8 * i..8 * i + 8] == Low(s[i], 8)
  {
    assert s == s[..i] + ([s[i]] + s[i + 1..]);
    UnpackConcat(s[..i], [s[i]] + s[i + 1..]);
    UnpackConcat([s[i]], s[i + 1..]);
    assert [s[i]][..0] == [];
    assert Unpack([s[i]]) == Low(s[i], 8);
  }

  /** Word `w` stands at position `p` of `bits`: it begins what is left when `p` bits are skipped. */
  predicate At(bits: seq<bool>, p: nat, w: seq<bool>) {
    if p == 0 then w <= bits
    else bits != [] && At(bits[1..], p - 1, w)
  }

  lemma {:induction false} AtIs(bits: seq<bool>, p: nat, w: seq<bool>)
    ensures At(bits, p, w) <==> p + |w| <= |bits| && bits[p..p + |w|] == w
  {
    if p == 0 {
      assert w <= bits <==> |w| <= |bits| && bits[..|w|] == w;
    } else if bits != [] {
      AtIs(bits[1..], p - 1, w);
      if p + |w| <= |bits| { assert bits[1..][p - 1..p - 1 + |w|] == bits[p..p + |w|]; }
    }
  }

  lemma {:induction false} AtConcat(bits: seq<bool>, p: nat, v: seq<bool>, w: seq<bool>)
    ensures At(bits, p, v + w) <==> At(bits, p, v) && At(bits, p + |v|, w)
    ensures At(bits, p, v) ==> p + |v| <= |bits|
  {
    AtIs(bits, p, v + w);
    AtIs(bits, p, v);
    AtIs(bits, p + |v|, w);
    if p + |v| + |w| <= |bits| {
      var u := bits[p..p + |v| + |w|];
      assert u[..|v|] == bits[p..p + |v|] && u[|v|..] == bits[p + |v|..p + |v| + |w|];
      assert u == u[..|v|] + u[|v|..];
      assert (v + w)[..|v|] == v && (v + w)[|v|..] == w;
    }
  }

  /** The unsigned number in the `n` bits at position `p`, least significant first. */
  function Field(bits: seq<bool>, p: nat, n: nat): (v: nat)
    requires p + n <= |bits|
    ensures v < Pow2(n)
    decreases p
  {
    if p == 0 then
      ValBound(bits[..n]);
      Val(bits[..n])
    else Field(bits[1..], p - 1, n)
  }

  lemma {:induction false} FieldIs(bits: seq<bool>, p: nat, n: nat)
    requires p + n <= |bits|
    ensures Field(bits, p, n) == Val(bits[p..p + n])
    decreases p
  {
    if p != 0 {
      FieldIs(bits[1..], p - 1, n);
      assert bits[1..][p - 1..p - 1 + n] == bits[p..p + n];
    }
  }

  lemma {:induction false} FieldAt(bits: seq<bool>, p: nat, v: nat, n: nat)
    requires v < Pow2(n) && At(bits, p, Low(v, n))
    ensures p + n <= |bits| && Field(bits, p, n) == v
  {
    AtIs(bits, p, Low(v, n));
    FieldIs(bits, p, n);
    ValLow(v, n);
  }

  // ---- the bits of a list of items, one after another ----

  ghost function Cat<T>(f: T -> seq<bool>, s: seq<T>): seq<bool> {
    if s == [] then [] else Cat(f, s[..|s| - 1]) + f(s[|s| - 1])
  }

  lemma {:induction false} CatSnoc<T>(f: T -> seq<bool>, s: seq<T>, t: T)
    ensures Cat(f, s + [t]) == Cat(f, s) + f(t)
  {
    assert (s + [t])[..|s|] == s;
  }

  /** Where the list stands, each item stands after those before it. */
  lemma {:induction false} CatAt<T>(bits: seq<bool>, p: nat, f: T -> seq<bool>, s: seq<T>, n: nat)
    requires n < |s| && At(bits, p, Cat(f, s))
    ensures At(bits, p + |Cat(f, s[..n])|, f(s[n]))
    ensures p + |Cat(f, s[..n])| + |f(s[n])| <= |bits|
    ensures Cat(f, s[..n + 1]) == Cat(f, s[..n]) + f(s[n])
  {
    var k := |s| - 1;
    AtConcat(bits, p, Cat(f, s[..k]), f(s[k]));
    if n < k {
      CatAt(bits, p, f, s[..k], n);
      assert s[..k][..n] == s[..n] && s[..k][..n + 1] == s[..n + 1];
    } else {
      AtConcat(bits, p + |Cat(f, s[..k])|, f(s[k]), []);
      assert f(s[k]) + [] == f(s[k]);
      assert s[..n + 1] == s;
    }
  }
}
