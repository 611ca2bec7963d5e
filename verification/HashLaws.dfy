/** The hash of three bytes, bit by bit: the first is shifted ten places and the second five, and fifteen bits kept. */
module HashLaws {
  import opened Bits
  import opened Chains
  import CrcLaws

  lemma {:induction false} LowShifted(v: nat, k: nat, n: nat, i: nat)
    requires i < n
    ensures Low(v * Pow2(k), n)[i] == (i >= k && Low(v, n)[i - k])
  {
    if k > 0 {
      assert v * Pow2(k) == 2 * (v * Pow2(k - 1));
      if i > 0 {
        LowShifted(v, k - 1, n - 1, i - 1);
        if i >= k { CrcLaws.LowPrefix(v, n, n - 1, i - k); }
      }
    }
  }

  lemma {:induction false} LowOfRest(v: nat, n: nat)
    ensures Low(v % Pow2(n), n) == Low(v, n)
  {
    if n > 0 {
      Halves(v, Pow2(n - 1));
      LowOfRest(v / 2, n - 1);
    }
  }

  lemma {:induction false} Halves(v: nat, m: nat)
    requires m > 0
    ensures v % (2 * m) / 2 == v / 2 % m && v % (2 * m) % 2 == v % 2
  {
    var q, r := v / (2 * m), v % (2 * m);
    var h := m * q;
    assert v == 2 * h + r && v / 2 == h + r / 2 && 0 <= r / 2 < m;
    Whole(q, r / 2, m);
  }

  lemma {:induction false} Whole(q: nat, r: nat, m: nat)
    requires r < m
    ensures (m * q + r) % m == r
  {
    var x := m * q + r;
    var q' := x / m;
    assert x == m * q' + x % m;
    if q < q' { Gap(m, q, q'); } else if q' < q { Gap(m, q', q); }
  }

  lemma {:induction false} Gap(m: nat, p: nat, q: nat)
    requires p < q
    ensures m * p + m <= m * q
  {
    if p + 1 < q { Gap(m, p, q - 1); }
  }

  /** Each bit of the hash is the sum of the bits of the three bytes that reach it. */
  lemma {:induction false} HashBits(a: byte, b: byte, c: byte, i: nat)
    requires i < 15
    ensures Low(Hash(a, b, c), 15)[i] ==
            (((i >= 10 && Low(a, 15)[i - 10]) != (i >= 5 && Low(b, 15)[i - 5])) != Low(c, 15)[i])
  {
    hide Low, Xor;
    Pow2Values();
    assert Pow2(10) == 1024 by { Pow2Add(5, 5); }
    LowOfRest(Xor(Xor(a * 1024, b * 32), c), 15);
    CrcLaws.LowXor(Xor(a * 1024, b * 32), c, 15, i);
    CrcLaws.LowXor(a * 1024, b * 32, 15, i);
    LowShifted(a, 10, 15, i);
    LowShifted(b, 5, 15, i);
  }

  /** So three bytes that differ only in the last, or only in the second, have different hashes. */
  lemma {:induction false} HashSpreads(a: byte, b: byte, c: byte, d: byte)
    ensures c != d ==> Hash(a, b, c) != Hash(a, b, d) && Hash(a, c, b) != Hash(a, d, b)
  {
    if c != d {
      var k := BitApart(c, d, 8);
      CrcLaws.LowPrefix(c, 15, 8, k);
      CrcLaws.LowPrefix(d, 15, 8, k);
      HashBits(a, b, c, k);
      HashBits(a, b, d, k);
      HashBits(a, c, b, k + 5);
      HashBits(a, d, b, k + 5);
    }
  }

  lemma {:induction false} BitApart(c: nat, d: nat, n: nat) returns (k: nat)
    requires c != d && c < Pow2(n) && d < Pow2(n)
    ensures k < n && Low(c, n)[k] != Low(d, n)[k]
  {
    k := 0;
    if c % 2 == d % 2 {
      assert c / 2 != d / 2;
      k := BitApart(c / 2, d / 2, n - 1);
      k := k + 1;
    }
  }
}
