/** df_rev and df_codes: the code words of a list of lengths, each stored reversed so that
    writing it least significant bit first sends it most significant bit first. */
module CodeWords {
  import opened Bits
  import opened Canonical

  lemma {:induction false} HighCons(v: nat, n: nat)
    ensures High(v, n + 1) == [Shr(v, n) % 2 == 1] + High(v, n)
  {
    if n != 0 {
      HighCons(v / 2, n - 1);
      assert High(v, n + 1) == ([Shr(v / 2, n - 1) % 2 == 1] + High(v / 2, n - 1)) + [v % 2 == 1];
    }
  }

  lemma {:induction false} ShrNext(v: nat, n: nat)
    ensures Shr(v, n + 1) == Shr(v, n) / 2
  {
    if n != 0 { ShrNext(v / 2, n - 1); }
  }

  /** df_rev: reverse the low `n` bits. */
  method Rev(v: nat, n: nat) returns (r: nat)
    ensures r < Pow2(n) && Low(r, n) == High(v, n)
  {
    r := 0;
    var w, k := v, 0;
    while k < n
      invariant 0 <= k <= n && w == Shr(v, k)
      invariant r < Pow2(k) && Low(r, k) == High(v, k)
    {
      HighCons(v, k);
      ShrNext(v, k);
      ghost var r0 := r;
      r := 2 * r + w % 2;
      assert r / 2 == r0 && Low(r, k + 1) == [r % 2 == 1] + Low(r0, k);
      w := w / 2;
      k := k + 1;
    }
  }

  /** Bits above the sixteenth do not reach a code of sixteen bits or fewer. */
  lemma {:induction false} HighWrap(v: nat, k: nat, m: nat, n: nat)
    requires n <= m
    ensures High(v + k * Pow2(m), n) == High(v, n)
  {
    if n != 0 {
      assert k * Pow2(m) == 2 * (k * Pow2(m - 1));
      assert (v + k * Pow2(m)) / 2 == v / 2 + k * Pow2(m - 1);
      HighWrap(v / 2, k, m - 1, n - 1);
    }
  }

  lemma {:induction false} High16(v: nat, n: nat)
    requires n <= 16
    ensures High(v % 0x1_0000, n) == High(v, n)
  {
    Pow2Values();
    HighWrap(v % 0x1_0000, v / 0x1_0000, 16, n);
  }

  /** Sixteen-bit arithmetic: wrapping early or late is the same. */
  function U16(v: nat): (r: nat)
    ensures r < 0x1_0000
  {
    v % 0x1_0000
  }

  lemma {:induction false} WrapShift(x: nat, q: nat)
    ensures U16(x + 0x1_0000 * q) == U16(x)
  {
    if q != 0 {
      WrapShift(x, q - 1);
      assert x + 0x1_0000 * q == x + 0x1_0000 * (q - 1) + 0x1_0000;
    }
  }

  lemma {:induction false} WrapAdd(a: nat, c: nat)
    ensures U16(U16(a) + c) == U16(a + c)
    ensures U16((U16(a) + c) * 2) == U16(2 * (a + c))
  {
    var q, r := a / 0x1_0000, U16(a);
    assert a == r + 0x1_0000 * q;
    hide U16;
    WrapShift(r + c, q);
    WrapShift((r + c) * 2, 2 * q);
  }

  /** What df_codes stores for symbol `i`. */
  ghost predicate StoredCode(lens: seq<nat>, i: nat, c: nat)
    requires i < |lens|
  {
    if lens[i] == 0 then c == 0
    else c < Pow2(lens[i]) && Low(c, lens[i]) == Code(lens, i)
  }

  /** cnt[l] = how many symbols have length `l`, and none at zero. */
  method CountLengths(len: array<nat>) returns (cnt: array<nat>)
    requires len.Length < 0x1_0000 && forall i :: 0 <= i < len.Length ==> len[i] <= 15
    ensures fresh(cnt) && cnt.Length == 16 && cnt[0] == 0
    ensures forall l :: 1 <= l < 16 ==> cnt[l] == Count(len[..], l)
  {
    cnt := new nat[16](_ => 0);
    var i := 0;
    while i < len.Length
      invariant 0 <= i <= len.Length
      invariant forall l :: 0 <= l < 16 ==> cnt[l] == Count(len[..i], l)
    {
      assert len[..i + 1] == len[..i] + [len[i]];
      forall l | 0 <= l < 16
        ensures Count(len[..i + 1], l) == Count(len[..i], l) + (if len[i] == l then 1 else 0)
      {
        CountSnoc(len[..i], len[i], l);
      }
      cnt[len[i]] := (cnt[len[i]] + 1) % 0x1_0000;
      i := i + 1;
    }
    assert len[..i] == len[..];
    cnt[0] := 0;
  }

  /** next[l] = the first code word of length `l`, in sixteen bits. */
  method FirstCodes(cnt: array<nat>, ghost lens: seq<nat>) returns (next: array<nat>)
    requires cnt.Length == 16 && cnt[0] == 0
    requires forall l :: 1 <= l < 16 ==> cnt[l] == Count(lens, l)
    ensures fresh(next) && next.Length == 16
    ensures forall l :: 1 <= l < 16 ==> next[l] == U16(2 * Filled(lens, l - 1))
  {
    next := new nat[16](_ => 0);
    next[0] := 0;
    var bits := 1;
    while bits < 16
      invariant 1 <= bits <= 16 && next[0] == 0
      invariant forall l :: 1 <= l < bits ==> next[l] == U16(2 * Filled(lens, l - 1))
    {
      if bits > 1 { WrapAdd(2 * Filled(lens, bits - 2), cnt[bits - 1]); }
      next[bits] := U16((next[bits - 1] + cnt[bits - 1]) * 2);
      bits := bits + 1;
    }
  }

  /** next[l] once the symbols before `i` have their codes. */
  ghost function NextVal(lens: seq<nat>, i: nat, l: nat): nat
    requires i <= |lens| && l >= 1
  {
    U16(2 * Filled(lens, l - 1) + Count(lens[..i], l))
  }

  lemma {:induction false} CodeUnwrapped(v: nat, c: nat, n: nat)
    requires n <= 15 && c < Pow2(n) && Low(c, n) == High(U16(v), n)
    ensures U16(c) == c && Low(c, n) == High(v, n)
  {
    Pow2Mono(n, 15);
    Pow2Values();
    High16(v, n);
  }

  lemma {:induction false} CodeFits(lens: seq<nat>, i: nat, c: nat)
    requires i < |lens| && 1 <= lens[i] <= 15
    requires c < Pow2(lens[i]) && Low(c, lens[i]) == High(U16(CodeVal(lens, i)), lens[i])
    ensures U16(c) == c && StoredCode(lens, i, c)
  {
    CodeUnwrapped(CodeVal(lens, i), c, lens[i]);
  }

  lemma {:induction false} NextStep(lens: seq<nat>, i: nat, l: nat)
    requires i < |lens| && l >= 1
    ensures NextVal(lens, i + 1, l) == if lens[i] == l then U16(NextVal(lens, i, l) + 1) else NextVal(lens, i, l)
  {
    assert lens[..i + 1] == lens[..i] + [lens[i]];
    CountSnoc(lens[..i], lens[i], l);
    WrapAdd(2 * Filled(lens, l - 1) + Count(lens[..i], l), 1);
  }

  lemma {:induction false} NextIsCode(lens: seq<nat>, i: nat)
    requires i < |lens| && lens[i] >= 1
    ensures NextVal(lens, i, lens[i]) == U16(CodeVal(lens, i))
  {
  }

  lemma {:induction false} NextStart(lens: seq<nat>, l: nat)
    requires l >= 1
    ensures NextVal(lens, 0, l) == U16(2 * Filled(lens, l - 1))
  {
    assert lens[..0] == [];
  }

  /** One symbol gets its code: the next of its length, reversed. */
  method CodeOne(next: array<nat>, code: array<nat>, l: nat, i: nat, ghost lens: seq<nat>)
    requires next != code && next.Length == 16 && i < |lens| == code.Length && l == lens[i] <= 15
    requires forall k :: 1 <= k < 16 ==> next[k] == NextVal(lens, i, k)
    modifies next, code
    ensures forall k :: 1 <= k < 16 ==> next[k] == NextVal(lens, i + 1, k)
    ensures StoredCode(lens, i, code[i])
    ensures forall j :: 0 <= j < code.Length && j != i ==> code[j] == old(code[j])
  {
    forall k | 1 <= k < 16
      ensures NextVal(lens, i + 1, k) == if l == k then U16(next[k] + 1) else next[k]
    {
      NextStep(lens, i, k);
    }
    if l == 0 {
      code[i] := 0;
    } else {
      var c := Rev(next[l], l);
      NextIsCode(lens, i);
      CodeFits(lens, i, c);
      code[i] := U16(c);
      next[l] := U16(next[l] + 1);
    }
  }

  /** df_codes: canonical codes from code lengths, ready to be written. */
  method Codes(len: array<nat>, code: array<nat>)
    requires len != code && len.Length == code.Length < 0x1_0000
    requires forall i :: 0 <= i < len.Length ==> len[i] <= 15
    modifies code
    ensures forall i :: 0 <= i < len.Length ==> StoredCode(len[..], i, code[i])
  {
    ghost var lens := len[..];
    var cnt := CountLengths(len);
    var next := FirstCodes(cnt, lens);
    forall l | 1 <= l < 16 ensures next[l] == NextVal(lens, 0, l) { NextStart(lens, l); }
    var i := 0;
    while i < len.Length
      modifies code, next
      invariant 0 <= i <= len.Length
      invariant forall l :: 1 <= l < 16 ==> next[l] == NextVal(lens, i, l)
      invariant forall j :: 0 <= j < i ==> StoredCode(lens, j, code[j])
    {
      CodeOne(next, code, len[i], i, lens);
      i := i + 1;
    }
  }
}
