/** The LZ77 match finder: hash chains through a wrapping window (df_hash, df_match,
    df_insert), proved to agree with a plain scan of everything before the position.

    The reasoning about chains does not depend on the hash: it is about a list `hs` giving
    the hash of each position that has three bytes left. */
module Chains {
  import opened Bits

  const WBITS: nat := 15
  const WSIZE: nat := 32768
  const HSIZE: nat := 32768
  const CHAIN: nat := 32
  const MINM: nat := 3
  const MAXM: nat := 258

  /** `(int)v`, in 32 bits. */
  function Int32(v: nat): int {
    var w := v % 0x1_0000_0000;
    if w < 0x8000_0000 then w else w - 0x1_0000_0000
  }

  lemma {:induction false} Int32Small(v: nat)
    requires v < 0x8000_0000
    ensures Int32(v) == v
  {
  }

  function Hash(a: nat, b: nat, c: nat): (h: nat)
    ensures h < HSIZE
  {
    Xor(Xor(a * 1024, b * 32), c) % HSIZE
  }

  function HashAt(x: seq<byte>, p: nat): (h: nat)
    requires p + MINM <= |x|
    ensures h < HSIZE
  {
    Hash(x[p], x[p + 1], x[p + 2])
  }

  /** The hash of every position with three bytes left. */
  ghost predicate Hashes(x: seq<byte>, hs: seq<nat>) {
    && |hs| == (if |x| < MINM then 0 else |x| - MINM + 1)
    && forall p :: 0 <= p < |hs| ==> hs[p] == HashAt(x, p)
  }

  ghost function HashList(x: seq<byte>, n: nat): (hs: seq<nat>)
    requires n + MINM <= |x| + 1
    ensures |hs| == n && forall p :: 0 <= p < n ==> hs[p] == HashAt(x, p)
  {
    if n == 0 then [] else HashList(x, n - 1) + [HashAt(x, n - 1)]
  }

  predicate Has(hs: seq<nat>, p: nat, h: nat) {
    p < |hs| && hs[p] == h
  }

  /** The last position before `q` with hash `h`, or -1. */
  ghost function Prior(hs: seq<nat>, q: nat, h: nat): (p: int)
    ensures -1 <= p < q
    ensures p >= 0 ==> Has(hs, p, h)
    ensures forall r: nat :: p < r < q ==> !Has(hs, r, h)
  {
    if q == 0 then -1
    else if Has(hs, q - 1, h) then q - 1
    else Prior(hs, q - 1, h)
  }

  /** How many positions from `a` up to but not including `b` have hash `h`. */
  ghost function Between(hs: seq<nat>, a: nat, b: nat, h: nat): nat
    decreases b - a
  {
    if a >= b then 0
    else (if Has(hs, a, h) then 1 else 0) + Between(hs, a + 1, b, h)
  }

  lemma {:induction false} BetweenSplit(hs: seq<nat>, a: nat, m: nat, b: nat, h: nat)
    requires a <= m <= b
    ensures Between(hs, a, b, h) == Between(hs, a, m, h) + Between(hs, m, b, h)
    decreases m - a
  {
    if a < m { BetweenSplit(hs, a + 1, m, b, h); }
  }

  lemma {:induction false} BetweenNone(hs: seq<nat>, a: nat, b: nat, h: nat)
    requires forall r :: a <= r < b ==> !Has(hs, r, h)
    ensures Between(hs, a, b, h) == 0
    decreases b - a
  {
    if a < b { BetweenNone(hs, a + 1, b, h); }
  }

  /** Stepping to the next position on the chain adds exactly one to the count. */
  lemma {:induction false} BetweenStep(hs: seq<nat>, cur: nat, q: nat, pos: nat, h: nat)
    requires cur < q <= pos && Has(hs, cur, h)
    requires forall r: nat :: cur < r < q ==> !Has(hs, r, h)
    ensures Between(hs, cur, pos, h) == 1 + Between(hs, q, pos, h)
  {
    BetweenSplit(hs, cur + 1, q, pos, h);
    BetweenNone(hs, cur + 1, q, h);
  }

  // ---- what a match is ----

  function Limit(x: seq<byte>, pos: nat): nat
    requires pos <= |x|
  {
    if |x| - pos > MAXM then MAXM else |x| - pos
  }

  predicate Same(x: seq<byte>, p: nat, pos: nat, k: nat) {
    p + k < |x| && pos + k < |x| && x[p + k] == x[pos + k]
  }

  /** How many bytes agree at `p` and `pos`, from the `l`th on and up to the limit. */
  ghost function MatchFrom(x: seq<byte>, p: nat, pos: nat, l: nat): (r: nat)
    requires p <= pos && pos <= |x| && l <= Limit(x, pos)
    ensures l <= r <= Limit(x, pos)
    ensures forall k :: l <= k < r ==> Same(x, p, pos, k)
    ensures r < Limit(x, pos) ==> !Same(x, p, pos, r)
    decreases Limit(x, pos) - l
  {
    if l < Limit(x, pos) && Same(x, p, pos, l) then MatchFrom(x, p, pos, l + 1) else l
  }

  /** The length of the match at `p`: at most 258, and at most what is left of the input. */
  ghost function MatchLen(x: seq<byte>, p: nat, pos: nat): (r: nat)
    requires p <= pos && pos <= |x|
    ensures r <= Limit(x, pos)
    ensures forall k :: 0 <= k < r ==> Same(x, p, pos, k)
    ensures r < Limit(x, pos) ==> !Same(x, p, pos, r)
  {
    MatchFrom(x, p, pos, 0)
  }

  /** Among the 32 most recent earlier positions with the hash of `pos`, and within the window. */
  ghost predicate Candidate(hs: seq<nat>, p: nat, pos: nat) {
    && p < pos < |hs| && Has(hs, p, hs[pos])
    && pos - p <= WSIZE
    && Between(hs, p + 1, pos, hs[pos]) < CHAIN
  }

  /** What a plain scan of the candidates would choose: the longest match of three bytes or
      more, the nearest of equals; length 0 when there is none. */
  ghost predicate BestMatch(x: seq<byte>, hs: seq<nat>, pos: nat, len: nat, dist: nat)
    requires pos <= |x|
  {
    if len == 0 then
      forall p: nat :: Candidate(hs, p, pos) ==> MatchLen(x, p, pos) < MINM
    else
      && MINM <= len <= MAXM && 1 <= dist <= pos && dist <= WSIZE
      && Candidate(hs, pos - dist, pos) && MatchLen(x, pos - dist, pos) == len
      && forall p: nat :: Candidate(hs, p, pos) ==>
           MatchLen(x, p, pos) <= len && (MatchLen(x, p, pos) == len ==> p <= pos - dist)
  }

  /** A plain scan over every position before `n`, later ones winning ties. */
  ghost function Scan(x: seq<byte>, hs: seq<nat>, pos: nat, n: nat): (nat, nat)
    requires n <= pos <= |x|
  {
    if n == 0 then (0, 0)
    else
      var (l, d) := Scan(x, hs, pos, n - 1);
      if Candidate(hs, n - 1, pos) && MatchLen(x, n - 1, pos) >= MINM && MatchLen(x, n - 1, pos) >= l
      then (MatchLen(x, n - 1, pos), pos - (n - 1))
      else (l, d)
  }

  lemma {:induction false} ScanSees(x: seq<byte>, hs: seq<nat>, pos: nat, n: nat, p: nat)
    requires p < n <= pos <= |x| && Candidate(hs, p, pos) && MatchLen(x, p, pos) >= MINM
    ensures var (l, d) := Scan(x, hs, pos, n);
            l >= MatchLen(x, p, pos) && 1 <= d <= pos && (l == MatchLen(x, p, pos) ==> p <= pos - d)
  {
    hide Candidate, MatchLen;
    ScanFinds(x, hs, pos, n - 1);
    if p < n - 1 { ScanSees(x, hs, pos, n - 1, p); }
  }

  lemma {:induction false} ScanFinds(x: seq<byte>, hs: seq<nat>, pos: nat, n: nat)
    requires n <= pos <= |x|
    ensures var (l, d) := Scan(x, hs, pos, n);
            if l == 0 then d == 0
            else l >= MINM && 1 <= d <= pos && pos - d < n && Candidate(hs, pos - d, pos) && MatchLen(x, pos - d, pos) == l
  {
    hide Candidate, MatchLen;
    if n != 0 { ScanFinds(x, hs, pos, n - 1); }
  }

  /** The best match is what the plain scan of every earlier position finds, and nothing else is. */
  lemma {:induction false} BestIsScan(x: seq<byte>, hs: seq<nat>, pos: nat, len: nat, dist: nat)
    requires pos <= |x|
    ensures BestMatch(x, hs, pos, len, dist) ==> Scan(x, hs, pos, pos) == (len, if len == 0 then 0 else dist)
    ensures BestMatch(x, hs, pos, Scan(x, hs, pos, pos).0, Scan(x, hs, pos, pos).1)
  {
    hide Scan, MatchLen;
    var (l, d) := Scan(x, hs, pos, pos);
    ScanFinds(x, hs, pos, pos);
    forall p: nat | Candidate(hs, p, pos)
      ensures MatchLen(x, p, pos) >= MINM ==> MatchLen(x, p, pos) <= l && (MatchLen(x, p, pos) == l ==> p <= pos - d)
    {
      if MatchLen(x, p, pos) >= MINM { ScanSees(x, hs, pos, pos, p); }
    }
    if l > 0 { MatchFits(x, pos - d, pos); }
  }

  lemma {:induction false} MatchFits(x: seq<byte>, p: nat, pos: nat)
    requires p <= pos <= |x|
    ensures MatchLen(x, p, pos) <= MAXM
  {
  }

  // ---- the search ----

  /** Position `p` is no better than a match of length `best` at distance `bestd`. */
  ghost predicate NoBetter(x: seq<byte>, p: nat, pos: nat, best: nat, bestd: nat)
    requires p <= pos <= |x|
  {
    MatchLen(x, p, pos) <= best && (MatchLen(x, p, pos) == best > 0 ==> p <= pos - bestd)
  }

  /** Everything at `q` or later with the right hash has been looked at; `best` is what they gave. */
  ghost predicate Looked(x: seq<byte>, hs: seq<nat>, pos: nat, q: nat, best: nat, bestd: nat)
    requires q <= pos < |hs| && pos <= |x|
  {
    && (forall p: nat :: q <= p < pos && Has(hs, p, hs[pos]) ==> NoBetter(x, p, pos, best, bestd))
    && (best > 0 ==>
          && 1 <= bestd <= pos && q <= pos - bestd
          && Candidate(hs, pos - bestd, pos) && MatchLen(x, pos - bestd, pos) == best)
  }

  /** No candidate before `q` could change the answer. */
  ghost predicate Finished(x: seq<byte>, hs: seq<nat>, pos: nat, q: nat, best: nat)
    requires q <= pos < |hs| && pos <= |x|
  {
    best == Limit(x, pos) || forall p: nat :: p < q ==> !Candidate(hs, p, pos)
  }

  lemma {:induction false} LookedAll(x: seq<byte>, hs: seq<nat>, pos: nat, q: nat, best: nat, bestd: nat)
    requires q <= pos < |hs| && pos <= |x|
    requires Looked(x, hs, pos, q, best, bestd) && Finished(x, hs, pos, q, best)
    ensures BestMatch(x, hs, pos, if best < MINM then 0 else best, bestd)
  {
    forall p: nat | Candidate(hs, p, pos)
      ensures MatchLen(x, p, pos) <= best
      ensures MatchLen(x, p, pos) == best > 0 ==> p <= pos - bestd
    {
      if q <= p { assert NoBetter(x, p, pos, best, bestd); }
    }
  }

  /** One more position looked at: the chain's next. */
  lemma {:induction false} LookOne(x: seq<byte>, hs: seq<nat>, pos: nat, q: nat, best: nat, bestd: nat, cur: nat, chain: nat)
    requires q <= pos < |hs| && pos <= |x|
    requires cur == Prior(hs, q, hs[pos]) && pos - cur <= WSIZE
    requires Looked(x, hs, pos, q, best, bestd) && chain < CHAIN
    requires Between(hs, q, pos, hs[pos]) == CHAIN - 1 - chain
    ensures var l := MatchLen(x, cur, pos);
            if l > best then Looked(x, hs, pos, cur, l, pos - cur) else Looked(x, hs, pos, cur, best, bestd)
    ensures Between(hs, cur, pos, hs[pos]) == CHAIN - chain
  {
    var h, l := hs[pos], MatchLen(x, cur, pos);
    BetweenStep(hs, cur, q, pos, h);
    CandidateNext(hs, cur, q, pos, chain);
    var best', bestd' := if l > best then l else best, if l > best then pos - cur else bestd;
    forall p: nat | cur <= p < pos && Has(hs, p, h)
      ensures NoBetter(x, p, pos, best', bestd')
    {
      if q <= p { assert NoBetter(x, p, pos, best, bestd); } else { assert p == cur; }
    }
  }

  lemma {:induction false} CandidateNext(hs: seq<nat>, cur: nat, q: nat, pos: nat, chain: nat)
    requires q <= pos < |hs| && cur == Prior(hs, q, hs[pos]) && pos - cur <= WSIZE && chain < CHAIN
    requires Between(hs, q, pos, hs[pos]) == CHAIN - 1 - chain
    ensures Candidate(hs, cur, pos)
  {
    BetweenSplit(hs, cur + 1, q, pos, hs[pos]);
    BetweenNone(hs, cur + 1, q, hs[pos]);
  }

  /** The chain has run out of budget, of positions, or of window. */
  lemma {:induction false} ChainEnds(x: seq<byte>, hs: seq<nat>, pos: nat, q: nat, chain: nat, best: nat)
    requires q <= pos < |hs| && pos <= |x| && chain <= CHAIN
    requires Between(hs, q, pos, hs[pos]) == CHAIN - chain
    requires chain == 0 || Prior(hs, q, hs[pos]) < 0 || pos - Prior(hs, q, hs[pos]) > WSIZE
    ensures Finished(x, hs, pos, q, best)
  {
    forall p: nat | p < q
      ensures !Candidate(hs, p, pos)
    {
      if chain == 0 { BetweenSplit(hs, p + 1, q, pos, hs[pos]); }
    }
  }

  // ---- the arrays ----

  /** Two positions less than a window apart differ in their low bits. */
  lemma {:induction false} MaskDiffers(p: nat, q: nat, n: nat)
    requires p < q < p + Pow2(n)
    ensures Mask(p, n) != Mask(q, n)
  {
    if n != 0 && p % 2 == q % 2 {
      MaskDiffers(p / 2, q / 2, n - 1);
    }
  }

  /** head[h] is the last position before `pos` with hash `h`. */
  ghost predicate Heads(hs: seq<nat>, head: seq<int>, pos: nat) {
    |head| == HSIZE && forall h :: 0 <= h < HSIZE ==> head[h] == Prior(hs, pos, h)
  }

  /** Position `p`'s slot leads to the position before it with the same hash. */
  ghost predicate Link(hs: seq<nat>, prev: seq<int>, n: nat, p: nat)
    requires p < |hs| && |prev| == Pow2(n)
  {
    prev[Mask(p, n)] == Prior(hs, p, hs[p])
  }

  /** prev links every position the window still holds. */
  ghost predicate Links(hs: seq<nat>, prev: seq<int>, n: nat, pos: nat) {
    && |prev| == Pow2(n)
    && forall p: nat :: p < pos && pos - p <= Pow2(n) && p < |hs| ==> Link(hs, prev, n, p)
  }

  lemma {:induction false} InsertHead(hs: seq<nat>, head: seq<int>, pos: nat)
    requires Heads(hs, head, pos) && pos < |hs| && hs[pos] < HSIZE
    ensures Heads(hs, head[hs[pos] := pos], pos + 1)
  {
  }

  /** The slot overwritten belonged to a position that has just left the window. */
  lemma {:induction false} InsertLink(hs: seq<nat>, prev: seq<int>, n: nat, pos: nat)
    requires Links(hs, prev, n, pos) && pos < |hs|
    ensures Links(hs, prev[Mask(pos, n) := Prior(hs, pos, hs[pos])], n, pos + 1)
  {
    var prev' := prev[Mask(pos, n) := Prior(hs, pos, hs[pos])];
    forall p: nat | p < pos + 1 && pos + 1 - p <= Pow2(n) && p < |hs|
      ensures Link(hs, prev', n, p)
    {
      if p < pos {
        assert Link(hs, prev, n, p);
        MaskDiffers(p, pos, n);
      }
    }
  }

  lemma {:induction false} InsertNothing(hs: seq<nat>, head: seq<int>, prev: seq<int>, n: nat, pos: nat)
    requires Heads(hs, head, pos) && Links(hs, prev, n, pos) && pos >= |hs|
    ensures Heads(hs, head, pos + 1) && Links(hs, prev, n, pos + 1)
  {
    forall p: nat | p < pos + 1 && pos + 1 - p <= Pow2(n) && p < |hs|
      ensures Link(hs, prev, n, p)
    {
      assert p < pos;
    }
  }

  lemma {:induction false} StartChains(hs: seq<nat>, head: seq<int>, prev: seq<int>)
    requires |head| == HSIZE && |prev| == WSIZE && forall i :: 0 <= i < HSIZE ==> head[i] == -1
    ensures Heads(hs, head, 0) && Links(hs, prev, WBITS, 0)
  {
    Pow2Values();
  }

  class Chains {
    const input: seq<byte>
    const head: array<int>
    const prev: array<int>
    ghost const hs: seq<nat>

    /** The arrays hold the chains of every position before `pos`, as far as the window remembers. */
    ghost predicate Valid(pos: nat)
      reads head, prev
    {
      && head != prev && Hashes(input, hs) && |input| < 0x8000_0000
      && Heads(hs, head[..], pos) && Links(hs, prev[..], WBITS, pos)
    }

    constructor (x: seq<byte>)
      requires |x| < 0x8000_0000
      ensures input == x && Valid(0) && fresh(head) && fresh(prev)
    {
      input := x;
      head := new int[HSIZE](_ => -1);
      prev := new int[WSIZE](_ => -1);
      hs := if |x| < MINM then [] else HashList(x, |x| - MINM + 1);
      new;
      StartChains(hs, head[..], prev[..]);
    }

    /** df_insert: note the position in its chain. */
    method Insert(pos: nat)
      requires Valid(pos) && pos < |input|
      modifies head, prev
      ensures Valid(pos + 1)
    {
      if |input| - pos < MINM {
        InsertNothing(hs, head[..], prev[..], WBITS, pos);
        return;
      }
      var h := HashAt(input, pos);
      InsertHead(hs, head[..], pos);
      InsertLink(hs, prev[..], WBITS, pos);
      Int32Small(pos);
      prev[Mask(pos, WBITS)] := head[h];
      head[h] := Int32(pos);
    }

    /** How far the bytes at `cur` and `pos` agree. */
    method Extend(cur: nat, pos: nat, left: nat) returns (l: nat)
      requires cur < pos < |input| && left == Limit(input, pos)
      ensures l == MatchLen(input, cur, pos)
    {
      l := 0;
      while l < left && input[cur + l] == input[pos + l]
        invariant 0 <= l <= left
        invariant MatchLen(input, cur, pos) == MatchFrom(input, cur, pos, l)
      {
        l := l + 1;
      }
    }

    /** The position before `cur` on its chain, which `prev` still remembers. */
    method Follow(cur: nat, pos: nat) returns (next: int)
      requires Valid(pos) && cur < pos && pos - cur <= WSIZE && cur < |hs|
      ensures next == Prior(hs, cur, hs[cur])
    {
      Pow2Values();
      assert Link(hs, prev[..], WBITS, cur);
      next := prev[Mask(cur, WBITS)];
    }

    /** One turn of the loop: the match at `cur` is measured, and kept if it is longer. */
    method Look(pos: nat, left: nat, cur: nat, best0: nat, bestd0: nat, ghost q: nat, ghost chain: nat)
      returns (best: nat, bestd: nat)
      requires pos < |input| && left == Limit(input, pos) && q <= pos < |hs|
      requires cur == Prior(hs, q, hs[pos]) && pos - cur <= WSIZE && chain < CHAIN
      requires Between(hs, q, pos, hs[pos]) == CHAIN - 1 - chain
      requires Looked(input, hs, pos, q, best0, bestd0)
      ensures Looked(input, hs, pos, cur, best, bestd) && best0 <= best <= left
      ensures Between(hs, cur, pos, hs[pos]) == CHAIN - chain
    {
      best, bestd := best0, bestd0;
      var l := Extend(cur, pos, left);
      LookOne(input, hs, pos, q, best, bestd, cur, chain);
      if l > best {
        best := l;
        bestd := pos - cur;
      }
    }

    /** Walk the chain of `pos` and keep the longest match, the first of equals. */
    method Search(pos: nat, left: nat) returns (best: nat, bestd: nat)
      requires Valid(pos) && pos < |hs| && left == Limit(input, pos)
      ensures BestMatch(input, hs, pos, if best < MINM then 0 else best, bestd)
    {
      best, bestd := 0, 0;
      ghost var q := pos;
      var chain := CHAIN;
      var cur := head[HashAt(input, pos)];
      while chain > 0 && cur >= 0
        invariant 0 <= chain <= CHAIN && 0 <= q <= pos && cur == Prior(hs, q, hs[pos])
        invariant Between(hs, q, pos, hs[pos]) == CHAIN - chain
        invariant Looked(input, hs, pos, q, best, bestd)
      {
        chain := chain - 1;
        var d := pos - cur;
        if d == 0 || d > WSIZE {
          ChainEnds(input, hs, pos, q, chain + 1, best);
          LookedAll(input, hs, pos, q, best, bestd);
          return;
        }
        best, bestd := Look(pos, left, cur, best, bestd, q, chain);
        q := cur;
        if best >= left {
          LookedAll(input, hs, pos, q, best, bestd);
          return;
        }
        cur := Follow(cur, pos);
      }
      ChainEnds(input, hs, pos, q, chain, best);
      LookedAll(input, hs, pos, q, best, bestd);
    }

    /** df_match: the longest match for the bytes at `pos`. */
    method Match(pos: nat) returns (len: nat, dist: nat)
      requires Valid(pos) && pos < |input|
      ensures BestMatch(input, hs, pos, len, dist)
    {
      len, dist := 0, 0;
      var left := |input| - pos;
      if left < MINM { return; }
      if left > MAXM { left := MAXM; }
      var best, bestd := Search(pos, left);
      if best < MINM { return; }
      len, dist := best, bestd;
    }
  }
}
