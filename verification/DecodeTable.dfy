/** inf_build: the two small arrays a canonical code is decoded with. */
module DecodeTable {
  import opened Bits
  import opened Canonical

  /** Where the table keeps the symbol of length `l` and rank `k`. */
  ghost function Slot(lens: seq<nat>, l: nat, k: nat): nat {
    Index(lens, l) + k
  }

  /** Symbols sorted by length, and among one length by value. */
  ghost predicate Sorted(lens: seq<nat>, sym: seq<nat>, i: nat)
    requires i <= |lens|
  {
    forall l, k :: 1 <= l < 16 && 0 <= k < Count(lens[..i], l) ==>
      Slot(lens, l, k) < |sym| && RankedAt(lens, sym, l, k, i)
  }

  ghost predicate RankedAt(lens: seq<nat>, sym: seq<nat>, l: nat, k: nat, i: nat)
    requires i <= |lens| && Slot(lens, l, k) < |sym|
  {
    var s := sym[Slot(lens, l, k)];
    s < i && lens[s] == l && Rank(lens, s) == k
  }

  class Huf {
    const cnt: array<nat>
    const sym: array<nat>

    constructor (n: nat)
      ensures cnt.Length == 16 && sym.Length == n && fresh(cnt) && fresh(sym) && cnt != sym
    {
      cnt := new nat[16](_ => 0);
      sym := new nat[n](_ => 0);
    }

    /** The arrays decode the canonical code of `lens`. */
    ghost predicate Table(lens: seq<nat>)
      reads cnt, sym
    {
      && cnt.Length == 16
      && (forall l :: 1 <= l < 16 ==> cnt[l] == Count(lens, l))
      && Sorted(lens, sym[..], |lens|)
    }

    method CountLens(lens: seq<nat>)
      requires cnt.Length == 16 && forall i :: 0 <= i < |lens| ==> lens[i] <= 15
      modifies cnt
      ensures forall l :: 0 <= l < 16 ==> cnt[l] == Count(lens, l)
    {
      var i := 0;
      while i < 16
        invariant 0 <= i <= 16 && forall l :: 0 <= l < i ==> cnt[l] == 0
      {
        cnt[i] := 0;
        i := i + 1;
      }
      i := 0;
      while i < |lens|
        invariant 0 <= i <= |lens|
        invariant forall l :: 0 <= l < 16 ==> cnt[l] == Count(lens[..i], l)
      {
        forall l | 0 <= l < 16
          ensures Count(lens[..i + 1], l) == Count(lens[..i], l) + (if lens[i] == l then 1 else 0)
        {
          assert lens[..i + 1] == lens[..i] + [lens[i]];
          CountSnoc(lens[..i], lens[i], l);
        }
        cnt[lens[i]] := cnt[lens[i]] + 1;
        i := i + 1;
      }
      assert lens[..i] == lens;
    }

    /** How many 15-bit patterns are left over, or -1 when the lengths ask for more than there are. */
    method LeftOver(ghost lens: seq<nat>) returns (left: int)
      requires cnt.Length == 16 && forall l :: 0 <= l < 16 ==> cnt[l] == Count(lens, l)
      requires forall i :: 0 <= i < |lens| ==> lens[i] <= 15
      ensures left == if Fits(lens) then Pow2(15) - Filled(lens, 15) else -1
    {
      left := 1;
      var i := 1;
      while i < 16
        invariant 1 <= i <= 16
        invariant left == Pow2(i - 1) - Filled(lens, i - 1) >= 0
      {
        left := left * 2 - cnt[i];
        assert left == Pow2(i) - Filled(lens, i);
        if left < 0 {
          if Fits(lens) { FitsBelow(lens, i); }
          return -1;
        }
        i := i + 1;
      }
    }

    method Offsets(ghost lens: seq<nat>) returns (offs: array<nat>)
      requires cnt.Length == 16 && forall l :: 0 <= l < 16 ==> cnt[l] == Count(lens, l)
      ensures fresh(offs) && offs.Length == 16
      ensures forall l :: 1 <= l < 16 ==> offs[l] == Index(lens, l)
    {
      offs := new nat[16](_ => 0);
      offs[1] := 0;
      var i := 1;
      while i < 15
        invariant 1 <= i <= 15
        invariant forall l :: 1 <= l <= i ==> offs[l] == Index(lens, l)
      {
        offs[i + 1] := offs[i] + cnt[i];
        i := i + 1;
      }
    }

    /** One symbol goes to the next slot of its length. */
    method PlaceOne(lens: seq<nat>, offs: array<nat>, i: nat)
      requires offs.Length == 16 && offs != sym && i < |lens| <= sym.Length && lens[i] <= 15
      requires forall l :: 1 <= l < 16 ==> offs[l] == Slot(lens, l, Count(lens[..i], l))
      requires Sorted(lens, sym[..], i)
      modifies offs, sym
      ensures forall l :: 1 <= l < 16 ==> offs[l] == Slot(lens, l, Count(lens[..i + 1], l))
      ensures Sorted(lens, sym[..], i + 1)
    {
      var l := lens[i];
      ghost var sym0 := sym[..];
      forall m | 0 <= m < 16
        ensures Count(lens[..i + 1], m) == Count(lens[..i], m) + (if l == m then 1 else 0)
      {
        assert lens[..i + 1] == lens[..i] + [l];
        CountSnoc(lens[..i], l, m);
      }
      if l != 0 {
        SlotInside(lens, i);
        sym[offs[l]] := i;
        offs[l] := offs[l] + 1;
      }
      PlaceKeeps(lens, sym0, sym[..], i);
    }

    method Place(lens: seq<nat>, offs: array<nat>)
      requires offs.Length == 16 && offs != sym && |lens| <= sym.Length
      requires forall i :: 0 <= i < |lens| ==> lens[i] <= 15
      requires forall l :: 1 <= l < 16 ==> offs[l] == Index(lens, l)
      modifies offs, sym
      ensures Sorted(lens, sym[..], |lens|)
    {
      var i: nat := 0;
      while i < |lens|
        invariant 0 <= i <= |lens|
        invariant forall l :: 1 <= l < 16 ==> offs[l] == Slot(lens, l, Count(lens[..i], l))
        invariant Sorted(lens, sym[..], i)
      {
        PlaceOne(lens, offs, i);
        i := i + 1;
      }
    }

    method Build(lens: seq<nat>) returns (left: int)
      requires cnt.Length == 16 && cnt != sym && |lens| <= sym.Length
      requires forall i :: 0 <= i < |lens| ==> lens[i] <= 15
      modifies cnt, sym
      ensures Count(lens, 0) == |lens| ==> left == 0 && Table(lens)
      ensures Count(lens, 0) != |lens| && Fits(lens) ==> left == Pow2(15) - Filled(lens, 15) && Table(lens)
      ensures Count(lens, 0) != |lens| && !Fits(lens) ==> left == -1
    {
      CountLens(lens);
      if cnt[0] == |lens| {
        NoCodes(lens);
        return 0;
      }
      left := LeftOver(lens);
      if left < 0 { return -1; }
      var offs := Offsets(lens);
      Place(lens, offs);
    }
  }

  lemma {:induction false} CountPair(lens: seq<nat>, l: nat, m: nat)
    requires l != m
    ensures Count(lens, l) + Count(lens, m) <= |lens|
  {
    if lens != [] { CountPair(lens[..|lens| - 1], l, m); }
  }

  lemma {:induction false} NoCodes(lens: seq<nat>)
    requires Count(lens, 0) == |lens|
    ensures forall l :: 1 <= l ==> Count(lens, l) == 0
    ensures forall sym :: Sorted(lens, sym, |lens|)
  {
    forall l | 1 <= l ensures Count(lens, l) == 0 { CountPair(lens, 0, l); }
    assert lens[..|lens|] == lens;
  }

  /** The slot of symbol `i` is inside the table. */
  lemma {:induction false} SlotInside(lens: seq<nat>, i: nat)
    requires i < |lens| && 1 <= lens[i] <= 15
    ensures Slot(lens, lens[i], Rank(lens, i)) < |lens|
  {
    RankBelowCount(lens, i);
    IndexMono(lens, lens[i], 16);
    IndexTotal(lens, 16);
  }

  /** No earlier symbol has the slot of symbol `i`. */
  lemma {:induction false} SlotFree(lens: seq<nat>, i: nat, l: nat, k: nat)
    requires i < |lens| && 1 <= lens[i] <= 15 && l >= 1 && k < Count(lens[..i], l)
    ensures Slot(lens, l, k) != Slot(lens, lens[i], Rank(lens, i))
  {
    var m := lens[i];
    RankBelowCount(lens, i);
    CountPrefix(lens, i, l);
    if l < m { IndexMono(lens, l, m); }
    if m < l { IndexMono(lens, m, l); }
  }

  lemma {:induction false} PlaceKeeps(lens: seq<nat>, sym: seq<nat>, sym': seq<nat>, i: nat)
    requires i < |lens| <= |sym| == |sym'| && lens[i] <= 15
    requires Sorted(lens, sym, i)
    requires if lens[i] == 0 then sym' == sym
             else Slot(lens, lens[i], Rank(lens, i)) < |sym| &&
                  sym' == sym[Slot(lens, lens[i], Rank(lens, i)) := i]
    ensures Sorted(lens, sym', i + 1)
  {
    forall l: nat, k: nat | 1 <= l < 16 && k < Count(lens[..i + 1], l)
      ensures Slot(lens, l, k) < |sym'| && RankedAt(lens, sym', l, k, i + 1)
    {
      assert lens[..i + 1] == lens[..i] + [lens[i]];
      CountSnoc(lens[..i], lens[i], l);
      if k < Count(lens[..i], l) {
        assert RankedAt(lens, sym, l, k, i);
        if lens[i] != 0 { SlotFree(lens, i, l, k); }
      } else {
        assert l == lens[i] && k == Rank(lens, i);
      }
    }
  }
}
