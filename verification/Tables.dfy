/** The tables both directions of RFC 1951 read (sections 3.2.5 and 3.2.7).

    The lists are the program's own. Reasoning uses the rule behind each list instead, a
    function of the index; the lemmas ending in `Table` prove that the two agree. */
module Tables {
  import opened Bits

  const ORDER: seq<nat> := [16, 17, 18, 0, 8, 7, 9, 6, 10, 5, 11, 4, 12, 3, 13, 2, 14, 1, 15]

  const LBASE: seq<nat> :=
    [3, 4, 5, 6, 7, 8, 9, 10, 11, 13, 15, 17, 19, 23, 27, 31, 35, 43, 51, 59,
     67, 83, 99, 115, 131, 163, 195, 227, 258]

  const LEXT: seq<nat> :=
    [0, 0, 0, 0, 0, 0, 0, 0, 1, 1, 1, 1, 2, 2, 2, 2, 3, 3, 3, 3, 4, 4, 4, 4, 5, 5, 5, 5, 0]

  const DBASE: seq<nat> :=
    [1, 2, 3, 4, 5, 7, 9, 13, 17, 25, 33, 49, 65, 97, 129, 193, 257, 385, 513, 769,
     1025, 1537, 2049, 3073, 4097, 6145, 8193, 12289, 16385, 24577]

  const DEXT: seq<nat> :=
    [0, 0, 0, 0, 1, 1, 2, 2, 3, 3, 4, 4, 5, 5, 6, 6, 7, 7, 8, 8, 9, 9, 10, 10, 11, 11, 12, 12, 13, 13]

  /** The code-length symbol whose length is written `i`th: the repeats, zero, then outwards from 8. */
  function Ord(i: nat): (o: nat)
    requires i < 19
    ensures o < 19
  {
    if i < 3 then 16 + i
    else if i == 3 then 0
    else if i % 2 == 0 then 6 + i / 2
    else 8 - (i - 3) / 2
  }

  /** Where symbol `s` stands in that order. */
  function Place(s: nat): (i: nat)
    requires s < 19
    ensures i < 19 && Ord(i) == s
  {
    if s >= 16 then s - 16
    else if s == 0 then 3
    else if s >= 8 then 2 * s - 12
    else 19 - 2 * s
  }

  function LExt(i: nat): (e: nat)
    ensures 4 * e <= i
  {
    if i < 8 || i == 28 then 0 else LExt(i - 4) + 1
  }

  /** Four codes on, the lengths above 3 double. */
  function LBase(i: nat): (b: nat)
    ensures b >= 3
  {
    if i < 8 then 3 + i else if i == 28 then 258 else 2 * LBase(i - 4) - 3
  }

  function DExt(i: nat): (e: nat)
    ensures 2 * e <= i
  {
    if i < 4 then 0 else DExt(i - 2) + 1
  }

  /** Two codes on, the distances above 1 double. */
  function DBase(i: nat): (b: nat)
    ensures b >= 1
  {
    if i < 4 then 1 + i else 2 * DBase(i - 2) - 1
  }

  // ---- the rules give the program's tables ----

  lemma {:induction false} OrderTable()
    ensures ORDER ==
            [Ord(0), Ord(1), Ord(2), Ord(3), Ord(4), Ord(5), Ord(6), Ord(7), Ord(8), Ord(9), Ord(10), Ord(11),
              Ord(12), Ord(13), Ord(14), Ord(15), Ord(16), Ord(17), Ord(18)]
  {
  }

  lemma {:induction false} LengthBaseTable()
    ensures LBASE ==
            [LBase(0), LBase(1), LBase(2), LBase(3), LBase(4), LBase(5), LBase(6), LBase(7), LBase(8), LBase(9),
              LBase(10), LBase(11), LBase(12), LBase(13), LBase(14), LBase(15), LBase(16),
              LBase(17), LBase(18), LBase(19), LBase(20), LBase(21), LBase(22), LBase(23),
              LBase(24), LBase(25), LBase(26), LBase(27), LBase(28)]
  {
  }

  lemma {:induction false} LengthExtraTable()
    ensures LEXT ==
            [LExt(0), LExt(1), LExt(2), LExt(3), LExt(4), LExt(5), LExt(6), LExt(7), LExt(8), LExt(9), LExt(10),
              LExt(11), LExt(12), LExt(13), LExt(14), LExt(15), LExt(16), LExt(17), LExt(18),
              LExt(19), LExt(20), LExt(21), LExt(22), LExt(23), LExt(24), LExt(25), LExt(26),
              LExt(27), LExt(28)]
  {
  }

  lemma {:induction false} DistanceBaseTable()
    ensures DBASE ==
            [DBase(0), DBase(1), DBase(2), DBase(3), DBase(4), DBase(5), DBase(6), DBase(7), DBase(8), DBase(9),
              DBase(10), DBase(11), DBase(12), DBase(13), DBase(14), DBase(15), DBase(16),
              DBase(17), DBase(18), DBase(19), DBase(20), DBase(21), DBase(22), DBase(23),
              DBase(24), DBase(25), DBase(26), DBase(27), DBase(28), DBase(29)]
  {
  }

  lemma {:induction false} DistanceExtraTable()
    ensures DEXT ==
            [DExt(0), DExt(1), DExt(2), DExt(3), DExt(4), DExt(5), DExt(6), DExt(7), DExt(8), DExt(9), DExt(10),
              DExt(11), DExt(12), DExt(13), DExt(14), DExt(15), DExt(16), DExt(17), DExt(18),
              DExt(19), DExt(20), DExt(21), DExt(22), DExt(23), DExt(24), DExt(25), DExt(26),
              DExt(27), DExt(28), DExt(29)]
  {
  }

  lemma {:induction false} TableEntries()
    ensures |ORDER| == 19 && |LBASE| == |LEXT| == 29 && |DBASE| == |DEXT| == 30
    ensures forall i :: 0 <= i < 19 ==> ORDER[i] == Ord(i)
    ensures forall i :: 0 <= i < 29 ==> LBASE[i] == LBase(i) && LEXT[i] == LExt(i) <= 5
    ensures forall i :: 0 <= i < 30 ==> DBASE[i] == DBase(i) && DEXT[i] == DExt(i) <= 13
  {
    hide Ord, LBase, LExt, DBase, DExt;
    OrderTable();
    LengthBaseTable();
    LengthExtraTable();
    DistanceBaseTable();
    DistanceExtraTable();
  }

  /** df_lsym: the last of the first `i + 1` length codes whose base is not above `len`. */
  function LSymFrom(len: nat, i: nat): (r: nat)
    ensures r <= i
  {
    if i == 0 || len >= LBase(i) then i else LSymFrom(len, i - 1)
  }

  /** df_dsym, the same for distances. */
  function DSymFrom(dist: nat, i: nat): (r: nat)
    ensures r <= i
  {
    if i == 0 || dist >= DBase(i) then i else DSymFrom(dist, i - 1)
  }

  const LCODES: nat := 29
  const DCODES: nat := 30

  function LSym(len: nat): (i: nat)
    ensures i < 29
  {
    LSymFrom(len, LCODES - 1)
  }

  function DSym(dist: nat): (i: nat)
    ensures i < 30
  {
    DSymFrom(dist, DCODES - 1)
  }

  /** df_lsym and df_dsym, as the searches they are. */
  method FindLSym(len: nat) returns (i: nat)
    ensures i == LSym(len) < 29
  {
    hide LBase, LExt, DBase, DExt;
    TableEntries();
    i := LCODES - 1;
    while i > 0
      invariant 0 <= i < 29 && LSym(len) == LSymFrom(len, i)
    {
      if len >= LBASE[i] { return; }
      i := i - 1;
    }
  }

  method FindDSym(dist: nat) returns (i: nat)
    ensures i == DSym(dist) < 30
  {
    hide LBase, LExt, DBase, DExt;
    TableEntries();
    i := DCODES - 1;
    while i > 0
      invariant 0 <= i < 30 && DSym(dist) == DSymFrom(dist, i)
    {
      if dist >= DBASE[i] { return; }
      i := i - 1;
    }
  }

  lemma {:induction false} LSymFromIs(len: nat, i: nat)
    ensures var r := LSymFrom(len, i); (r == 0 || LBase(r) <= len) && (r < i ==> len < LBase(r + 1))
  {
    if i != 0 && len < LBase(i) { LSymFromIs(len, i - 1); }
  }

  lemma {:induction false} DSymFromIs(dist: nat, i: nat)
    ensures var r := DSymFrom(dist, i); (r == 0 || DBase(r) <= dist) && (r < i ==> dist < DBase(r + 1))
  {
    if i != 0 && dist < DBase(i) { DSymFromIs(dist, i - 1); }
  }

  /** Every match length has a code whose base and extra bits reach it. */
  lemma {:induction false} LengthCovered(len: nat)
    requires 3 <= len <= 258
    ensures LBase(LSym(len)) <= len < LBase(LSym(len)) + Pow2(LExt(LSym(len)))
  {
    LSymFromIs(len, LCODES - 1);
    LBaseStep(LSym(len));
  }

  /** Every distance up to the window has a code whose base and extra bits reach it. */
  lemma {:induction false} DistanceCovered(dist: nat)
    requires 1 <= dist <= 32768
    ensures DBase(DSym(dist)) <= dist < DBase(DSym(dist)) + Pow2(DExt(DSym(dist)))
  {
    hide DExt, Pow2;
    DSymFromIs(dist, DCODES - 1);
    DBaseStep(DSym(dist));
    LastDistance();
  }

  /** A code's range ends where the next begins; the last two ranges of lengths reach 258. */
  lemma {:induction false} LBaseStep(i: nat)
    requires i < LCODES
    ensures i < 27 ==> LBase(i + 1) == LBase(i) + Pow2(LExt(i))
    ensures i == 27 ==> LBase(i) + Pow2(LExt(i)) == 259
    ensures i == 28 ==> LBase(i) == 258 && Pow2(LExt(i)) == 1
  {
    if 8 <= i < 28 { LBaseStep(i - 4); }
    if i == 27 { assert LBase(27) == 227 && Pow2(5) == 32; }
  }

  lemma {:induction false} LastDistance()
    ensures DBase(29) + Pow2(DExt(29)) == 32769
  {
    hide Pow2;
    Pow2Values();
    assert DBase(29) == 24577 && DExt(29) == 13;
  }

  lemma {:induction false} DBaseStep(i: nat)
    ensures DBase(i + 1) == DBase(i) + Pow2(DExt(i))
  {
    if i >= 4 { DBaseStep(i - 2); }
  }

  // ---- the rules of RFC 1951 ----

  /** The code-length code's lengths come with the three repeats first, 16, 17 and 18, then no length at all,
      then 8 and its neighbours, 7, 9, 6, 10 and so on outwards, every symbol once. */
  lemma {:induction false} OrderRule(i: nat, j: nat)
    requires i < 19 && j < 19
    ensures |ORDER| == 19 && ORDER[0] == 16 && ORDER[1] == 17 && ORDER[2] == 18 && ORDER[3] == 0
    ensures i >= 4 && i % 2 == 0 ==> ORDER[i] == 8 + (i - 4) / 2
    ensures i >= 4 && i % 2 == 1 ==> ORDER[i] == 7 - (i - 5) / 2
    ensures i != j ==> ORDER[i] != ORDER[j]
  {
    TableEntries();
    hide ORDER;
    assert Place(Ord(i)) == i by { PlaceIs(i); }
    assert Place(Ord(j)) == j by { PlaceIs(j); }
  }

  lemma {:induction false} PlaceIs(i: nat)
    requires i < 19
    ensures Place(Ord(i)) == i
  {
  }

  lemma {:induction false} Doubles(n: nat, k: nat)
    ensures n * Pow2(k + 1) == 2 * (n * Pow2(k))
  {
  }

  /** Lengths: the first four codes stand for themselves, and from there every four codes have one more extra bit,
      but for the last code, which is 258 alone. */
  lemma {:induction false} LengthRule(i: nat)
    requires i < 29
    ensures |LBASE| == |LEXT| == 29
    ensures i < 4 ==> LBASE[i] == 3 + i && LEXT[i] == 0
    ensures 4 <= i < 28 ==> LEXT[i] == i / 4 - 1 && LBASE[i] == 3 + (4 + i % 4) * Pow2(i / 4 - 1)
    ensures i == 28 ==> LBASE[i] == 258 && LEXT[i] == 0
  {
    TableEntries();
    hide LBASE, LEXT;
    if 4 <= i < 28 { LengthForm(i); }
  }

  lemma {:induction false} LengthForm(i: nat)
    requires 4 <= i < 28
    ensures LExt(i) == i / 4 - 1 && LBase(i) == 3 + (4 + i % 4) * Pow2(i / 4 - 1)
  {
    if i >= 8 {
      LengthForm(i - 4);
      Doubles(4 + i % 4, i / 4 - 2);
    }
  }

  /** Distances: the first two codes stand for themselves, and from there every two codes have one more extra bit. */
  lemma {:induction false} DistanceRule(i: nat)
    requires i < 30
    ensures |DBASE| == |DEXT| == 30
    ensures i < 2 ==> DBASE[i] == 1 + i && DEXT[i] == 0
    ensures i >= 2 ==> DEXT[i] == i / 2 - 1 && DBASE[i] == 1 + (2 + i % 2) * Pow2(i / 2 - 1)
  {
    TableEntries();
    hide DBASE, DEXT;
    if i >= 2 { DistanceForm(i); }
  }

  lemma {:induction false} DistanceForm(i: nat)
    requires i >= 2
    ensures DExt(i) == i / 2 - 1 && DBase(i) == 1 + (2 + i % 2) * Pow2(i / 2 - 1)
  {
    if i >= 4 {
      DistanceForm(i - 2);
      Doubles(2 + i % 2, i / 2 - 2);
    }
  }
}
