/** The shell's functions and the open-addressing index that finds them by name once there are many
    (fn_hash, fn_hfind, fn_find, fn_add, fn_src, bi_unfn). */
module FunctionTable {
  import opened Bits
  import opened Int64

  const MANY: nat := 16

  /** A defined function: its name, and what it was parsed to. */
  datatype Node = Node(name: string, body: nat)

  // ---- hashing ----

  /** vh: FNV-1a, in 32 bits. */
  function Hash(k: string, h: nat): nat {
    if k == "" then h else Hash(k[1..], (Xor(h, k[0] as nat % 256) * 16777619) % 0x1_0000_0000)
  }

  function NameHash(k: string): nat { Hash(k, 2166136261) }

  /** Masking with one less than a power of two is the remainder. */
  lemma {:induction false} AndIsMod(v: nat, k: nat)
    ensures And(v, Pow2(k) - 1) == v % Pow2(k)
  {
    if k == 0 {
      AndZero(v);
    } else {
      AndIsMod(v / 2, k - 1);
      ModHalf(v, Pow2(k - 1));
      assert (Pow2(k) - 1) / 2 == Pow2(k - 1) - 1;
    }
  }

  lemma {:induction false} AndZero(v: nat)
    ensures And(v, 0) == 0
  {
    if v != 0 { AndZero(v / 2); }
  }

  lemma {:induction false} ModHalf(v: nat, m: nat)
    requires m >= 1
    ensures v % (2 * m) == v % 2 + 2 * ((v / 2) % m)
    decreases v
  {
    if v >= 2 * m {
      ModHalf(v - 2 * m, m);
      ModLess(v, 2 * m);
      assert (v - 2 * m) / 2 == v / 2 - m && (v - 2 * m) % 2 == v % 2;
      ModLess(v / 2, m);
    } else {
      ModSmall(v, 2 * m);
      ModSmall(v / 2, m);
    }
  }

  lemma {:induction false} ModLess(v: nat, m: nat)
    requires 1 <= m <= v
    ensures v % m == (v - m) % m
  {
    var q, r := (v - m) / m, (v - m) % m;
    assert v - m == m * q + r && 0 <= r < m;
    assert v == m * (q + 1) + r;
    ModIs(v, m, q + 1, r);
  }

  lemma {:induction false} ModSmall(v: nat, m: nat)
    requires v < m
    ensures v % m == v
  {
  }

  lemma {:induction false} TimesUp(m: nat, a: nat, b: nat)
    requires a <= b
    ensures m * a <= m * b
  {
  }

  lemma {:induction false} ModIs(v: nat, m: nat, q: nat, r: nat)
    requires m >= 1 && v == m * q + r && r < m
    ensures v % m == r
  {
    var q', r' := v / m, v % m;
    assert v == m * q' + r' && 0 <= r' < m;
    if q' > q { TimesUp(m, q + 1, q'); } else if q' < q { TimesUp(m, q' + 1, q); }
  }

  // ---- probing ----

  function Next(j: nat, n: nat): nat {
    if j + 1 < n then j + 1 else 0
  }

  /** The slot `d` steps on from `start`. */
  function Walk(start: nat, d: nat, n: nat): (j: nat)
    requires start < n
    ensures j < n
  {
    if d == 0 then start else Next(Walk(start, d - 1, n), n)
  }

  /** How many steps from `j` to `z`, going round. */
  function Dist(j: nat, z: nat, n: nat): nat
    requires j < n && z < n
  {
    if z >= j then z - j else z + n - j
  }

  /** The first `d` slots from `start` are taken. */
  ghost predicate Chain(tab: seq<nat>, start: nat, d: nat)
    requires start < |tab|
  {
    forall e: nat :: e < d ==> tab[Walk(start, e, |tab|)] != 0
  }

  /** Probing from `start` meets `v` before an empty slot. */
  ghost predicate Reaches(tab: seq<nat>, start: nat, v: nat)
    requires start < |tab|
  {
    exists d: nat :: Chain(tab, start, d) && tab[Walk(start, d, |tab|)] == v
  }

  function Taken(tab: seq<nat>): (k: nat)
    ensures k <= |tab|
  {
    if tab == [] then 0 else Taken(tab[..|tab| - 1]) + (if tab[|tab| - 1] != 0 then 1 else 0)
  }

  lemma {:induction false} TakenUpdate(tab: seq<nat>, j: nat, v: nat)
    requires j < |tab| && tab[j] == 0 && v != 0
    ensures Taken(tab[j := v]) == Taken(tab) + 1
  {
    var k := |tab| - 1;
    if j == k {
      assert tab[j := v][..k] == tab[..k];
    } else {
      TakenUpdate(tab[..k], j, v);
      assert tab[j := v][..k] == tab[..k][j := v];
    }
  }

  /** A table that is not full has an empty slot. */
  lemma {:induction false} EmptySlot(tab: seq<nat>) returns (z: nat)
    requires Taken(tab) < |tab|
    ensures z < |tab| && tab[z] == 0
  {
    var k := |tab| - 1;
    if tab[k] == 0 { z := k; } else { z := EmptySlot(tab[..k]); }
  }

  // ---- the index ----

  /** Where the search for a name begins. */
  function Start(nm: string, n: nat): (j: nat)
    requires n > 0
    ensures j < n
  {
    NameHash(nm) % n
  }

  /** The table holds exactly the functions, each where probing for its name finds it. */
  ghost predicate Indexed(tab: seq<nat>, fns: seq<Node>) {
    && |tab| > 0 && Taken(tab) == |fns| && (forall j :: 0 <= j < |tab| ==> tab[j] <= |fns|)
    && forall i :: 0 <= i < |fns| ==> Reaches(tab, Start(fns[i].name, |tab|), i + 1)
  }

  /** Filling an empty slot hides nothing. */
  lemma {:induction false} ReachesStill(tab: seq<nat>, j: nat, v: nat, start: nat, w: nat)
    requires j < |tab| && tab[j] == 0 && v != 0 && w != 0 && start < |tab| && Reaches(tab, start, w)
    ensures Reaches(tab[j := v], start, w)
  {
    hide Walk;
    var d: nat :| Chain(tab, start, d) && tab[Walk(start, d, |tab|)] == w;
    assert Chain(tab[j := v], start, d);
  }

  /** One more function, in the first empty slot from where its name begins. */
  lemma {:induction false} IndexOne(tab: seq<nat>, fns: seq<Node>, f: Node, d: nat)
    requires Indexed(tab, fns) && Chain(tab, Start(f.name, |tab|), d) && tab[Walk(Start(f.name, |tab|), d, |tab|)] == 0
    ensures Indexed(tab[Walk(Start(f.name, |tab|), d, |tab|) := |fns| + 1], fns + [f])
  {
    hide Walk, Start, Taken;
    var s := Start(f.name, |tab|);
    assert s < |tab| by { StartIn(f.name, |tab|); }
    var j := Walk(s, d, |tab|);
    assert j < |tab| by { WalkIn(s, d, |tab|); }
    var tab', v := tab[j := |fns| + 1], |fns| + 1;
    TakenUpdate(tab, j, v);
    assert Chain(tab', s, d);
    assert Reaches(tab', s, v);
    forall i | 0 <= i < |fns| + 1
      ensures Reaches(tab', Start((fns + [f])[i].name, |tab'|), i + 1)
    {
      if i < |fns| {
        StartIn(fns[i].name, |tab|);
        ReachesStill(tab, j, v, Start(fns[i].name, |tab|), i + 1);
      }
    }
  }

  lemma {:induction false} StartIn(nm: string, n: nat)
    requires n > 0
    ensures 0 <= Start(nm, n) < n
  {
  }

  lemma {:induction false} WalkIn(s: nat, d: nat, n: nat)
    requires s < n
    ensures 0 <= Walk(s, d, n) < n
  {
  }

  lemma {:induction false} ChainAt(tab: seq<nat>, start: nat, e: nat, d: nat)
    requires start < |tab| && Chain(tab, start, e) && d < e
    ensures tab[Walk(start, d, |tab|)] != 0
  {
  }

  /** Probing that met an empty slot met every function of that name first. */
  lemma {:induction false} NotThere(tab: seq<nat>, start: nat, d: nat, v: nat)
    requires start < |tab| && Reaches(tab, start, v) && v != 0 && tab[Walk(start, d, |tab|)] == 0
    ensures exists e: nat :: e < d && tab[Walk(start, e, |tab|)] == v
  {
    hide Walk, Chain;
    var e: nat :| Chain(tab, start, e) && tab[Walk(start, e, |tab|)] == v;
    if d < e { ChainAt(tab, start, e, d); }
  }

  ghost predicate Distinct(fns: seq<Node>) {
    forall i, j :: 0 <= i < j < |fns| ==> fns[i].name != fns[j].name
  }

  /** The answer of a linear search. */
  function Where(fns: seq<Node>, nm: string): (r: Option<nat>)
    ensures r.Some? ==> r.value < |fns| && fns[r.value].name == nm
    ensures r.None? ==> forall i :: 0 <= i < |fns| ==> fns[i].name != nm
  {
    if fns == [] then None
    else if fns[|fns| - 1].name == nm then Some(|fns| - 1)
    else Where(fns[..|fns| - 1], nm)
  }

  /** Names are distinct, so whichever place has the name is the answer. */
  lemma {:induction false} WhereIs(fns: seq<Node>, nm: string, i: nat)
    requires Distinct(fns) && i < |fns| && fns[i].name == nm
    ensures Where(fns, nm) == Some(i)
  {
  }

  lemma {:induction false} WhereNone(fns: seq<Node>, nm: string)
    requires forall i :: 0 <= i < |fns| ==> fns[i].name != nm
    ensures Where(fns, nm) == None
  {
  }

  /** A function defined again stays where it was. */
  lemma {:induction false} WhereAgain(fns: seq<Node>, i: nat, f: Node, nm: string)
    requires Distinct(fns) && i < |fns| && fns[i].name == f.name
    ensures Distinct(fns[i := f]) && Where(fns[i := f], nm) == Where(fns, nm)
  {
    hide Where;
    WhereFits(fns, nm);
    match Where(fns, nm)
    case Some(j) => WhereIs(fns[i := f], nm, j);
    case None => WhereNone(fns[i := f], nm);
  }

  lemma {:induction false} WhereFits(fns: seq<Node>, nm: string)
    ensures match Where(fns, nm)
            case Some(i) => i < |fns| && fns[i].name == nm
            case None => forall i :: 0 <= i < |fns| ==> fns[i].name != nm
  {
  }

  /** The list without place `j`, the last function moved into it. */
  function Without<T>(s: seq<T>, j: nat): seq<T>
    requires j < |s|
  {
    s[j := s[|s| - 1]][..|s| - 1]
  }

  lemma {:induction false} WhereWithout(fns: seq<Node>, j: nat, nm: string)
    requires Distinct(fns) && j < |fns|
    ensures Distinct(Without(fns, j))
    ensures Where(Without(fns, j), nm) ==
            if nm == fns[j].name || Where(fns, nm).None? then None
            else if Where(fns, nm).value == |fns| - 1 then Some(j) else Where(fns, nm)
  {
    hide Where;
    WhereFits(fns, nm);
    var s := Without(fns, j);
    if nm == fns[j].name || Where(fns, nm).None? {
      WhereNone(s, nm);
    } else {
      var i := Where(fns, nm).value;
      WhereIs(s, nm, if i == |fns| - 1 then j else i);
    }
  }

  lemma {:induction false} NextIsAnd(j: nat, k: nat)
    requires j < Pow2(k)
    ensures And(j + 1, Pow2(k) - 1) == Next(j, Pow2(k))
  {
    AndIsMod(j + 1, k);
    if j + 1 < Pow2(k) { ModSmall(j + 1, Pow2(k)); } else { ModIs(Pow2(k), Pow2(k), 1, 0); }
  }

  class Functions {
    var fns: seq<Node>
    var fsrc: seq<string>
    var fht: array<nat>
    ghost var width: nat
    var fhok: bool
    var fni: nat
    var ros: seq<string>

    constructor ()
      ensures Valid() && fns == [] && ros == [] && fresh(fht)
    {
      fns, fsrc, fhok, fni, ros, width := [], [], false, 0, [], 0;
      fht := new nat[1](_ => 0);
    }

    /** Names are distinct; and while the index is in use it holds the functions and is at most half full. */
    ghost predicate Valid()
      reads this, fht
    {
      && |fsrc| == |fns| && Distinct(fns)
      && (fhok ==> Wide() && 2 * |fns| <= fht.Length && Indexed(fht[..], fns))
    }

    ghost predicate Wide()
      reads this
    {
      fht.Length == Pow2(width) >= 64
    }

    /** The function of a name and the file it came from, by linear search. */
    ghost function Lookup(nm: string): Option<(Node, string)>
      requires |fsrc| == |fns|
      reads this
    {
      match Where(fns, nm)
      case None => None
      case Some(i) => Some((fns[i], fsrc[i]))
    }

    /** The first empty slot for a name. */
    method FindEmpty(nm: string) returns (j: nat, ghost d: nat)
      requires Wide() && Taken(fht[..]) < fht.Length
      ensures Chain(fht[..], Start(nm, fht.Length), d) && j == Walk(Start(nm, fht.Length), d, fht.Length) < fht.Length && fht[j] == 0
    {
      hide And, Taken, Pow2, NameHash;
      AndIsMod(NameHash(nm), width);
      j := And(NameHash(nm), fht.Length - 1);
      StartIn(nm, fht.Length);
      d := 0;
      ghost var z := EmptySlot(fht[..]);
      while fht[j] != 0
        invariant j == Walk(Start(nm, fht.Length), d, fht.Length) < fht.Length && Chain(fht[..], Start(nm, fht.Length), d)
        decreases Dist(j, z, fht.Length)
      {
        NextIsAnd(j, width);
        j := And(j + 1, fht.Length - 1);
        d := d + 1;
      }
    }

    /** Put function `i` in the index. */
    method Index(i: nat)
      requires Wide() && i < |fns| && 2 * |fns| <= fht.Length && Indexed(fht[..], fns[..i])
      modifies fht
      ensures Indexed(fht[..], fns[..i + 1])
    {
      hide Indexed, Chain, Walk, Start, Pow2;
      TableSize(fht[..], fns[..i]);
      var j, d := FindEmpty(fns[i].name);
      IndexOne(fht[..], fns[..i], fns[i], d);
      assert fns[..i + 1] == fns[..i] + [fns[i]];
      fht[j] := i + 1;
    }

    /** fn_hash: index every function. */
    method Rehash()
      requires Valid()
      modifies this`fht, this`width, this`fhok, fht
      ensures Valid() && fhok && (fht == old(fht) || fresh(fht))
    {
      hide Indexed, Pow2;
      var n: nat := 64;
      ghost var w: nat := 6;
      SixtyFour();
      while n < |fns| * 2
        invariant n == Pow2(w) >= 64
        decreases |fns| * 2 - n
        modifies {}
      {
        PowNext(w);
        n, w := n * 2, w + 1;
      }
      if n != fht.Length { fht := new nat[n](_ => 0); }
      width := w;
      fhok := false;
      Fill();
      fhok := true;
      assert fns[..|fns|] == fns;
    }

    method Fill()
      requires Wide() && 2 * |fns| <= fht.Length
      modifies fht
      ensures Indexed(fht[..], fns[..|fns|])
    {
      hide Indexed, Pow2;
      var j := 0;
      while j < fht.Length
        invariant 0 <= j <= fht.Length && forall i :: 0 <= i < j ==> fht[i] == 0
      {
        fht[j] := 0;
        j := j + 1;
      }
      NoneIndexed(fht[..]);
      assert fns[..0] == [];
      var i := 0;
      while i < |fns|
        invariant 0 <= i <= |fns| && Indexed(fht[..], fns[..i])
      {
        Index(i);
        i := i + 1;
      }
    }

    /** fn_hfind: probing from where the name begins. */
    method HashFind(nm: string) returns (r: Option<Node>)
      requires Valid()
      modifies this`fht, this`width, this`fhok, this`fni, fht
      ensures Valid() && (fht == old(fht) || fresh(fht))
      ensures r == (match Where(fns, nm) case None => None case Some(i) => Some(fns[i]))
      ensures r.Some? ==> Where(fns, nm) == Some(fni)
    {
      hide Indexed, Pow2, Where;
      if !fhok { Rehash(); }
      var i := Probe(nm);
      if i.None? { return None; }
      fni := i.value;
      r := Some(fns[fni]);
    }

    method Probe(nm: string) returns (r: Option<nat>)
      requires Valid() && fhok
      ensures r == Where(fns, nm)
    {
      hide And, Taken, Pow2, NameHash, Where, Indexed;
      TableSize(fht[..], fns);
      TableEntries(fht[..], fns);
      AndIsMod(NameHash(nm), width);
      StartIn(nm, fht.Length);
      WhereFits(fns, nm);
      var j := And(NameHash(nm), fht.Length - 1);
      ghost var d := 0;
      ghost var z := EmptySlot(fht[..]);
      while fht[j] != 0
        invariant j == Walk(Start(nm, fht.Length), d, fht.Length) < fht.Length
        invariant forall e: nat :: e < d ==> var v := fht[..][Walk(Start(nm, fht.Length), e, fht.Length)]; v != 0 && fns[v - 1].name != nm
        decreases Dist(j, z, fht.Length)
      {
        if fns[fht[j] - 1].name == nm {
          WhereIs(fns, nm, fht[j] - 1);
          return Some(fht[j] - 1);
        }
        NextIsAnd(j, width);
        j := And(j + 1, fht.Length - 1);
        d := d + 1;
      }
      NotFound(fht[..], fns, nm, d);
      return None;
    }

    /** fn_find: by linear search while there are few, through the index once there are many. */
    method Find(nm: string) returns (r: Option<Node>)
      requires Valid()
      modifies this`fht, this`width, this`fhok, this`fni, fht
      ensures Valid() && (fht == old(fht) || fresh(fht))
      ensures r == (match Where(fns, nm) case None => None case Some(i) => Some(fns[i]))
      ensures r.Some? ==> Where(fns, nm) == Some(fni)
    {
      hide Indexed, Pow2, Where;
      if |fns| >= MANY {
        r := HashFind(nm);
        return;
      }
      WhereFits(fns, nm);
      var i := 0;
      while i < |fns|
        invariant 0 <= i <= |fns| && forall j :: 0 <= j < i ==> fns[j].name != nm
      {
        if fns[i].name == nm {
          WhereIs(fns, nm, i);
          fni := i;
          return Some(fns[i]);
        }
        i := i + 1;
      }
      return None;
    }

    /** fn_src: the file a function was defined in, by the place last found or else by search. */
    method Source(f: Node) returns (r: Option<string>)
      requires Valid()
      ensures r == (match Lookup(f.name) case Some((g, src)) => if g == f then Some(src) else None case None => None)
    {
      hide Where, Indexed;
      WhereFits(fns, f.name);
      if fni < |fns| && fns[fni] == f {
        WhereIs(fns, f.name, fni);
        return Some(fsrc[fni]);
      }
      var i := 0;
      while i < |fns|
        invariant 0 <= i <= |fns| && forall j :: 0 <= j < i ==> fns[j] != f
      {
        if fns[i] == f {
          WhereIs(fns, f.name, i);
          return Some(fsrc[i]);
        }
        i := i + 1;
      }
      return None;
    }

    /** fn_add: define a function, or define it again. 1 when it is readonly, 2 when strict functions forbid
        defining it again in the same file. */
    method Add(f: Node, src: string, strict: bool) returns (rc: nat)
      requires Valid()
      modifies this`fns, this`fsrc, this`fht, this`width, this`fhok, this`fni, fht
      ensures Valid() && (fht == old(fht) || fresh(fht))
      ensures rc == if f.name in ros then 1
                    else if strict && old(Lookup(f.name)).Some? && old(Lookup(f.name)).value.1 == src then 2 else 0
      ensures rc == 0 ==> Lookup(f.name) == Some((f, src))
      ensures rc != 0 ==> fns == old(fns) && fsrc == old(fsrc)
      ensures rc == 0 ==> fns == (match Where(old(fns), f.name) case None => old(fns) + [f] case Some(i) => old(fns)[i := f])
      ensures forall nm :: nm != f.name ==> Lookup(nm) == old(Lookup(nm))
    {
      hide Where, Indexed, Pow2;
      if f.name in ros { return 1; }
      var g := Find(f.name);
      if g.Some? {
        if strict && fsrc[fni] == src { return 2; }
        Replace(f, src);
        return 0;
      }
      Append(f, src);
      return 0;
    }

    /** A function defined again, in the place just found. */
    method Replace(f: Node, src: string)
      requires Valid() && Where(fns, f.name) == Some(fni) && fni < |fns|
      modifies this`fns, this`fsrc
      ensures fns == old(fns)[fni := f] && fsrc == old(fsrc)[fni := src]
      ensures Valid() && Lookup(f.name) == Some((f, src)) && forall nm :: nm != f.name ==> Lookup(nm) == old(Lookup(nm))
    {
      hide Where, Indexed, Pow2;
      WhereFits(fns, f.name);
      IndexAgain(fht[..], fns, fni, f);
      forall nm ensures Where(fns[fni := f], nm) == Where(fns, nm) { WhereAgain(fns, fni, f, nm); }
      forall nm ensures Where(fns, nm) == Some(fni) ==> nm == f.name { WhereFits(fns, nm); }
      forall nm ensures Where(fns, nm).Some? ==> Where(fns, nm).value < |fns| { WhereFits(fns, nm); }
      WhereAgain(fns, fni, f, f.name);
      fns := fns[fni := f];
      fsrc := fsrc[fni := src];
    }

    /** A new function, indexed at once while there is room. */
    method Append(f: Node, src: string)
      requires Valid() && Where(fns, f.name) == None
      modifies this`fns, this`fsrc, this`fhok, fht
      ensures fns == old(fns) + [f] && fsrc == old(fsrc) + [src]
      ensures Valid() && Lookup(f.name) == Some((f, src)) && forall nm :: nm != f.name ==> Lookup(nm) == old(Lookup(nm))
    {
      hide Where, Indexed, Pow2;
      WhereFits(fns, f.name);
      var was := fns;
      fns := fns + [f];
      fsrc := fsrc + [src];
      assert fns[..|was|] == was && fns[..|fns|] == fns;
      forall nm ensures Where(fns, nm) == if nm == f.name then Some(|was|) else Where(was, nm) { WhereSnoc(was, f, nm); }
      forall nm ensures Where(was, nm).Some? ==> Where(was, nm).value < |was| { WhereFits(was, nm); }
      if fhok && |fns| * 2 <= fht.Length {
        Index(|was|);
      } else {
        fhok := false;
      }
    }

    /** bi_unfn: forget a function; the last one takes its place. */
    method Unset(nm: string)
      requires Valid()
      modifies this`fns, this`fsrc, this`fht, this`width, this`fhok, this`fni, fht
      ensures Valid() && (fht == old(fht) || fresh(fht))
      ensures forall k :: Lookup(k) == if k == nm then None else old(Lookup(k))
      ensures fns == match Where(old(fns), nm) case None => old(fns) case Some(j) => Without(old(fns), j)
    {
      hide Where, Indexed, Pow2;
      WhereFits(fns, nm);
      var f := Find(nm);
      if f.None? { return; }
      var j := fni;
      ghost var was := fns;
      forall k ensures Where(Without(was, j), k) == (if k == nm || Where(was, k).None? then None
                       else if Where(was, k).value == |was| - 1 then Some(j) else Where(was, k)) { WhereWithout(was, j, k); }
      forall k ensures match Where(was, k) case Some(i) => i < |was| && was[i].name == k case None => true { WhereFits(was, k); }
      WhereWithout(was, j, nm);
      fns := fns[j := fns[|fns| - 1]][..|fns| - 1];
      fsrc := fsrc[j := fsrc[|fsrc| - 1]][..|fsrc| - 1];
      fhok := false;
    }

    /** fn_setro. */
    method SetReadonly(nm: string)
      requires Valid()
      modifies this`ros
      ensures Valid() && nm in ros && forall k :: k in ros <==> k in old(ros) || k == nm
    {
      if nm !in ros { ros := ros + [nm]; }
    }
  }

  lemma {:induction false} TableSize(tab: seq<nat>, fns: seq<Node>)
    requires Indexed(tab, fns)
    ensures |tab| > 0 && Taken(tab) == |fns|
  {
  }

  lemma {:induction false} TableEntries(tab: seq<nat>, fns: seq<Node>)
    requires Indexed(tab, fns)
    ensures forall j :: 0 <= j < |tab| ==> tab[j] <= |fns|
  {
  }

  lemma {:induction false} NoneIndexed(tab: seq<nat>)
    requires |tab| > 0 && forall j :: 0 <= j < |tab| ==> tab[j] == 0
    ensures Indexed(tab, [])
  {
    NoneTaken(tab);
  }

  lemma {:induction false} NoneTaken(tab: seq<nat>)
    requires forall j :: 0 <= j < |tab| ==> tab[j] == 0
    ensures Taken(tab) == 0
  {
    if tab != [] { NoneTaken(tab[..|tab| - 1]); }
  }

  lemma {:induction false} SixtyFour()
    ensures Pow2(6) == 64
  {
    Pow2Values();
  }

  lemma {:induction false} PowNext(w: nat)
    ensures Pow2(w + 1) == 2 * Pow2(w)
  {
  }

  /** A function the probe passed by would have been met. */
  lemma {:induction false} NotFound(tab: seq<nat>, fns: seq<Node>, nm: string, d: nat)
    requires Indexed(tab, fns) && Start(nm, |tab|) < |tab| && tab[Walk(Start(nm, |tab|), d, |tab|)] == 0
    requires forall e: nat :: e < d ==> var v := tab[Walk(Start(nm, |tab|), e, |tab|)]; v != 0 && v <= |fns| && fns[v - 1].name != nm
    ensures Where(fns, nm) == None
  {
    hide Walk, Start, Where;
    WhereFits(fns, nm);
    if Where(fns, nm).Some? { NotThere(tab, Start(nm, |tab|), d, Where(fns, nm).value + 1); }
  }

  lemma {:induction false} WhereSnoc(fns: seq<Node>, f: Node, nm: string)
    ensures Where(fns + [f], nm) == if nm == f.name then Some(|fns|) else Where(fns, nm)
  {
    assert (fns + [f])[..|fns|] == fns;
  }

  /** The index does not see a function's body change. */
  lemma {:induction false} IndexAgain(tab: seq<nat>, fns: seq<Node>, i: nat, f: Node)
    requires i < |fns| && fns[i].name == f.name
    ensures Indexed(tab, fns) ==> Indexed(tab, fns[i := f])
  {
    hide Start, Taken, Reaches;
    if Indexed(tab, fns) {
      var g := fns[i := f];
      forall j | 0 <= j < |g|
        ensures Start(g[j].name, |tab|) < |tab| && Reaches(tab, Start(g[j].name, |tab|), j + 1)
      {
        assert g[j].name == fns[j].name;
        StartIn(fns[j].name, |tab|);
      }
    }
  }

  // ---- any run of them ----

  datatype Cmd = Define(f: Node, src: string, strict: bool) | Forget(nm: string) | Look(nm: string) | Freeze(nm: string)

  /** What the functions are, as a map, and which are readonly. */
  datatype Table = Table(m: map<string, (Node, string)>, frozen: set<string>)

  function Do(t: Table, c: Cmd): Table {
    match c
    case Define(f, src, strict) =>
      if f.name in t.frozen || (strict && f.name in t.m && t.m[f.name].1 == src) then t else t.(m := t.m[f.name := (f, src)])
    case Forget(nm) => t.(m := t.m - {nm})
    case Look(_) => t
    case Freeze(nm) => t.(frozen := t.frozen + {nm})
  }

  function DoAll(t: Table, cs: seq<Cmd>): Table {
    if cs == [] then t else Do(DoAll(t, cs[..|cs| - 1]), cs[|cs| - 1])
  }

  ghost predicate Shows(s: Functions, t: Table)
    requires |s.fsrc| == |s.fns|
    reads s
  {
    && (forall nm :: s.Lookup(nm) == if nm in t.m then Some(t.m[nm]) else None)
    && forall nm :: nm in s.ros <==> nm in t.frozen
  }

  /** One command, on the table and on the map. */
  method Step(s: Functions, c: Cmd, ghost t: Table)
    requires s.Valid() && Shows(s, t)
    modifies s, s.fht
    ensures s.Valid() && Shows(s, Do(t, c)) && (s.fht == old(s.fht) || fresh(s.fht))
  {
    hide Where, Indexed, Pow2;
    match c
    case Define(f, src, strict) => var rc := s.Add(f, src, strict);
    case Forget(nm) => s.Unset(nm);
    case Look(nm) => var r := s.Find(nm);
    case Freeze(nm) => s.SetReadonly(nm);
  }

  /** Over any run of commands the table answers as a map would, on both sides of the threshold. */
  method RunAll(cs: seq<Cmd>) returns (s: Functions)
    ensures fresh(s) && fresh(s.fht) && s.Valid() && Shows(s, DoAll(Table(map[], {}), cs))
  {
    s := new Functions();
    var i := 0;
    while i < |cs|
      invariant 0 <= i <= |cs| && fresh(s) && fresh(s.fht) && s.Valid()
      invariant Shows(s, DoAll(Table(map[], {}), cs[..i]))
    {
      assert cs[..i + 1][..i] == cs[..i];
      Step(s, cs[i], DoAll(Table(map[], {}), cs[..i]));
      i := i + 1;
    }
    assert cs[..i] == cs;
  }
}
