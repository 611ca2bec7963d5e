/** The arena allocator (ar_blk, ar_drop, ar_raw, ar_alloc, ar_dup, ar_mark, ar_rel, ar_reset): a chain of
    blocks, newest first, and a short list of spare ones. */
module Arena {
  import opened Bits

  /** HIBR_ARKEEP: how many released blocks are kept. */
  const KEEP: nat := 4

  class Blk {
    const cap: nat
    var use: nat
    var nx: Blk?
    var d: seq<byte>

    constructor (cap: nat)
      ensures this.cap == cap && use == 0 && nx == null && |d| == cap
    {
      this.cap, use, nx := cap, 0, null;
      d := seq(cap, _ => 0);
    }
  }

  /** Memory given out: where it is. */
  datatype Region = Region(k: Blk, off: nat, len: nat)

  /** ar_mark's record. */
  datatype Mark = Mark(b: Blk?, use: nat)

  /** What a mark stands for: the chain it saw and how many allocations were live. */
  datatype Note = Note(m: Mark, c: seq<Blk>, n: nat)

  ghost predicate Apart(a: Region, b: Region) {
    a.k != b.k || a.off + a.len <= b.off || b.off + b.len <= a.off
  }

  /** The element after the first `i`, if there is one. */
  ghost function Nth(s: seq<Blk>, i: nat): Blk? {
    if i < |s| then s[i] else null
  }

  /** A list of blocks through `nx`. */
  ghost predicate Linked(head: Blk?, s: seq<Blk>)
    reads s`nx
  {
    head == Nth(s, 0) && forall i :: 0 <= i < |s| ==> s[i].nx == Nth(s, i + 1)
  }

  ghost predicate Distinct(s: seq<Blk>) {
    forall i, j :: 0 <= i < j < |s| ==> s[i] != s[j]
  }

  ghost predicate Disjoint(s: seq<Blk>, t: seq<Blk>) {
    forall k :: k in s ==> k !in t
  }

  ghost predicate Sound(s: seq<Blk>)
    reads s`use, s`d
  {
    forall k :: k in s ==> k.use <= k.cap == |k.d|
  }

  /** How far each block is used. */
  ghost function Uses(s: seq<Blk>): (u: map<Blk, nat>)
    reads s`use
    ensures u.Keys == set k | k in s
  {
    map k | k in s :: k.use
  }

  /** What is live lies inside its block, below what is used of it, and apart from everything else that is live. */
  ghost predicate Placed(live: seq<Region>, u: map<Blk, nat>) {
    && (forall i :: 0 <= i < |live| ==> live[i].k in u && live[i].off + live[i].len <= u[live[i].k])
    && forall i, j :: 0 <= i < j < |live| ==> Apart(live[i], live[j])
  }

  /** No block is used less than it was. */
  ghost predicate Grown(u: map<Blk, nat>, v: map<Blk, nat>) {
    forall k :: k in u ==> k in v && u[k] <= v[k]
  }

  ghost predicate Suffix(c: seq<Blk>, s: seq<Blk>) {
    |c| <= |s| && s[|s| - |c|..] == c
  }

  /** A mark that may still be released to: its chain is the tail of the chain now, and what was live then is
      live now and lies below the recorded offset. */
  ghost predicate Holds(t: Note, live: seq<Region>, chain: seq<Blk>, u: map<Blk, nat>) {
    && Suffix(t.c, chain) && t.n <= |live|
    && t.m.b == Nth(t.c, 0)
    && (t.c != [] ==> t.c[0] in u && t.m.use <= u[t.c[0]])
    && forall i :: 0 <= i < t.n ==> live[i].k in t.c && (live[i].k == t.c[0] ==> live[i].off + live[i].len <= t.m.use)
  }

  /** The mark `s` was taken before `t`. */
  ghost predicate Before(s: Note, t: Note) {
    Suffix(s.c, t.c) && s.n <= t.n && (s.c == t.c != [] ==> s.m.use <= t.m.use)
  }

  /** What each block holds. */
  ghost function Data(s: seq<Blk>): (m: map<Blk, seq<byte>>)
    reads s`d
    ensures m.Keys == set k | k in s
  {
    map k | k in s :: k.d
  }

  /** The bytes of an allocation. */
  ghost function Text(a: Region, m: map<Blk, seq<byte>>): seq<byte> {
    if a.k in m && a.off + a.len <= |m[a.k]| then m[a.k][a.off..a.off + a.len] else []
  }

  /** What the live allocations hold. */
  ghost predicate Shows(live: seq<Region>, texts: seq<seq<byte>>, m: map<Blk, seq<byte>>) {
    |texts| == |live| && forall i :: 0 <= i < |live| ==> Text(live[i], m) == texts[i]
  }

  lemma {:induction false} ShowsNone(m: map<Blk, seq<byte>>)
    ensures Shows([], [], m)
  {
  }

  lemma {:induction false} ShowsTake(live: seq<Region>, texts: seq<seq<byte>>, n: nat, m: map<Blk, seq<byte>>)
    requires Shows(live, texts, m) && n <= |live|
    ensures n <= |texts| && Shows(live[..n], texts[..n], m)
  {
  }

  lemma {:induction false} ShowsGrown(live: seq<Region>, texts: seq<seq<byte>>, u: map<Blk, nat>,
      m: map<Blk, seq<byte>>, w: map<Blk, seq<byte>>)
    requires Shows(live, texts, m) && Placed(live, u) && forall k :: k in u ==> k in m && k in w && w[k] == m[k]
    ensures Shows(live, texts, w)
  {
  }

  lemma {:induction false} PlacedStill(live: seq<Region>, u: map<Blk, nat>, v: map<Blk, nat>)
    requires Placed(live, u) && Grown(u, v)
    ensures Placed(live, v)
  {
  }

  lemma {:induction false} PlacedMore(live: seq<Region>, u: map<Blk, nat>, a: Region, r: nat)
    requires Placed(live, u) && a.k in u && a.off == u[a.k] && a.len <= r
    ensures Placed(live + [a], u[a.k := a.off + r]) && Grown(u, u[a.k := a.off + r])
  {
  }

  lemma {:induction false} HoldsStill(t: Note, live: seq<Region>, c: seq<Blk>, u: map<Blk, nat>,
      now: seq<Region>, s: seq<Blk>, v: map<Blk, nat>)
    requires Holds(t, live, c, u) && Grown(u, v)
    requires Suffix(c, s) && |live| <= |now| && now[..|live|] == live
    ensures Holds(t, now, s, v)
  {
    SuffixTrans(t.c, c, s);
    assert forall i :: 0 <= i < t.n ==> now[i] == live[i];
  }

  lemma {:induction false} SuffixOne(c: seq<Blk>, s: seq<Blk>)
    requires s != [] && s[1..] == c
    ensures Suffix(c, s) && forall k :: k in s <==> k == s[0] || k in c
  {
    assert s == [s[0]] + c;
  }

  lemma {:induction false} SuffixSelf(s: seq<Blk>)
    ensures Suffix(s, s)
  {
  }

  lemma {:induction false} SuffixWhole(c: seq<Blk>, s: seq<Blk>)
    requires Suffix(c, s) && |c| == |s|
    ensures c == s
  {
  }

  lemma {:induction false} SuffixTrans(a: seq<Blk>, b: seq<Blk>, c: seq<Blk>)
    requires Suffix(a, b) && Suffix(b, c)
    ensures Suffix(a, c)
  {
    assert c[|c| - |a|..] == c[|c| - |b|..][|b| - |a|..];
  }

  lemma {:induction false} LinkedCons(k: Blk, head: Blk?, s: seq<Blk>)
    requires Linked(head, s) && k.nx == head && k !in s
    ensures Linked(k, [k] + s)
  {
    var t := [k] + s;
    forall i | 0 <= i < |t| ensures t[i].nx == Nth(t, i + 1) {
      assert Nth(t, i + 1) == Nth(s, i);
      if i > 0 {
        assert t[i] == s[i - 1];
      }
    }
  }

  lemma {:induction false} LinkedHead(head: Blk?, s: seq<Blk>)
    requires Linked(head, s)
    ensures head == Nth(s, 0) && (head == null <==> s == []) && (head != null ==> head in s)
  {
  }

  lemma {:induction false} LinkedTail(head: Blk?, s: seq<Blk>)
    requires Linked(head, s) && s != []
    ensures head != null && head == s[0] && Linked(s[0].nx, s[1..])
  {
    var t := s[1..];
    forall i | 0 <= i < |t| ensures t[i].nx == Nth(t, i + 1) {
      assert t[i] == s[i + 1];
      assert Nth(t, i + 1) == Nth(s, i + 2);
    }
    assert s[0].nx == Nth(s, 1) == Nth(t, 0);
  }

  lemma {:induction false} DistinctCons(k: Blk, s: seq<Blk>)
    requires Distinct(s) && k !in s
    ensures Distinct([k] + s)
  {
  }

  lemma {:induction false} DistinctTail(s: seq<Blk>)
    requires Distinct(s) && s != []
    ensures Distinct(s[1..]) && s[0] !in s[1..]
    ensures forall k :: k in s <==> k == s[0] || k in s[1..]
  {
  }

  lemma {:induction false} SuffixDistinct(c: seq<Blk>, s: seq<Blk>)
    requires Suffix(c, s) && Distinct(s)
    ensures Distinct(c)
  {
    assert forall i :: 0 <= i < |c| ==> c[i] == s[|s| - |c| + i];
  }

  lemma {:induction false} SuffixLast(c: seq<Blk>, s: seq<Blk>)
    requires Suffix(c, s) && c != []
    ensures s != [] && c[|c| - 1] == s[|s| - 1]
  {
    assert s[|s| - |c|..][|c| - 1] == s[|s| - 1];
  }

  lemma {:induction false} SuffixDown(c: seq<Blk>, s: seq<Blk>)
    requires Suffix(c, s) && s != [] && Nth(c, 0) != s[0]
    ensures Suffix(c, s[1..])
  {
    if |c| == |s| {
      SuffixWhole(c, s);
    }
    assert s[|s| - |c|..] == s[1..][|s| - 1 - |c|..];
  }

  lemma {:induction false} SuffixHead(c: seq<Blk>, s: seq<Blk>)
    requires Suffix(c, s) && Distinct(s) && Nth(c, 0) == Nth(s, 0)
    ensures c == s
  {
    assert c != [] ==> c[0] == s[|s| - |c|];
  }

  /** How far the blocks of `t` are used once it is released. */
  ghost function Rewound(t: Note, u: map<Blk, nat>): map<Blk, nat>
    requires forall k :: k in t.c ==> k in u
  {
    map k | k in t.c :: if k == t.c[0] then t.m.use else u[k]
  }

  lemma {:induction false} SuffixIn(c: seq<Blk>, s: seq<Blk>)
    requires Suffix(c, s)
    ensures forall k :: k in c ==> k in s
  {
  }

  lemma {:induction false} PlacedBack(t: Note, live: seq<Region>, s: seq<Blk>, u: map<Blk, nat>)
    requires Placed(live, u) && Holds(t, live, s, u) && forall k :: k in t.c ==> k in u
    ensures Placed(live[..t.n], Rewound(t, u))
  {
  }

  lemma {:induction false} HoldsBack(e: Note, t: Note, live: seq<Region>, s: seq<Blk>, u: map<Blk, nat>)
    requires Holds(e, live, s, u) && Holds(t, live, s, u) && (Before(e, t) || e == t) && Distinct(t.c)
    requires forall k :: k in t.c ==> k in u
    ensures Holds(e, live[..t.n], t.c, Rewound(t, u))
  {
    SuffixSelf(t.c);
    assert Suffix(e.c, t.c);
    SuffixIn(e.c, t.c);
    if e.c != [] && e.c[0] == t.c[0] {
      SuffixHead(e.c, t.c);
    }
    hide Suffix, Distinct;
  }

  /** `n` rounded up to sixteen. */
  function Round(n: nat): (r: nat)
    ensures n <= r < n + 16 && r % 16 == 0
  {
    (n + 15) / 16 * 16
  }

  /** One past the largest size_t. */
  const SIZES: nat := 0x1_0000_0000_0000_0000

  /** The rounding as 64-bit arithmetic does it. */
  function Round64(n: nat): nat {
    (n + 15) % SIZES / 16 * 16
  }

  /** It is the rounding meant for all sizes but the fifteen greatest, which come to 0. */
  lemma {:induction false} RoundFits(n: nat)
    requires n < SIZES
    ensures Round64(n) == Round(n) <==> n + 15 < SIZES
    ensures n + 15 >= SIZES ==> Round64(n) == 0
  {
    if n + 15 >= SIZES {
      assert n + 15 == SIZES + (n + 15 - SIZES);
      assert (n + 15) % SIZES == n + 15 - SIZES < 15;
    }
  }

  /** `c` doubled until it is at least `n`. */
  function Doubled(c: nat, n: nat): (r: nat)
    requires c > 0
    ensures r >= n && (r == c || c < r < 2 * n)
    decreases n - c
  {
    if c < n then Doubled(2 * c, n) else c
  }

  function Zeros(n: nat): seq<byte> {
    seq(n, _ => 0)
  }

  /** `d` with `s` written at `off`. */
  function Patch(d: seq<byte>, off: nat, s: seq<byte>): (r: seq<byte>)
    requires off + |s| <= |d|
    ensures |r| == |d|
  {
    d[..off] + s + d[off + |s|..]
  }

  lemma {:induction false} PatchKeeps(d: seq<byte>, off: nat, s: seq<byte>, x: nat, n: nat)
    requires off + |s| <= |d| && x + n <= |d| && (x + n <= off || off + |s| <= x)
    ensures Patch(d, off, s)[x..x + n] == d[x..x + n]
  {
  }

  lemma {:induction false} PatchHas(d: seq<byte>, off: nat, s: seq<byte>, n: nat)
    requires off + |s| <= |d| && n <= |s|
    ensures Patch(d, off, s)[off..off + n] == s[..n]
  {
  }

  /** Bytes written at or above `a.off` of its block disturb nothing that lies below. */
  lemma {:induction false} ClearShows(live: seq<Region>, a: Region, s: seq<byte>, texts: seq<seq<byte>>,
      m: map<Blk, seq<byte>>)
    requires a.k in m && a.off + |s| <= |m[a.k]| && a.len <= |s| && Shows(live, texts, m)
    requires forall i :: 0 <= i < |live| && live[i].k == a.k ==> live[i].off + live[i].len <= a.off
    ensures Shows(live + [a], texts + [s[..a.len]], m[a.k := Patch(m[a.k], a.off, s)])
  {
    var w := m[a.k := Patch(m[a.k], a.off, s)];
    hide Patch;
    forall i | 0 <= i < |live| + 1 ensures Text((live + [a])[i], w) == (texts + [s[..a.len]])[i] {
      if i < |live| {
        if live[i].k == a.k {
          PatchKeeps(m[a.k], a.off, s, live[i].off, live[i].len);
        }
      } else {
        PatchHas(m[a.k], a.off, s, a.len);
      }
    }
  }

  /** Every mark may be released to, the later ones first. */
  ghost predicate Noted(notes: seq<Note>, live: seq<Region>, s: seq<Blk>, u: map<Blk, nat>) {
    && (forall i :: 0 <= i < |notes| ==> Holds(notes[i], live, s, u))
    && forall i, j :: 0 <= i < j < |notes| ==> Before(notes[i], notes[j])
  }

  lemma {:induction false} NotedStill(notes: seq<Note>, live: seq<Region>, c: seq<Blk>, u: map<Blk, nat>,
      now: seq<Region>, s: seq<Blk>, v: map<Blk, nat>)
    requires Noted(notes, live, c, u) && Grown(u, v)
    requires Suffix(c, s) && |live| <= |now| && now[..|live|] == live
    ensures Noted(notes, now, s, v)
  {
    hide Holds, Before, Grown, Suffix;
    forall i | 0 <= i < |notes| ensures Holds(notes[i], now, s, v) {
      HoldsStill(notes[i], live, c, u, now, s, v);
    }
  }

  lemma {:induction false} NotedMore(notes: seq<Note>, live: seq<Region>, s: seq<Blk>, u: map<Blk, nat>, m: Mark)
    requires Noted(notes, live, s, u) && Placed(live, u) && u.Keys == set k | k in s
    requires m == Mark(Nth(s, 0), if s == [] then 0 else u[s[0]])
    ensures Noted(notes + [Note(m, s, |live|)], live, s, u)
  {
    hide Holds, Before, Placed;
    MarkHolds(live, s, u, m);
  }

  lemma {:induction false} NotedOne(notes: seq<Note>, j: nat, live: seq<Region>, s: seq<Blk>, u: map<Blk, nat>)
    requires Noted(notes, live, s, u) && j < |notes|
    ensures notes[j].n <= |live| && Suffix(notes[j].c, s) && notes[j].m.b == Nth(notes[j].c, 0)
    ensures notes[j].c != [] ==> notes[j].c[0] in u && notes[j].m.use <= u[notes[j].c[0]]
    ensures Holds(notes[j], live, s, u)
  {
  }

  lemma {:induction false} NotedBack(notes: seq<Note>, j: nat, live: seq<Region>, s: seq<Blk>, u: map<Blk, nat>)
    requires Noted(notes, live, s, u) && j < |notes| && notes[j].n <= |live|
    requires Distinct(notes[j].c) && forall k :: k in notes[j].c ==> k in u
    ensures Noted(notes[..j + 1], live[..notes[j].n], notes[j].c, Rewound(notes[j], u))
  {
    assert Holds(notes[j], live, s, u);
    hide Holds, Before, Distinct;
    forall i | 0 <= i <= j ensures Holds(notes[i], live[..notes[j].n], notes[j].c, Rewound(notes[j], u)) {
      HoldsBack(notes[i], notes[j], live, s, u);
    }
  }

  lemma {:induction false} Nothing(u: map<Blk, nat>)
    ensures Linked(null, []) && Distinct([]) && Disjoint([], []) && Sound([]) && Placed([], u) && Noted([], [], [], u)
  {
  }

  lemma {:induction false} Fits(live: seq<Region>, u: map<Blk, nat>, i: nat)
    requires i < |live| && Placed(live, u)
    ensures live[i].k in u && live[i].off + live[i].len <= u[live[i].k]
  {
  }

  lemma {:induction false} ApartOthers(live: seq<Region>, u: map<Blk, nat>, i: nat, j: nat)
    requires i < |live| && j < |live| && i != j && Placed(live, u)
    ensures Apart(live[i], live[j])
  {
  }

  /** Bytes written inside one allocation disturb no other. */
  lemma {:induction false} PutKeeps(a: Region, at: nat, s: seq<byte>, e: Region, m: map<Blk, seq<byte>>)
    requires a.k in m && at + |s| <= a.len && a.off + a.len <= |m[a.k]| && Apart(a, e)
    ensures Text(e, m[a.k := Patch(m[a.k], a.off + at, s)]) == Text(e, m)
  {
    if e.k == a.k && e.off + e.len <= |m[a.k]| {
      PatchKeeps(m[a.k], a.off + at, s, e.off, e.len);
    }
    hide Patch;
  }

  lemma {:induction false} PutHas(a: Region, at: nat, s: seq<byte>, m: map<Blk, seq<byte>>)
    requires a.k in m && at + |s| <= a.len && a.off + a.len <= |m[a.k]|
    ensures Text(a, m[a.k := Patch(m[a.k], a.off + at, s)]) == Patch(Text(a, m), at, s)
  {
    PatchInside(m[a.k], a.off, a.len, at, s);
    hide Patch;
  }

  lemma {:induction false} PutShows(live: seq<Region>, u: map<Blk, nat>, i: nat, at: nat, s: seq<byte>,
      texts: seq<seq<byte>>, m: map<Blk, seq<byte>>)
    requires i < |live| && at + |s| <= live[i].len && Shows(live, texts, m) && Placed(live, u)
    requires live[i].k in m && u[live[i].k] <= |m[live[i].k]|
    ensures |texts[i]| == live[i].len
    ensures Shows(live, texts[i := Patch(texts[i], at, s)],
                  m[live[i].k := Patch(m[live[i].k], live[i].off + at, s)])
  {
    Fits(live, u, i);
    hide Patch, Placed;
    var w := m[live[i].k := Patch(m[live[i].k], live[i].off + at, s)];
    assert Text(live[i], m) == texts[i] && |texts[i]| == live[i].len;
    PutHas(live[i], at, s, m);
    hide Text;
    forall j | 0 <= j < |live| ensures Text(live[j], w) == texts[i := Patch(texts[i], at, s)][j] {
      if j != i {
        ApartOthers(live, u, i, j);
        PutKeeps(live[i], at, s, live[j], m);
      }
    }
  }

  lemma {:induction false} PatchInside(d: seq<byte>, off: nat, n: nat, at: nat, s: seq<byte>)
    requires at + |s| <= n && off + n <= |d|
    ensures Patch(d, off + at, s)[off..off + n] == Patch(d[off..off + n], at, s)
  {
  }

  lemma {:induction false} MarkHolds(live: seq<Region>, s: seq<Blk>, u: map<Blk, nat>, m: Mark)
    requires Placed(live, u) && u.Keys == set k | k in s
    requires m == Mark(Nth(s, 0), if s == [] then 0 else u[s[0]])
    ensures Holds(Note(m, s, |live|), live, s, u)
    ensures forall e :: Holds(e, live, s, u) ==> Before(e, Note(m, s, |live|))
  {
    SuffixSelf(s);
  }

  class Arena {
    const ch: nat
    var b: Blk?
    var fr: Blk?
    var nfr: nat
    ghost var chain: seq<Blk>
    ghost var spare: seq<Blk>
    ghost var live: seq<Region>
    ghost var notes: seq<Note>

    constructor (ch: nat)
      requires ch > 0
      ensures Valid() && chain == [] && spare == [] && live == [] && notes == [] && this.ch == ch
    {
      hide Linked, Distinct, Disjoint, Sound, Placed, Noted;
      Nothing(map[]);
      this.ch := ch;
      b, fr, nfr := null, null, 0;
      chain, spare, live, notes := [], [], [], [];
      new;
      assert Uses([]) == map[];
    }

    /** The arena's blocks, in use or spare. */
    ghost function Blocks(): set<Blk>
      reads this`chain, this`spare
    {
      (set k | k in chain) + (set k | k in spare)
    }

    /** The blocks in use: a list without repetition, none filled beyond its capacity. */
    ghost predicate Chained()
      reads this`b, this`chain, chain
    {
      Linked(b, chain) && Distinct(chain) && Sound(chain)
    }

    /** The spare list: exactly `nfr` different blocks, at most four, none larger than the arena's own size. */
    ghost predicate Spares()
      reads this`fr, this`nfr, this`spare, spare`nx, spare`d
    {
      && Linked(fr, spare) && Distinct(spare) && nfr == |spare| <= KEEP
      && forall k :: k in spare ==> |k.d| == k.cap <= ch
    }

    ghost predicate Marked()
      reads this, chain`use
    {
      Noted(notes, live, chain, Uses(chain))
    }

    ghost predicate Lists()
      reads this`b, this`chain, this`fr, this`nfr, this`spare, chain, spare
    {
      ch > 0 && Chained() && Spares() && Disjoint(chain, spare)
    }

    ghost predicate Valid()
      reads this, chain, spare
    {
      Lists() && Placed(live, Uses(chain)) && Marked()
    }

    lemma {:induction false} Head()
      requires Lists()
      ensures b == Nth(chain, 0) && (b == null <==> chain == []) && (b != null ==> b in chain)
    {
      LinkedHead(b, chain);
    }

    lemma {:induction false} Heads()
      requires Valid()
      ensures b == Nth(chain, 0) && Distinct(chain)
    {
      Head();
    }

    /** A block that is nowhere yet is put at the head of the chain. */
    method LinkFront(k: Blk)
      requires Lists() && k !in chain && k !in spare && |k.d| == k.cap
      modifies this`b, this`chain, k`use, k`nx
      ensures Lists() && chain == [k] + old(chain) && k.use == 0
    {
      hide Linked, Distinct;
      DistinctCons(k, chain);
      k.use := 0;
      k.nx := b;
      assert Linked(b, chain);
      LinkedCons(k, b, chain);
      b := k;
      chain := [k] + chain;
    }

    /** The first spare block is taken off its list. */
    method TakeSpare() returns (k: Blk)
      requires Lists() && fr != null
      modifies this`fr, this`nfr, this`spare
      ensures Lists() && old(spare) != [] && spare == old(spare)[1..] && k == old(spare)[0]
      ensures k !in chain && k !in spare && |k.d| == k.cap && k == old(fr)
    {
      hide Linked, Distinct;
      LinkedHead(fr, spare);
      LinkedTail(fr, spare);
      DistinctTail(spare);
      k := fr;
      fr := k.nx;
      nfr := nfr - 1;
      spare := spare[1..];
    }

    /** The arena's own size doubled until it is enough. */
    method Size(n: nat) returns (c: nat)
      requires ch > 0
      ensures c == Doubled(ch, n)
    {
      c := ch;
      while c < n
        invariant c > 0 && Doubled(c, n) == Doubled(ch, n)
        decreases n - c
      {
        c := c * 2;
      }
    }

    /** ar_blk's choice of block: the first spare one if it is big enough, or else a fresh one. */
    method Front(n: nat)
      requires Lists()
      modifies this`b, this`fr, this`nfr, this`chain, this`spare, spare`use, spare`nx
      ensures Lists() && chain != [] && chain[1..] == old(chain) && b.use == 0 && b.cap >= n
      ensures forall c :: c in old(chain) ==> c.use == old(c.use)
      ensures if old(fr) != null && old(fr).cap >= n then b == old(fr) && [b] + spare == old(spare)
              else fresh(b) && spare == old(spare) && b.cap == Doubled(ch, n)
      ensures fresh(Blocks() - old(Blocks()))
    {
      hide Linked, Distinct, Sound;
      var k: Blk;
      if fr != null && fr.cap >= n {
        k := TakeSpare();
      } else {
        var c := Size(n);
        k := new Blk(c);
      }
      LinkFront(k);
      assert b == chain[0] by {
        LinkedHead(b, chain);
      }
    }

    /** ar_blk: what is live, and every mark, survives a new block at the head of the chain. */
    method Push(n: nat)
      requires Valid()
      modifies this`b, this`fr, this`nfr, this`chain, this`spare, spare`use, spare`nx
      ensures Valid() && chain != [] && chain[1..] == old(chain) && b.use == 0 && b.cap >= n
      ensures fresh(Blocks() - old(Blocks()))
    {
      ghost var u := Uses(chain);
      Front(n);
      hide Placed, Noted, Lists, Suffix;
      ghost var was := old(chain);
      assert Suffix(was, chain) by {
        SuffixOne(was, chain);
      }
      PlacedStill(live, u, Uses(chain));
      NotedStill(notes, live, was, u, live, chain, Uses(chain));
    }

    /** The next `r` bytes of the newest block are taken, `n` of them for the caller. */
    method Bump(n: nat, r: nat) returns (a: Region)
      requires Valid() && b != null && n <= r && b.cap - b.use >= r
      modifies b`use, this`live
      ensures Valid() && a == Region(b, old(b.use), n) && live == old(live) + [a] && b.use == old(b.use) + r
    {
      hide Linked, Noted, Distinct, Suffix, Placed, Grown;
      LinkedHead(b, chain);
      ghost var u, was := Uses(chain), live;
      a := Region(b, b.use, n);
      b.use := b.use + r;
      live := live + [a];
      SuffixSelf(chain);
      PlacedMore(was, u, a, r);
      assert Uses(chain) == u[b := b.use];
      NotedStill(notes, was, chain, u, live, chain, Uses(chain));
    }

    /** What the live allocations hold. */
    ghost predicate Texts(texts: seq<seq<byte>>)
      reads this, chain`d
    {
      Shows(live, texts, Data(chain))
    }

    /** Every text is as long as its allocation. */
    lemma {:induction false} Lengths(texts: seq<seq<byte>>)
      requires Valid() && Texts(texts)
      ensures |texts| == |live| && forall i :: 0 <= i < |live| ==> |texts[i]| == live[i].len
    {
      ghost var u := Uses(chain);
      hide Linked, Distinct, Marked, Placed;
      forall i | 0 <= i < |live| ensures |texts[i]| == live[i].len {
        Fits(live, u, i);
      }
    }

    /** ar_raw: `n` bytes, rounded up, above everything that was ever given out of their block; nothing that is
        live changes. */
    method Raw(n: nat, ghost texts: seq<seq<byte>>) returns (a: Region)
      requires Valid() && Texts(texts)
      modifies this`b, this`fr, this`nfr, this`chain, this`spare, this`live, chain`use, spare`use, spare`nx
      ensures Valid() && a.len == n && live == old(live) + [a]
      ensures a.k in chain && a.off + Round(n) <= |a.k.d|
      ensures a.k == b && b.use == a.off + Round(n)
      ensures if old(b != null && b.cap - b.use >= Round(n))
              then chain == old(chain) && b == old(b) && a.off == old(b.use)
              else chain != [] && chain[1..] == old(chain) && a.off == 0
      ensures fresh(a.k) || a.k in old(chain) || a.k in old(spare)
      ensures Shows(old(live), texts, Data(chain))
      ensures forall i :: 0 <= i < |old(live)| && old(live)[i].k == a.k ==>
                old(live)[i].off + old(live)[i].len <= a.off
      ensures fresh(Blocks() - old(Blocks()))
    {
      hide Linked, Distinct, Marked, Spares, Shows, Disjoint, Placed;
      ghost var u, m := Uses(chain), Data(chain);
      var r := Round(n);
      if b == null || b.cap - b.use < r {
        Push(r);
      }
      ShowsGrown(live, texts, u, m, Data(chain));
      LinkedHead(b, chain);
      forall i | 0 <= i < |live| && live[i].k == b ensures live[i].off + live[i].len <= b.use {
        Fits(live, Uses(chain), i);
      }
      a := Bump(n, r);
    }

    /** Bytes are written at `off` of a block of the chain. */
    method Poke(k: Blk, off: nat, s: seq<byte>)
      requires Valid() && k in chain && off + |s| <= |k.d|
      modifies k`d
      ensures Valid() && Data(chain) == old(Data(chain)[k := Patch(k.d, off, s)])
    {
      hide Linked, Distinct, Marked, Placed;
      k.d := Patch(k.d, off, s);
    }

    /** What was given out last is written for the first time. */
    method Clear(a: Region, s: seq<byte>, ghost texts: seq<seq<byte>>)
      requires Valid() && a.k in chain && a.off + |s| <= |a.k.d| && live != [] && a == live[|live| - 1]
      requires Shows(live[..|live| - 1], texts, Data(chain)) && a.len <= |s|
      requires forall i :: 0 <= i < |live| - 1 && live[i].k == a.k ==> live[i].off + live[i].len <= a.off
      modifies a.k`d
      ensures Valid() && Texts(texts + [s[..a.len]])
    {
      hide Shows, Valid, Patch;
      ghost var was, m := live[..|live| - 1], Data(chain);
      ClearShows(was, a, s, texts, m);
      Poke(a.k, a.off, s);
      assert live == was + [a];
      assert Data(chain) == m[a.k := Patch(m[a.k], a.off, s)];
    }

    /** ar_alloc: the new allocation is zero, every other one is as it was. */
    method Alloc(n: nat, ghost texts: seq<seq<byte>>) returns (a: Region)
      requires Valid() && Texts(texts)
      modifies this`b, this`fr, this`nfr, this`chain, this`spare, this`live
      modifies chain`use, spare`use, spare`nx, chain`d, spare`d
      ensures Valid() && a.len == n && live == old(live) + [a]
      ensures Texts(texts + [Zeros(n)])
      ensures fresh(Blocks() - old(Blocks()))
    {
      var z := Zeros(Round(n));
      assert |z| == Round(n) && z[..n] == Zeros(n);
      hide Valid, Texts, Shows, Zeros, Placed, Uses;
      a := Raw(n, texts);
      assert live[..|live| - 1] == old(live);
      Clear(a, z, texts);
    }

    /** ar_dup: the new allocation holds the text and a zero byte, every other one is as it was. */
    method Dup(s: seq<byte>, ghost texts: seq<seq<byte>>) returns (a: Region)
      requires Valid() && Texts(texts)
      modifies this`b, this`fr, this`nfr, this`chain, this`spare, this`live
      modifies chain`use, spare`use, spare`nx, chain`d, spare`d
      ensures Valid() && a.len == |s| + 1 && live == old(live) + [a]
      ensures Texts(texts + [s + [0]])
      ensures fresh(Blocks() - old(Blocks()))
    {
      var z := s + [0];
      assert |z| == |s| + 1 && z[..|s| + 1] == z;
      hide Valid, Texts, Shows;
      a := Raw(|s| + 1, texts);
      assert live[..|live| - 1] == old(live);
      Clear(a, z, texts);
    }

    /** The owner of an allocation writes inside it: every other one is as it was. */
    method Put(i: nat, at: nat, s: seq<byte>, ghost texts: seq<seq<byte>>, a: Region)
      requires Valid() && Texts(texts) && i < |live| && a == live[i] && at + |s| <= a.len
      modifies chain`d
      ensures Valid() && |texts[i]| == a.len && Texts(texts[i := Patch(texts[i], at, s)])
    {
      PutShows(live, Uses(chain), i, at, s, texts, Data(chain));
      hide Shows, Placed, Linked, Distinct, Marked, Patch;
      Poke(a.k, a.off + at, s);
    }

    lemma {:induction false} MarkNow()
      requires Valid()
      ensures Noted(notes + [Note(Mark(b, if b == null then 0 else b.use), chain, |live|)], live, chain, Uses(chain))
    {
      Head();
      hide Chained, Placed, Noted, Lists;
      NotedMore(notes, live, chain, Uses(chain), Mark(b, if b == null then 0 else b.use));
    }

    /** ar_mark: the newest block and how far it is used. */
    method TakeMark() returns (m: Mark)
      requires Valid()
      modifies this`notes
      ensures Valid() && m == Mark(b, if b == null then 0 else b.use)
      ensures notes == old(notes) + [Note(m, chain, |live|)]
    {
      MarkNow();
      hide Placed, Noted, Lists, Uses;
      m := Mark(b, if b == null then 0 else b.use);
      notes := notes + [Note(m, chain, |live|)];
    }

    /** ar_drop: a released block is kept for later, if there is room for it and it is no larger than most. */
    method Drop(k: Blk)
      requires Spares() && k !in spare && |k.d| == k.cap
      modifies this`fr, this`nfr, this`spare, k`nx
      ensures Spares() && spare == if old(nfr) < KEEP && k.cap <= ch then [k] + old(spare) else old(spare)
    {
      hide Linked, Distinct;
      if nfr < KEEP && k.cap <= ch {
        DistinctCons(k, spare);
        k.nx := fr;
        LinkedCons(k, fr, spare);
        fr := k;
        nfr := nfr + 1;
        spare := [k] + spare;
      }
    }

    /** The newest block leaves the chain. */
    method Pop()
      requires Lists() && b != null
      modifies this`b, this`chain, this`fr, this`nfr, this`spare, b`nx
      ensures Lists() && old(chain) != [] && chain == old(chain)[1..]
      ensures spare == if old(nfr) < KEEP && old(b).cap <= ch then [old(b)] + old(spare) else old(spare)
      ensures Blocks() <= old(Blocks())
    {
      hide Linked, Distinct;
      LinkedHead(b, chain);
      LinkedTail(b, chain);
      DistinctTail(chain);
      var n := b.nx;
      Drop(b);
      b := n;
      chain := chain[1..];
    }

    /** The blocks down to `end`, which heads the tail `c` of the chain, leave it. */
    method PopTo(end: Blk?, ghost c: seq<Blk>)
      requires Lists() && Suffix(c, chain) && end == Nth(c, 0)
      modifies this`b, this`chain, this`fr, this`nfr, this`spare, chain`nx
      ensures Lists() && chain == c
      ensures Blocks() <= old(Blocks())
    {
      hide Linked, Distinct;
      ghost var was := chain;
      SuffixSelf(was);
      LinkedHead(b, chain);
      while b != null && b != end
        invariant Lists() && Suffix(c, chain) && Suffix(chain, was) && b == Nth(chain, 0)
        invariant Blocks() <= old(Blocks())
        invariant b == null <==> chain == []
        decreases |chain|
      {
        SuffixIn(chain, was);
        SuffixDown(c, chain);
        SuffixOne(chain[1..], chain);
        SuffixTrans(chain[1..], chain, was);
        Pop();
        LinkedHead(b, chain);
      }
      SuffixHead(c, chain);
    }

    /** The newest block is used as far as the mark says. */
    method Rewind(m: Mark, ghost t: Note, ghost u: map<Blk, nat>)
      requires Lists() && chain == t.c && (b != null ==> m.use <= b.use) && m == t.m
      requires forall k :: k in chain ==> k in u && u[k] == k.use
      modifies chain`use
      ensures Lists() && Uses(chain) == Rewound(t, u) && (b != null ==> b.use == m.use)
    {
      hide Linked, Distinct, Spares;
      LinkedHead(b, chain);
      if b != null {
        b.use := m.use;
      }
    }

    /** The chain and its offset go back to the mark. */
    method BackTo(m: Mark, ghost t: Note, ghost u: map<Blk, nat>)
      requires Lists() && Suffix(t.c, chain) && m == t.m && m.b == Nth(t.c, 0) && u == Uses(chain)
      requires (forall k :: k in t.c ==> k in chain) && (t.c != [] ==> m.use <= t.c[0].use)
      modifies this`b, this`chain, this`fr, this`nfr, this`spare, chain`nx, chain`use
      ensures Lists() && chain == t.c && b == m.b && (b != null ==> b.use == m.use) && Uses(chain) == Rewound(t, u)
      ensures Blocks() <= old(Blocks())
    {
      hide Chained, Spares, Disjoint, Rewound;
      PopTo(m.b, t.c);
      Head();
      Rewind(m, t, u);
    }

    lemma {:induction false} BackNow(j: nat)
      requires Valid() && j < |notes|
      ensures var t := notes[j];
              && t.n <= |live| && Suffix(t.c, chain) && t.m.b == Nth(t.c, 0)
              && (forall k :: k in t.c ==> k in chain) && (t.c != [] ==> t.m.use <= t.c[0].use)
              && Placed(live[..t.n], Rewound(t, Uses(chain)))
              && Noted(notes[..j + 1], live[..t.n], t.c, Rewound(t, Uses(chain)))
    {
      var t, u := notes[j], Uses(chain);
      NotedOne(notes, j, live, chain, u);
      hide Linked, Spares, Sound, Disjoint, Placed, Noted, Holds, Suffix, Rewound, Distinct;
      SuffixIn(t.c, chain);
      SuffixDistinct(t.c, chain);
      PlacedBack(t, live, chain, u);
      NotedBack(notes, j, live, chain, u);
    }

    /** ar_rel: the chain, the newest block's offset and what is live are again what they were at the mark. */
    method Release(m: Mark, ghost j: nat)
      requires Valid() && j < |notes| && notes[j].m == m
      modifies this`b, this`chain, this`fr, this`nfr, this`spare, this`live, this`notes, chain`nx, chain`use
      ensures Valid() && b == m.b && (b != null ==> b.use == m.use)
      ensures j < |old(notes)| && old(notes)[j].n <= |old(live)|
      ensures chain == old(notes)[j].c && live == old(live)[..old(notes)[j].n] && notes == old(notes)[..j + 1]
      ensures forall k :: k in chain ==> k in old(chain)
      ensures Blocks() <= old(Blocks())
    {
      hide Placed, Noted, Suffix, Rewound, Lists, Uses, Linked, Distinct, Disjoint, Sound;
      ghost var t, u := notes[j], Uses(chain);
      BackNow(j);
      BackTo(m, t, u);
      live := live[..t.n];
      notes := notes[..j + 1];
    }

    /** The newest block is empty, and nothing is live. */
    method Empty()
      requires Lists()
      modifies this`live, this`notes, chain`use
      ensures Valid() && live == [] && notes == [] && (b != null ==> b.use == 0)
    {
      hide Linked, Distinct, Spares, Disjoint;
      LinkedHead(b, chain);
      if b != null {
        b.use := 0;
      }
      live, notes := [], [];
    }

    /** ar_reset: nothing is live, and of the chain only the block that was linked first is left, empty. */
    method Reset()
      requires Valid()
      modifies this`b, this`chain, this`fr, this`nfr, this`spare, this`live, this`notes, chain`nx, chain`use
      ensures Valid() && live == [] && notes == [] && (b != null ==> b.use == 0)
      ensures chain == if old(chain) == [] then [] else [old(chain)[|old(chain)| - 1]]
      ensures Blocks() <= old(Blocks())
    {
      ghost var was := chain;
      SuffixSelf(was);
      LinkedHead(b, chain);
      hide Linked, Distinct, Spares, Sound, Disjoint, Suffix, Placed, Noted;
      while b != null && b.nx != null
        invariant Lists() && b == Nth(chain, 0) && (b == null <==> chain == [])
        invariant Suffix(chain, was) && (was != [] ==> chain != [])
        invariant Blocks() <= old(Blocks())
        decreases |chain|
      {
        SuffixIn(chain, was);
        SuffixOne(chain[1..], chain);
        SuffixTrans(chain[1..], chain, was);
        LinkedTail(b, chain);
        LinkedHead(b.nx, chain[1..]);
        Pop();
        LinkedHead(b, chain);
      }
      if b != null {
        LinkedTail(b, chain);
        LinkedHead(b.nx, chain[1..]);
        SuffixLast(chain, was);
      }
      Empty();
    }
  }

  /** What a caller may ask of an arena. */
  datatype Cmd = Get(n: nat) | Copy(s: seq<byte>) | Write(i: nat, at: nat, s: seq<byte>) | Pin | Free(j: nat) | Clear

  /** The arena as its callers think of it: independent buffers in the order they were asked for, and for every
      mark how many there were. */
  datatype Store = Store(texts: seq<seq<byte>>, counts: seq<nat>)

  ghost function Did(c: Cmd, s: Store): Store {
    match c
    case Get(n) => s.(texts := s.texts + [Zeros(n)])
    case Copy(t) => s.(texts := s.texts + [t + [0]])
    case Write(i, at, t) =>
      if i < |s.texts| && at + |t| <= |s.texts[i]| then s.(texts := s.texts[i := Patch(s.texts[i], at, t)]) else s
    case Pin => s.(counts := s.counts + [|s.texts|])
    case Free(j) =>
      if j < |s.counts| && s.counts[j] <= |s.texts| then Store(s.texts[..s.counts[j]], s.counts[..j + 1]) else s
    case Clear => Store([], [])
  }

  ghost function DidAll(cs: seq<Cmd>): Store {
    if cs == [] then Store([], []) else Did(cs[|cs| - 1], DidAll(cs[..|cs| - 1]))
  }

  /** What a caller keeps: the handles it was given, and its marks with how many handles it had. */
  datatype Caller = Caller(live: seq<Region>, marks: seq<Mark>, counts: seq<nat>)

  /** The arena is the store: the handles and marks given out are the live ones, and the bytes are its texts. */
  ghost predicate Agrees(a: Arena, h: Caller, s: Store)
    reads a, a.chain`d
  {
    && a.live == h.live && a.Texts(s.texts) && h.counts == s.counts && |a.notes| == |h.marks| == |h.counts|
    && forall j :: 0 <= j < |h.marks| ==> a.notes[j].m == h.marks[j] && a.notes[j].n == h.counts[j]
  }

  /** What a release leaves holds what it held. */
  method Back(a: Arena, j: nat, h: Caller, ghost s: Store) returns (g: Caller)
    requires a.Valid() && Agrees(a, h, s) && j < |h.marks|
    modifies a, a.Blocks()
    ensures a.Valid() && s.counts[j] <= |s.texts| && Agrees(a, g, Store(s.texts[..s.counts[j]], s.counts[..j + 1]))
    ensures a.Blocks() <= old(a.Blocks())
  {
    hide Shows, Arena.Lists, Arena.Marked, Placed;
    ghost var m := Data(a.chain);
    a.Lengths(s.texts);
    a.Release(h.marks[j], j);
    ghost var n := h.counts[j];
    ShowsTake(h.live, s.texts, n, m);
    ShowsGrown(h.live[..n], s.texts[..n], Uses(a.chain), m, Data(a.chain));
    g := Caller(h.live[..h.counts[j]], h.marks[..j + 1], h.counts[..j + 1]);
  }

  /** A mark is taken. */
  method Pinned(a: Arena, h: Caller, ghost s: Store) returns (g: Caller)
    requires a.Valid() && Agrees(a, h, s)
    modifies a
    ensures a.Valid() && Agrees(a, g, Did(Pin, s)) && a.Blocks() == old(a.Blocks())
  {
    hide Shows, Arena.Valid;
    assert |s.texts| == |h.live| by {
      a.Lengths(s.texts);
    }
    var m := a.TakeMark();
    g := h.(marks := h.marks + [m], counts := h.counts + [|h.live|]);
  }

  /** One command: the arena does what the store does. */
  method Step(a: Arena, c: Cmd, h: Caller, ghost s: Store) returns (g: Caller)
    requires a.Valid() && Agrees(a, h, s)
    modifies a, a.Blocks()
    ensures a.Valid() && Agrees(a, g, Did(c, s))
    ensures fresh(a.Blocks() - old(a.Blocks()))
  {
    hide Patch, Zeros, Shows, Arena.Lists, Arena.Marked, Placed;
    g := h;
    a.Lengths(s.texts);
    match c
    case Get(n) =>
      var r := a.Alloc(n, s.texts);
      g := h.(live := h.live + [r]);
    case Copy(t) =>
      var r := a.Dup(t, s.texts);
      g := h.(live := h.live + [r]);
    case Write(i, at, t) =>
      if i < |h.live| && at + |t| <= h.live[i].len {
        a.Put(i, at, t, s.texts, h.live[i]);
      }
    case Pin =>
      g := Pinned(a, h, s);
    case Free(j) =>
      if j < |h.marks| {
        g := Back(a, j, h, s);
      }
    case Clear =>
      a.Reset();
      ShowsNone(Data(a.chain));
      g := Caller([], [], []);
  }

  lemma {:induction false} Start(a: Arena)
    requires a.live == [] && a.notes == []
    ensures Agrees(a, Caller([], [], []), DidAll([]))
  {
  }

  /** Over any run, every live buffer holds what was written to it and nothing else. */
  method Run(ch: nat, cs: seq<Cmd>) returns (a: Arena, h: Caller)
    requires ch > 0
    ensures a.Valid() && Agrees(a, h, DidAll(cs))
  {
    hide Arena.Valid, Did, Agrees;
    a := new Arena(ch);
    Start(a);
    h := Caller([], [], []);
    for i := 0 to |cs|
      invariant a.Valid() && Agrees(a, h, DidAll(cs[..i]))
      invariant fresh(a) && fresh(a.Blocks())
    {
      assert cs[..i + 1][..i] == cs[..i];
      h := Step(a, cs[i], h, DidAll(cs[..i]));
    }
    assert cs[..|cs|] == cs;
  }

  /** The block a reset keeps is the newest one exactly when there is no other. */
  lemma {:induction false} ResetKeeps(chain: seq<Blk>)
    requires Distinct(chain) && chain != []
    ensures chain[|chain| - 1] == chain[0] <==> |chain| == 1
  {
  }

  /** With two blocks the newest one is not the one that is kept. */
  method ResetExample(ch: nat) returns (a: Arena, newest: Blk?)
    requires ch > 0
    ensures a.Valid() && newest != null && a.b != null && a.b != newest
  {
    hide Arena.Valid, Distinct;
    a := new Arena(ch);
    a.Push(16);
    a.Push(16);
    newest := a.b;
    a.Heads();
    ResetKeeps(a.chain);
    a.Reset();
    a.Heads();
  }
}
