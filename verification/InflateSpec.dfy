/** What inf_raw computes, as functions on the bits of its input: every branch and every
    error of the decoder, without its buffer and its tables. `None` is a damaged stream. */
module InflateSpec {
  import opened Bits
  import opened Canonical
  import opened Runs
  import opened Tables
  import opened Stream

  /** The next bit to read, and what has been read so far: bytes of text, or code lengths. */
  datatype State<T> = State(p: nat, out: seq<T>)

  /** What one turn of a decoding loop comes to. */
  datatype Turn<T> = Bad | More(st: State<T>) | Done(st: State<T>)

  /** A decoding loop: turns are taken until one is done or bad. Every turn reads something. */
  ghost function Loop<T>(turn: State<T> -> Turn<T>, st: State<T>, end: nat): (r: Option<State<T>>)
    requires st.p <= end
    ensures r.Some? ==> st.p <= r.value.p <= end
    decreases end - st.p
  {
    match turn(st)
    case Bad => None
    case Done(s) => if st.p <= s.p <= end then Some(s) else None
    case More(s) => if st.p < s.p <= end then Loop(turn, s, end) else None
  }

  /** A run of turns is passed over. */
  lemma {:induction false} LoopPath<T>(turn: State<T> -> Turn<T>, path: seq<State<T>>, end: nat)
    requires path != [] && path[0].p <= end
    requires forall i :: 0 <= i < |path| - 1 ==> Leads(turn, path[i], path[i + 1], end)
    ensures path[|path| - 1].p <= end
    ensures Loop(turn, path[0], end) == Loop(turn, path[|path| - 1], end)
  {
    if |path| > 1 {
      assert Leads(turn, path[0], path[1], end);
      LoopPath(turn, path[1..], end);
    }
  }

  ghost predicate Leads<T>(turn: State<T> -> Turn<T>, s: State<T>, t: State<T>, end: nat) {
    s.p < t.p <= end && turn(s) == More(t)
  }

  function Zeros(n: nat): (z: seq<nat>)
    ensures |z| == n && forall i :: 0 <= i < n ==> z[i] == 0
  {
    seq(n, _ => 0)
  }

  /** A code as the thing that reads symbols: at a position, a symbol and where it ends. */
  type Reader = nat -> Option<(nat, nat)>

  ghost function ReadSym(lens: seq<nat>, bits: seq<bool>, p: nat): Option<(nat, nat)> {
    match SymAt(lens, bits, p)
    case None => None
    case Some(s) => Some((s, p + lens[s]))
  }

  ghost function CodeReader(lens: seq<nat>, bits: seq<bool>): Reader {
    (p: nat) => ReadSym(lens, bits, p)
  }

  // ---- inf_codes ----

  /** After symbol `s`, which ends at `q`: a literal (below 256), the end of the block (256), or a
      length `n` with its extra bits (256 + n). */
  ghost function LengthAt(bits: seq<bool>, s: nat, q: nat): Option<(nat, nat)> {
    if s <= 256 then Some((s, q))
    else if s - 257 >= 29 || q + LExt(s - 257) > |bits| then None
    else Some((256 + LBase(s - 257) + Field(bits, q, LExt(s - 257)), q + LExt(s - 257)))
  }

  ghost function LitLenReader(cr: Reader, bits: seq<bool>): Reader {
    (p: nat) =>
      match cr(p)
      case None => None
      case Some((s, q)) => LengthAt(bits, s, q)
  }

  ghost function DistanceAt(bits: seq<bool>, s: nat, q: nat): Option<(nat, nat)> {
    if s >= 30 || q + DExt(s) > |bits| then None
    else Some((DBase(s) + Field(bits, q, DExt(s)), q + DExt(s)))
  }

  ghost function DistReader(cr: Reader, bits: seq<bool>): Reader {
    (p: nat) =>
      match cr(p)
      case None => None
      case Some((s, q)) => DistanceAt(bits, s, q)
  }

  /** A distance follows a length; the match they name is copied. */
  ghost function MatchTurn(dr: Reader, p: nat, len: nat, out: seq<byte>, max: nat): (r: Turn<byte>) {
    match dr(p)
    case None => Bad
    case Some((dist, q)) =>
      if dist == 0 || dist > |out| || |out| + len > max then Bad
      else More(State(q, Copied(out, dist, len)))
  }

  /** One literal, one match, or the end of the block. */
  ghost function SymbolTurn(lr: Reader, dr: Reader, p: nat, out: seq<byte>, max: nat): (r: Turn<byte>) {
    match lr(p)
    case None => Bad
    case Some((v, q)) =>
      if v < 256 then
        if |out| >= max then Bad else More(State(q, out + [v]))
      else if v == 256 then Done(State(q, out))
      else MatchTurn(dr, q, v - 256, out, max)
  }

  ghost function SymbolTurns(lr: Reader, dr: Reader, max: nat): State<byte> -> Turn<byte> {
    (st: State<byte>) => SymbolTurn(lr, dr, st.p, st.out, max)
  }

  /** Literals and matches up to the end-of-block symbol. */
  ghost function Symbols(lr: Reader, dr: Reader, bits: seq<bool>, p: nat, out: seq<byte>, max: nat): (r: Option<State<byte>>)
    requires p <= |bits|
    ensures r.Some? ==> p <= r.value.p <= |bits|
  {
    Loop(SymbolTurns(lr, dr, max), State(p, out), |bits|)
  }

  /** The same, with the canonical codes of the given lengths. */
  ghost function BlockSymbols(llen: seq<nat>, dlen: seq<nat>, bits: seq<bool>, p: nat, out: seq<byte>, max: nat): (r: Option<State<byte>>)
    requires p <= |bits|
    ensures r.Some? ==> p <= r.value.p <= |bits|
  {
    Symbols(LitLenReader(CodeReader(llen, bits), bits), DistReader(CodeReader(dlen, bits), bits), bits, p, out, max)
  }

  // ---- inf_dynamic ----

  /** The first `k` code-length code lengths. */
  ghost function Clens(bits: seq<bool>, p: nat, k: nat): (c: seq<nat>)
    requires p + 3 * k <= |bits| && k <= 19
    ensures |c| == 19
  {
    if k == 0 then Zeros(19)
    else Clens(bits, p, k - 1)[Ord(k - 1) := Field(bits, p + 3 * (k - 1), 3)]
  }

  /** How many lengths a repeat symbol covers before its extra bits, and how many extra bits it has. */
  function RepeatBase(s: nat): nat { if s == 16 || s == 17 then 3 else 11 }
  function RepeatBits(s: nat): nat { if s == 16 then 2 else if s == 17 then 3 else 7 }

  /** After repeat symbol `s`, which ends at `q`: the last length again, or zeros. */
  ghost function RepeatAt(bits: seq<bool>, s: nat, q: nat, acc: seq<nat>, total: nat): (r: Turn<nat>) {
    if (s == 16 && acc == []) || q + RepeatBits(s) > |bits| then Bad
    else
      var n := RepeatBase(s) + Field(bits, q, RepeatBits(s));
      if |acc| + n > total then Bad
      else More(State(q + RepeatBits(s), acc + Rep(if s == 16 then acc[|acc| - 1] else 0, n)))
  }

  /** One code-length symbol, a length or a repeat, until there are `total` lengths. */
  ghost function LensTurn(cr: Reader, bits: seq<bool>, p: nat, acc: seq<nat>, total: nat): (r: Turn<nat>) {
    if |acc| >= total then Done(State(p, acc))
    else
      match cr(p)
      case None => Bad
      case Some((s, q)) => if s < 16 then More(State(q, acc + [s])) else RepeatAt(bits, s, q, acc, total)
  }

  ghost function LensTurns(cr: Reader, bits: seq<bool>, total: nat): State<nat> -> Turn<nat> {
    (st: State<nat>) => LensTurn(cr, bits, st.p, st.out, total)
  }

  /** Code lengths read until there are `total` of them. */
  ghost function Lens(cr: Reader, bits: seq<bool>, p: nat, acc: seq<nat>, total: nat): (r: Option<State<nat>>)
    requires p <= |bits|
    ensures r.Some? ==> p <= r.value.p <= |bits|
  {
    Loop(LensTurns(cr, bits, total), State(p, acc), |bits|)
  }

  /** inf_build answers 0: nothing is left over, or nothing has a code. */
  ghost predicate Usable(lens: seq<nat>) {
    Complete(lens) || Count(lens, 0) == |lens|
  }

  /** The code-length code, `ncode` of whose lengths are sent, and the `total` lengths coded with it. */
  ghost function ReadLens(bits: seq<bool>, p: nat, ncode: nat, total: nat): (r: Option<State<nat>>)
    requires ncode <= 19
    ensures r.Some? ==> p <= r.value.p <= |bits|
  {
    if p + 3 * ncode > |bits| then None
    else
      var clen := Clens(bits, p, ncode);
      if Usable(clen) then Lens(CodeReader(clen, bits), bits, p + 3 * ncode, [], total)
      else None
  }

  /** The lengths are split between the two codes and the block's symbols are read with them. */
  ghost function DynamicBody(lens: seq<nat>, nlen: nat, ndist: nat, bits: seq<bool>, p: nat, out: seq<byte>, max: nat): (r: Option<State<byte>>)
    requires p <= |bits| && nlen >= 257
    ensures r.Some? ==> p <= r.value.p <= |bits|
  {
    if |lens| != nlen + ndist || lens[256] == 0 || !Fits(lens[..nlen]) || !Fits(lens[nlen..]) then None
    else BlockSymbols(lens[..nlen], lens[nlen..], bits, p, out, max)
  }

  ghost function DynamicAt(bits: seq<bool>, p: nat, out: seq<byte>, max: nat): (r: Option<State<byte>>)
    ensures r.Some? ==> p <= r.value.p <= |bits|
  {
    if p + 14 > |bits| then None
    else
      var nlen, ndist, ncode := Field(bits, p, 5) + 257, Field(bits, p + 5, 5) + 1, Field(bits, p + 10, 4) + 4;
      if nlen > 286 || ndist > 30 || ncode > 19 then None
      else
        match ReadLens(bits, p + 14, ncode, nlen + ndist)
        case None => None
        case Some(State(q, lens)) => DynamicBody(lens, nlen, ndist, bits, q, out, max)
  }

  // ---- inf_stored and inf_fixed ----

  function FixedLen(i: nat): nat {
    if i < 144 then 8 else if i < 256 then 9 else if i < 280 then 7 else 8
  }

  function FixedLit(): (l: seq<nat>)
    ensures |l| == 288 && forall i :: 0 <= i < 288 ==> l[i] == FixedLen(i)
  {
    seq(288, i requires 0 <= i < 288 => FixedLen(i))
  }

  function FixedDist(): (l: seq<nat>)
    ensures |l| == 30 && forall i :: 0 <= i < 30 ==> l[i] == 5
  {
    seq(30, _ => 5)
  }

  /** The whole byte that starts at or after bit `p`. */
  function ByteUp(p: nat): nat { (p + 7) / 8 }

  /** A stored block's length is read from its first two bytes; the next two are skipped. */
  ghost function StoredAt(z: seq<byte>, p: nat, out: seq<byte>, max: nat): (r: Option<State<byte>>)
    ensures r.Some? ==> p <= r.value.p <= 8 * |z|
  {
    var b := ByteUp(p);
    if b + 4 > |z| then None
    else
      var len := z[b] as int + 256 * (z[b + 1] as int);
      if b + 4 + len > |z| || |out| + len > max then None
      else Some(State(8 * (b + 4 + len), out + z[b + 4..b + 4 + len]))
  }

  // ---- inf_raw ----

  /** The body of a block of the given kind. */
  ghost function BodyAt(z: seq<byte>, kind: nat, p: nat, out: seq<byte>, max: nat): (r: Option<State<byte>>)
    requires p <= 8 * |z|
    ensures r.Some? ==> p <= r.value.p <= 8 * |z|
  {
    if kind == 0 then StoredAt(z, p, out, max)
    else if kind == 1 then BlockSymbols(FixedLit(), FixedDist(), Unpack(z), p, out, max)
    else if kind == 2 then DynamicAt(Unpack(z), p, out, max)
    else None
  }

  /** One block: whether it is the last, its kind, its body. */
  ghost function BlockTurn(z: seq<byte>, p: nat, out: seq<byte>, max: nat): (r: Turn<byte>) {
    if p + 3 > 8 * |z| then Bad
    else
      match BodyAt(z, Field(Unpack(z), p + 1, 2), p + 3, out, max)
      case None => Bad
      case Some(st) => if Unpack(z)[p] then Done(st) else More(st)
  }

  ghost function BlockTurns(z: seq<byte>, max: nat): State<byte> -> Turn<byte> {
    (st: State<byte>) => BlockTurn(z, st.p, st.out, max)
  }

  /** The text of the stream at the start of `z`, and how many bytes it takes up. */
  ghost function Inflate(z: seq<byte>, max: nat): (r: Option<(seq<byte>, nat)>)
    ensures r.Some? ==> r.value.1 <= |z|
  {
    match Loop(BlockTurns(z, max), State(0, []), 8 * |z|)
    case None => None
    case Some(st) => Some((st.out, ByteUp(st.p)))
  }
}
