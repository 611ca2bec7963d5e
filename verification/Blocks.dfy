/** df_block and df_cost: one block's codes are made, its cost is weighed against storing it, and
    the cheaper of the two is written. */
module Blocks {
  import opened Bits
  import opened Canonical
  import opened Tables
  import opened Runs
  import opened Stream
  import H = Huffman
  import opened Optimality
  import opened Counting
  import opened BitWriter
  import opened Alphabet
  import opened BlockWriter
  import opened CodeWords
  import opened Decoding

  // ---- the codes ----

  /** Every symbol that is counted has a code word. */
  ghost predicate Covered(f: seq<nat>, len: seq<nat>) {
    |f| == |len| && forall s :: 0 <= s < |f| && f[s] > 0 ==> len[s] > 0
  }

  /** The literal and length code, complete because two of its symbols at least are counted. */
  method MakeLitCodes(lit: Alphabet)
    requires lit.Shape() && lit.n == 286 && H.Sum(lit.freq[..]) < 0x8000_0000
    modifies lit.freq, lit.len, lit.code
    ensures Complete(lit.len[..]) && lit.Coded() && Covered(lit.freq[..], lit.len[..])
    ensures forall s :: 0 <= s < 286 ==> lit.freq[s] >= old(lit.freq[s])
  {
    hide Complete, H.Fib;
    FibValues();
    lit.ForceTwo();
    lit.MakeLengths(15);
    lit.AssignCodes();
  }

  /** With no distance in use, symbol 0 stands in with one bit. */
  method StandIn(dist: Alphabet)
    requires dist.Shape() && dist.n == 30 && Fits(dist.len[..]) && Covered(dist.freq[..], dist.len[..])
    modifies dist.len
    ensures Fits(dist.len[..]) && Covered(dist.freq[..], dist.len[..])
    ensures exists s :: 0 <= s < 30 && dist.len[s] > 0
    ensures dist.len[..] == old(dist.len[..]) ||
            ((forall s :: 0 <= s < 30 ==> old(dist.len[s]) == 0) && dist.len[..] == old(dist.len[..])[0 := 1])
  {
    hide Fits;
    var i := 0;
    while i < 30 && dist.len[i] == 0
      invariant 0 <= i <= 30 && forall k :: 0 <= k < i ==> dist.len[k] == 0
    {
      i := i + 1;
    }
    if i == 30 {
      LoneFits(dist.len[..]);
      dist.len[0] := 1;
    }
  }

  method MakeDistCodes(dist: Alphabet)
    requires dist.Shape() && dist.n == 30 && H.Sum(dist.freq[..]) < 0x8000_0000
    modifies dist.len, dist.code
    ensures Fits(dist.len[..]) && dist.Coded() && Covered(dist.freq[..], dist.len[..])
    ensures exists s :: 0 <= s < 30 && dist.len[s] > 0
  {
    hide Filled, Pow2, H.Fib;
    FibValues();
    dist.MakeLengths(15);
    StandIn(dist);
    dist.AssignCodes();
  }

  /** Every symbol of well-formed runs is one of the nineteen, with at most seven extra bits. */
  lemma {:induction false} RunSymbols(runs: seq<Run>)
    requires Good(runs)
    ensures forall i :: 0 <= i < |runs| ==> runs[i].sym < 19 && runs[i].nx <= 7
  {
    if runs != [] { RunSymbols(runs[..|runs| - 1]); }
  }

  method CountRuns(cl: Alphabet, runs: array<Run>, nrun: nat)
    requires cl.Shape() && cl.n == 19 && nrun <= runs.Length && forall k :: 0 <= k < nrun ==> runs[k].sym < 19
    modifies cl.freq
    ensures cl.freq[..] == Tally(RunCode, runs[..nrun], 19)
  {
    cl.Reset();
    var i := 0;
    while i < nrun
      invariant 0 <= i <= nrun && cl.freq[..] == Tally(RunCode, runs[..i], 19)
    {
      assert runs[..i + 1] == runs[..i] + [runs[i]];
      TallySnoc(RunCode, runs[..i], runs[i], 19);
      cl.Note(runs[i].sym);
      i := i + 1;
    }
  }

  /** Two code-length symbols always occur, so their code is complete, as the decoder demands. */
  lemma {:induction false} RunsUseTwo(runs: seq<Run>, lens: seq<nat>)
    requires Good(runs) && Expand(runs) == lens && |lens| >= 257 && lens[256] > 0
    requires OpensWithFour(lens) ==> |runs| >= 2 && runs[1].sym == 16
    ensures H.Used(Tally(RunCode, runs, 19)) >= 2
  {
    hide H.Used, Good, Expand;
    var s, t := TwoSymbols(runs, lens, 256);
    OccursCounted(runs, s);
    OccursCounted(runs, t);
    if s < t { UsedTwo(Tally(RunCode, runs, 19), s, t); } else { UsedTwo(Tally(RunCode, runs, 19), t, s); }
  }

  lemma {:induction false} OccursCounted(runs: seq<Run>, s: nat)
    requires Occurs(runs, s) && s < 19
    ensures Tally(RunCode, runs, 19)[s] > 0
  {
    var i :| 0 <= i < |runs| && runs[i].sym == s;
    TallyUsed(RunCode, runs, 19, i);
  }

  /** The code-length code for these runs. */
  method MakeRunCodes(cl: Alphabet, runs: array<Run>, nrun: nat, ghost lens: seq<nat>)
    requires cl.Shape() && cl.n == 19 && nrun <= runs.Length && nrun <= 320
    requires Good(runs[..nrun]) && Expand(runs[..nrun]) == lens && |lens| >= 257 && lens[256] > 0
    requires OpensWithFour(lens) ==> nrun >= 2 && runs[1].sym == 16
    modifies cl.freq, cl.len, cl.code
    ensures Complete(cl.len[..]) && cl.Coded() && Covered(Tally(RunCode, runs[..nrun], 19), cl.len[..])
    ensures forall s :: 0 <= s < 19 ==> cl.len[s] <= 7
  {
    hide Filled, Pow2, H.Fib, Good, Expand, H.Used, Tally, StoredCode;
    FibValues();
    RunSymbols(runs[..nrun]);
    RunsUseTwo(runs[..nrun], lens);
    TallySum(RunCode, runs[..nrun], 19);
    assert forall k :: 0 <= k < nrun ==> runs[k] == runs[..nrun][k];
    CountRuns(cl, runs, nrun);
    cl.MakeLengths(7);
    cl.AssignCodes();
  }

  /** Code-length code lengths of zero at the end of the format's order are not sent. */
  method TrimOrder(cl: Alphabet) returns (ncl: nat)
    requires cl.Shape() && cl.n == 19
    ensures 4 <= ncl <= 19 && forall i :: ncl <= i < 19 ==> cl.len[Ord(i)] == 0
    ensures ncl > 4 ==> cl.len[Ord(ncl - 1)] != 0
  {
    hide Ord;
    TableEntries();
    ncl := 19;
    while ncl > 4 && cl.len[ORDER[ncl - 1]] == 0
      invariant 4 <= ncl <= 19 && forall i :: ncl <= i < 19 ==> cl.len[Ord(i)] == 0
    {
      ncl := ncl - 1;
    }
  }

  // ---- the cost ----

  ghost function LitWeights(llen: seq<nat>): seq<nat>
    requires |llen| == 286
  {
    Plus(llen, LitExtra())
  }

  ghost function DistWeights(dlen: seq<nat>): seq<nat>
    requires |dlen| == 30
  {
    Plus(dlen, DistExtra())
  }

  /** The bits a block's symbols take, reckoned from the counts. */
  ghost function SymbolsCost(lf: seq<nat>, llen: seq<nat>, df: seq<nat>, dlen: seq<nat>): nat
    requires |lf| == |llen| == 286 && |df| == |dlen| == 30
  {
    Dot(lf, LitWeights(llen)) + Dot(df, DistWeights(dlen))
  }

  lemma {:induction false} DotNext(f: seq<nat>, g: seq<nat>, i: nat)
    requires |f| == |g| && i < |f|
    ensures Dot(f[..i + 1], g[..i + 1]) == Dot(f[..i], g[..i]) + f[i] * g[i]
  {
    assert f[..i + 1][..i] == f[..i] && g[..i + 1][..i] == g[..i];
  }

  /** The first loop of df_cost. */
  method LitCost(lit: Alphabet, nlit: nat) returns (bits: nat)
    requires lit.Shape() && lit.n == 286 && nlit <= 286 && forall s :: nlit <= s < 286 ==> lit.len[s] == 0
    ensures bits == Dot(lit.freq[..], lit.len[..])
  {
    bits := 0;
    var i := 0;
    while i < nlit
      invariant 0 <= i <= nlit && bits == Dot(lit.freq[..][..i], lit.len[..][..i])
    {
      DotNext(lit.freq[..], lit.len[..], i);
      bits := bits + Times(lit.freq[i], lit.len[i]);
      i := i + 1;
    }
    DotTrim(lit.freq[..], lit.len[..], nlit);
  }

  lemma {:induction false} ExtraNext(f: seq<nat>, i: nat)
    requires |f| == 286 && i < 286
    ensures Dot(f[..i + 1], LitExtra()[..i + 1]) ==
            Dot(f[..i], LitExtra()[..i]) + (if i >= 257 && f[i] > 0 then f[i] * LExt(i - 257) else 0)
  {
    hide LExt;
    DotNext(f, LitExtra(), i);
  }

  /** The second: the extra bits of lengths. */
  method ExtraCost(lit: Alphabet) returns (bits: nat)
    requires lit.Shape() && lit.n == 286
    ensures bits == Dot(lit.freq[..], LitExtra())
  {
    hide LExt, LBase, DExt, DBase, Ord;
    TableEntries();
    ghost var f := lit.freq[..];
    bits := 0;
    var i := 0;
    while i < 286
      invariant 0 <= i <= 286 && bits == Dot(f[..i], LitExtra()[..i])
    {
      ExtraNext(f, i);
      if i >= 257 && lit.freq[i] > 0 { bits := bits + Times(lit.freq[i], LEXT[i - 257]); }
      i := i + 1;
    }
    assert f[..286] == f && LitExtra()[..286] == LitExtra();
  }

  lemma {:induction false} DistNext(f: seq<nat>, dlen: seq<nat>, i: nat)
    requires |f| == |dlen| == 30 && i < 30
    ensures Dot(f[..i + 1], DistWeights(dlen)[..i + 1]) == Dot(f[..i], DistWeights(dlen)[..i]) + f[i] * (dlen[i] + DExt(i))
  {
    hide DExt;
    DotNext(f, DistWeights(dlen), i);
  }

  lemma {:induction false} WeightsLength(llen: seq<nat>, dlen: seq<nat>)
    requires |llen| == 286 && |dlen| == 30
    ensures |LitWeights(llen)| == 286 && |DistWeights(dlen)| == 30
  {
  }

  lemma {:induction false} DotNone()
    ensures Dot([], []) == 0
  {
  }

  method DistExtraAt(i: nat) returns (x: nat)
    requires i < 30
    ensures x == DExt(i)
  {
    hide LExt, LBase, DExt, DBase, Ord;
    TableEntries();
    x := DEXT[i];
  }

  /** The third: distances. */
  method DistCost(dist: Alphabet, ndist: nat) returns (bits: nat)
    requires dist.Shape() && dist.n == 30 && ndist <= 30 && forall s :: ndist <= s < 30 ==> dist.freq[s] == 0
    ensures bits == Dot(dist.freq[..], DistWeights(dist.len[..]))
  {
    hide DistWeights, Dot;
    WeightsLength(LitExtra(), dist.len[..]);
    ghost var f, g := dist.freq[..], DistWeights(dist.len[..]);
    bits := 0;
    var i := 0;
    DotNone();
    assert f[..0] == [] && g[..0] == [];
    while i < ndist
      invariant 0 <= i <= ndist && bits == Dot(f[..i], g[..i])
    {
      DistNext(f, dist.len[..], i);
      var x := DistExtraAt(i);
      bits := bits + Times(dist.freq[i], dist.len[i] + x);
      i := i + 1;
    }
    DotTrim(f, g, ndist);
  }

  /** df_cost. */
  method Cost(lit: Alphabet, dist: Alphabet, nlit: nat, ndist: nat) returns (bits: nat)
    requires lit.Shape() && lit.n == 286 && nlit <= 286 && forall s :: nlit <= s < 286 ==> lit.len[s] == 0
    requires dist.Shape() && dist.n == 30 && ndist <= 30 && forall s :: ndist <= s < 30 ==> dist.freq[s] == 0
    ensures bits == SymbolsCost(lit.freq[..], lit.len[..], dist.freq[..], dist.len[..])
  {
    hide Dot, LitExtra;
    var a := LitCost(lit, nlit);
    var b := ExtraCost(lit);
    var c := DistCost(dist, ndist);
    DotSplit(lit.freq[..], lit.len[..], LitExtra(), LitWeights(lit.len[..]));
    return a + b + c;
  }

  // ---- the cost is the length ----

  function RunCost(clen: seq<nat>): Run -> nat {
    (r: Run) => Weigh(clen, r.sym) + r.nx
  }

  lemma {:induction false} RunsSize(clen: seq<nat>, runs: seq<Run>)
    ensures |RunsBits(CodeWriter(clen), runs)| == Total(RunCost(clen), runs)
  {
    CatLength(RunWriter(CodeWriter(clen)), RunCost(clen), runs);
  }

  method RunsCost(cl: Alphabet, runs: array<Run>, nrun: nat) returns (bits: nat)
    requires cl.Shape() && cl.n == 19 && nrun <= runs.Length && forall k :: 0 <= k < nrun ==> runs[k].sym < 19
    ensures bits == |RunsBits(CodeWriter(cl.len[..]), runs[..nrun])| == Total(RunCost(cl.len[..]), runs[..nrun])
  {
    RunsSize(cl.len[..], runs[..nrun]);
    bits := 0;
    var i := 0;
    while i < nrun
      invariant 0 <= i <= nrun && bits == Total(RunCost(cl.len[..]), runs[..i])
    {
      assert runs[..i + 1][..i] == runs[..i];
      bits := bits + cl.len[runs[i].sym] + runs[i].nx;
      i := i + 1;
    }
  }

  /** What a symbol adds to the block is the weight of its codes. */
  lemma {:induction false} SymSize(t: Sym, llen: seq<nat>, nlit: nat, dlen: seq<nat>, ndist: nat)
    requires |llen| == 286 && |dlen| == 30 && nlit <= 286 && ndist <= 30 && Plain(t)
    requires Codable(LitLenWriter(CodeWriter(llen[..nlit])), DistWriter(CodeWriter(dlen[..ndist])), t)
    ensures |SymBits(LitLenWriter(CodeWriter(llen[..nlit])), DistWriter(CodeWriter(dlen[..ndist])), t)| ==
            Weigh(LitWeights(llen), LitCode(t)) + Weigh(DistWeights(dlen), DistCode(t))
  {
    hide LitLenWriter, DistWriter, Code, Low, LExt, DExt, LBase, DBase, LSymFrom, DSymFrom;
    SymWords(t, llen[..nlit], dlen[..ndist]);
    if t.dist == 0 {
      WordSize(llen, nlit, t.lit);
    } else {
      WordSize(llen, nlit, 257 + LSym(t.lit));
      WordSize(dlen, ndist, DSym(t.dist));
    }
  }

  lemma {:induction false} WordSize(lens: seq<nat>, n: nat, s: nat)
    requires n <= |lens| && Word(lens[..n], s) != []
    ensures s < n && |Word(lens[..n], s)| == lens[s]
  {
    hide Code;
  }

  /** The symbols of the block, and nothing else, are what was counted; the end of the block is one more. */
  ghost predicate Counted(lf: seq<nat>, df: seq<nat>, syms: seq<Sym>) {
    lf == Bump(Tally(LitCode, syms, 286), 256) && df == Tally(DistCode, syms, 30)
  }

  lemma {:induction false} SymbolsSize(syms: seq<Sym>, llen: seq<nat>, nlit: nat, dlen: seq<nat>, ndist: nat)
    requires |llen| == 286 && |dlen| == 30 && nlit <= 286 && ndist <= 30
    requires forall i :: 0 <= i < |syms| ==> Plain(syms[i])
    requires AllCodable(LitLenWriter(CodeWriter(llen[..nlit])), DistWriter(CodeWriter(dlen[..ndist])), syms)
    ensures |SymsBits(LitLenWriter(CodeWriter(llen[..nlit])), DistWriter(CodeWriter(dlen[..ndist])), syms)| ==
            SymbolsCost(Tally(LitCode, syms, 286), llen, Tally(DistCode, syms, 30), dlen)
  {
    hide LitLenWriter, DistWriter, CodeWriter, Codable, SymBits, Plain, LitWeights, DistWeights, LitCode, DistCode;
    var lw, dw := LitLenWriter(CodeWriter(llen[..nlit])), DistWriter(CodeWriter(dlen[..ndist]));
    forall i | 0 <= i < |syms|
      ensures |SymWriter(lw, dw)(syms[i])| == Weigh(LitWeights(llen), LitCode(syms[i])) + Weigh(DistWeights(dlen), DistCode(syms[i]))
    {
      SymSize(syms[i], llen, nlit, dlen, ndist);
    }
    WeightsLength(llen, dlen);
    TalliesWeigh(SymWriter(lw, dw), syms, LitCode, LitWeights(llen), DistCode, DistWeights(dlen));
  }

  lemma {:induction false} ClenSize(clen: seq<nat>, k: nat)
    requires |clen| == 19 && k <= 19
    ensures |ClenBits(clen, k)| == 3 * k
  {
    hide Ord, Low;
    if k != 0 {
      ClenSize(clen, k - 1);
      ThreeMore(clen[Ord(k - 1)]);
    }
  }

  lemma {:induction false} ThreeMore(v: nat)
    ensures |Low(v, 3)| == 3
  {
  }

  lemma {:induction false} HeadSize(b: bool)
    ensures |[b] + Low(2, 2)| == 3 && forall v: nat, n: nat :: |Low(v, n)| == n
  {
  }

  /** How long a dynamic block is, part by part. */
  lemma {:induction false} DynamicSize(p: nat, last: bool, b: Block)
    requires b.Dynamic? && |b.clen| == 19 && b.ncl <= 19
    ensures |BlockBits(p, last, b)| == 17 + 3 * b.ncl + |RunsBits(CodeWriter(b.clen), b.runs)| +
              |SymsBits(LitLenWriter(CodeWriter(b.llen)), DistWriter(CodeWriter(b.dlen)), b.syms)| + |Word(b.llen, 256)|
  {
    hide Low, RunsBits, SymsBits, Word, ClenBits, LitLenWriter, DistWriter, CodeWriter;
    HeadSize(last);
    ClenSize(b.clen, b.ncl);
  }

  /** The counts the codes were made from cost at least what the symbols and the end of the block take. */
  lemma {:induction false} CostCovers(lf: seq<nat>, lf': seq<nat>, df: seq<nat>, syms: seq<Sym>, llen: seq<nat>, dlen: seq<nat>)
    requires Counted(lf, df, syms) && |lf'| == |llen| == 286 && |dlen| == 30
    requires forall s :: 0 <= s < 286 ==> lf'[s] >= lf[s]
    ensures SymbolsCost(Tally(LitCode, syms, 286), llen, Tally(DistCode, syms, 30), dlen) + llen[256]
         <= SymbolsCost(lf', llen, df, dlen)
    ensures lf' == lf ==>
              SymbolsCost(Tally(LitCode, syms, 286), llen, Tally(DistCode, syms, 30), dlen) + llen[256] == SymbolsCost(lf', llen, df, dlen)
  {
    hide Dot, Tally, LExt;
    WeightsLength(llen, dlen);
    BumpDot(Tally(LitCode, syms, 286), LitWeights(llen), 256);
    DotGrows(lf, lf', LitWeights(llen));
  }

  // ---- the block is well formed ----

  lemma {:induction false} GoodSymsPlain(out: seq<byte>, syms: seq<Sym>)
    requires GoodSyms(out, syms)
    ensures forall i :: 0 <= i < |syms| ==> Plain(syms[i])
  {
    if syms != [] { GoodSymsPlain(out, syms[..|syms| - 1]); }
  }

  lemma {:induction false} CodableOne(t: Sym, llen: seq<nat>, nlit: nat, dlen: seq<nat>, ndist: nat)
    requires |llen| == 286 && |dlen| == 30 && nlit <= 286 && ndist <= 30 && Plain(t)
    requires forall s :: nlit <= s < 286 ==> llen[s] == 0
    requires forall s :: ndist <= s < 30 ==> dlen[s] == 0
    requires llen[LitCode(t)] > 0 && (t.dist > 0 ==> dlen[DistCode(t)] > 0)
    ensures Codable(LitLenWriter(CodeWriter(llen[..nlit])), DistWriter(CodeWriter(dlen[..ndist])), t)
  {
    hide Code, LSymFrom, DSymFrom, Low, LExt, LBase, DExt, DBase;
    assert 256 + t.lit - 256 == t.lit;
  }

  /** Every symbol that was counted can be written. */
  lemma {:induction false} SymsCodable(syms: seq<Sym>, lf: seq<nat>, llen: seq<nat>, nlit: nat, df: seq<nat>, dlen: seq<nat>, ndist: nat)
    requires |llen| == 286 && |dlen| == 30 && nlit <= 286 && ndist <= 30
    requires forall i :: 0 <= i < |syms| ==> Plain(syms[i])
    requires forall s :: nlit <= s < 286 ==> llen[s] == 0
    requires forall s :: ndist <= s < 30 ==> dlen[s] == 0
    requires Counted(lf, df, syms) && Covered(lf, llen) && Covered(df, dlen)
    ensures AllCodable(LitLenWriter(CodeWriter(llen[..nlit])), DistWriter(CodeWriter(dlen[..ndist])), syms)
  {
    hide LitLenWriter, DistWriter, CodeWriter, Tally, LSymFrom, DSymFrom, Codable;
    forall i | 0 <= i < |syms|
      ensures Codable(LitLenWriter(CodeWriter(llen[..nlit])), DistWriter(CodeWriter(dlen[..ndist])), syms[i])
    {
      TallyUsed(LitCode, syms, 286, i);
      if syms[i].dist > 0 { TallyUsed(DistCode, syms, 30, i); }
      CodableOne(syms[i], llen, nlit, dlen, ndist);
    }
  }

  // ---- the block of an empty text ----

  lemma {:induction false} CatAtMost<T>(f: T -> seq<bool>, items: seq<T>, m: nat)
    requires forall i :: 0 <= i < |items| ==> |f(items[i])| <= m
    ensures |Cat(f, items)| <= m * |items|
  {
    if items != [] {
      CatAtMost(f, items[..|items| - 1], m);
      assert m * |items| == m * (|items| - 1) + m;
    }
  }

  /** Every run stands for at least one length. */
  lemma {:induction false} FewRuns(runs: seq<Run>)
    requires Good(runs)
    ensures |runs| <= |Expand(runs)|
  {
    if runs != [] { FewRuns(runs[..|runs| - 1]); }
  }

  lemma {:induction false} RunsShort(clen: seq<nat>, runs: seq<Run>)
    requires Good(runs) && |Expand(runs)| <= 316 && forall i :: 0 <= i < |clen| ==> clen[i] <= 7
    ensures |RunsBits(CodeWriter(clen), runs)| <= 14 * 316
  {
    hide Code, Low, Good, Expand;
    FewRuns(runs);
    RunSymbols(runs);
    forall i | 0 <= i < |runs| ensures |RunWriter(CodeWriter(clen))(runs[i])| <= 14 { RunShort(clen, runs[i]); }
    CatAtMost(RunWriter(CodeWriter(clen)), runs, 14);
  }

  lemma {:induction false} RunShort(clen: seq<nat>, r: Run)
    requires r.nx <= 7 && forall i :: 0 <= i < |clen| ==> clen[i] <= 7
    ensures |RunBits(CodeWriter(clen), r)| <= 14
  {
  }

  /** A block with no symbols is no longer than its header can be. */
  lemma {:induction false} EmptyBlockShort(p: nat, last: bool, text: seq<byte>, b: Block)
    requires b.Dynamic? && GoodBlock(text, b) && b.syms == []
    ensures |BlockBits(p, last, b)| <= EMPTY
  {
    hide Filled, Pow2, Good, Expand, RunsBits, AllCodable, BlockBits, LitLenWriter, DistWriter, CodeWriter, Code;
    DynamicSize(p, last, b);
    RunsShort(b.clen, b.runs);
  }

  const EMPTY: nat := 17 + 3 * 19 + 14 * 316 + 15

  // ---- the block ----

  const BLOCK: nat := 16384

  /** The code the decoder will be told, by its first `n` lengths, is the code the words are of. */
  ghost predicate Ready(a: Alphabet, n: nat)
    requires a.Shape() && n <= a.n
    reads a.len, a.code
  {
    && Fits(a.len[..]) && (forall s :: n <= s < a.n ==> a.len[s] == 0)
    && Spells(a.len[..], a.code[..], a.len[..n])
  }

  method TrimReady(a: Alphabet, low: nat) returns (n: nat)
    requires a.Shape() && low <= a.n && Fits(a.len[..]) && a.Coded()
    ensures low <= n <= a.n && Ready(a, n)
  {
    hide Fits, StoredCode;
    n := a.Trim(low);
    SpellsTrimmed(a.len[..], a.code[..], n);
  }

  lemma {:induction false} RunsCodable(runs: seq<Run>, clen: seq<nat>)
    requires Good(runs) && Covered(Tally(RunCode, runs, 19), clen) && |clen| == 19
    ensures forall i :: 0 <= i < |runs| ==> Word(clen, runs[i].sym) != []
  {
    hide Good, Tally, Code;
    RunSymbols(runs);
    forall i | 0 <= i < |runs| ensures Word(clen, runs[i].sym) != [] {
      TallyUsed(RunCode, runs, 19, i);
    }
  }

  /** Both lists of lengths, run-length coded together, and the code they are written with. */
  method MakeRuns(cl: Alphabet, lens: seq<nat>) returns (runs: array<Run>, nrun: nat)
    requires cl.Shape() && cl.n == 19 && 257 <= |lens| <= 320 && lens[256] > 0 && forall i :: 0 <= i < |lens| ==> lens[i] <= 15
    modifies cl.freq, cl.len, cl.code
    ensures fresh(runs) && nrun <= runs.Length
    ensures Good(runs[..nrun]) && Expand(runs[..nrun]) == lens
    ensures Complete(cl.len[..]) && Spells(cl.len[..], cl.code[..], cl.len[..]) && forall s :: 0 <= s < 19 ==> cl.len[s] <= 7
    ensures forall i :: 0 <= i < nrun ==> Word(cl.len[..], runs[..nrun][i].sym) != []
  {
    hide Filled, Good, Expand, StoredCode, Tally, Word, Pow2;
    runs := new Run[320](_ => Run(0, 0, 0));
    nrun := CodeRuns(lens, runs);
    MakeRunCodes(cl, runs, nrun, lens);
    SpellsTrimmed(cl.len[..], cl.code[..], 19);
    assert cl.len[..][..19] == cl.len[..];
    RunsCodable(runs[..nrun], cl.len[..]);
  }

  lemma {:induction false} BlockJoins(s: seq<bool>, p: nat, last: bool, b: Block)
    requires b.Dynamic?
    ensures s + ([last] + Low(2, 2)) + DynamicHeader(b.llen, b.dlen, b.clen, b.ncl) + RunsBits(CodeWriter(b.clen), b.runs) +
              SymsBits(LitLenWriter(CodeWriter(b.llen)), DistWriter(CodeWriter(b.dlen)), b.syms) + Word(b.llen, 256)
         == s + BlockBits(p, last, b)
  {
    hide LitLenWriter, DistWriter, CodeWriter, DynamicHeader, RunsBits, SymsBits, Low, Word;
    var h, r := DynamicHeader(b.llen, b.dlen, b.clen, b.ncl), RunsBits(CodeWriter(b.clen), b.runs);
    var t, e := SymsBits(LitLenWriter(CodeWriter(b.llen)), DistWriter(CodeWriter(b.dlen)), b.syms), Word(b.llen, 256);
    FiveJoin(s, [last], Low(2, 2), h, r, t, e);
  }

  lemma {:induction false} FiveJoin<T>(s: seq<T>, a: seq<T>, b: seq<T>, h: seq<T>, r: seq<T>, t: seq<T>, e: seq<T>)
    ensures s + (a + b) + h + r + t + e == s + (a + (b + (h + (r + (t + e)))))
  {
  }

  /** Writes a dynamic block, codes and symbols. */
  method WriteDynamic(z: BitWriter, lit: Alphabet, dist: Alphabet, cl: Alphabet, runs: array<Run>, nrun: nat,
                      sym: array<Sym>, nsym: nat, nlit: nat, ndist: nat, ncl: nat, last: bool, ghost b: Block)
    requires z.Valid() && lit.Shape() && dist.Shape() && cl.Shape() && lit.n == 286 && dist.n == 30 && cl.n == 19
    requires nrun <= runs.Length && nsym <= sym.Length && 4 <= ncl <= 19 && 257 <= nlit && 1 <= ndist
    requires b.Dynamic? && |b.llen| == nlit && |b.dlen| == ndist && b.clen == cl.len[..] && b.ncl == ncl
    requires b.runs == runs[..nrun] && b.syms == sym[..nsym]
    requires Spells(lit.len[..], lit.code[..], b.llen) && Spells(dist.len[..], dist.code[..], b.dlen)
    requires Spells(cl.len[..], cl.code[..], b.clen)
    requires forall i :: 0 <= i < nsym ==> Plain(sym[i])
    requires AllCodable(LitLenWriter(CodeWriter(b.llen)), DistWriter(CodeWriter(b.dlen)), b.syms)
    requires forall i :: 0 <= i < nrun ==> runs[i].sym < 19 && runs[i].nx <= 7
    modifies z
    ensures z.Valid() && z.Stream() == old(z.Stream()) + BlockBits(|old(z.Stream())|, last, b)
  {
    hide Spells, LitLenWriter, DistWriter, CodeWriter, Plain, AllCodable, DynamicHeader, RunsBits, SymsBits, Low, Word, BlockBits;
    BlockJoins(z.Stream(), |z.Stream()|, last, b);
    WriteHead(z, last, 2);
    WriteHeader(z, cl, ncl, b.llen, b.dlen, nlit, ndist);
    WriteRuns(z, cl, runs, nrun, b.clen);
    WriteSyms(z, lit, dist, sym, nsym, b.llen, b.dlen);
    lit.Put(z, 256, b.llen);
  }

  class Df {
    const lit: Alphabet
    const dist: Alphabet
    const cl: Alphabet
    const sym: array<Sym>
    const z: BitWriter
    var nsym: nat

    constructor (out: seq<byte>)
      ensures Shape() && fresh(Arrays()) && fresh(z) && z.Valid() && z.base == z.out == out && z.Stream() == []
    {
      lit := new Alphabet(286);
      dist := new Alphabet(30);
      cl := new Alphabet(19);
      sym := new Sym[BLOCK];
      z := new BitWriter(out);
      nsym := 0;
    }

    ghost function Arrays(): set<object> {
      {lit.freq, lit.len, lit.code, dist.freq, dist.len, dist.code, cl.freq, cl.len, cl.code, sym}
    }

    ghost predicate Shape() {
      && lit.Shape() && dist.Shape() && cl.Shape() && lit.n == 286 && dist.n == 30 && cl.n == 19
      && {lit.freq, lit.len, lit.code} !! {dist.freq, dist.len, dist.code}
      && {lit.freq, lit.len, lit.code} !! {cl.freq, cl.len, cl.code}
      && {dist.freq, dist.len, dist.code} !! {cl.freq, cl.len, cl.code}
      && sym.Length == BLOCK
    }

    /** What def_raw hands over: the symbols of the bytes after `text`, counted. */
    ghost predicate Loaded(text: seq<byte>)
      requires Shape()
      reads this, lit.freq, dist.freq, sym
    {
      && nsym <= BLOCK && GoodSyms(text, sym[..nsym])
      && Counted(lit.freq[..], dist.freq[..], sym[..nsym])
    }

    /** The literal and distance codes, and how many of their lengths are sent. */
    method MakeCodes(ghost text: seq<byte>) returns (nlit: nat, ndist: nat)
      requires Shape() && Loaded(text)
      modifies lit.freq, lit.len, lit.code, dist.len, dist.code
      ensures 257 <= nlit <= 286 && 1 <= ndist <= 30 && Ready(lit, nlit) && Ready(dist, ndist)
      ensures Covered(lit.freq[..], lit.len[..]) && Covered(dist.freq[..], dist.len[..])
      ensures forall s :: 0 <= s < 286 ==> lit.freq[s] >= old(lit.freq[s])
    {
      hide Filled, StoredCode, Spells, GoodSyms, Tally, H.Sum;
      ghost var syms := sym[..nsym];
      TallySum(LitCode, syms, 286);
      BumpSum(Tally(LitCode, syms, 286), 256);
      TallySum(DistCode, syms, 30);
      MakeLitCodes(lit);
      MakeDistCodes(dist);
      nlit := TrimReady(lit, 257);
      ndist := TrimReady(dist, 1);
    }

    /** The block these codes and runs make. */
    ghost function Made(nlit: nat, ndist: nat, ncl: nat, runs: seq<Run>): Block
      requires Shape() && nlit <= 286 && ndist <= 30 && nsym <= BLOCK
      reads this, lit.len, dist.len, cl.len, sym
    {
      Dynamic(lit.len[..nlit], dist.len[..ndist], cl.len[..], ncl, runs, sym[..nsym])
    }

    /** cbits, the bits df_block reckons a dynamic block takes: df_cost, the header, and the runs. */
    ghost function Reckoned(ncl: nat, runs: seq<Run>): nat
      requires Shape()
      reads lit.freq, lit.len, dist.freq, dist.len, cl.len
    {
      SymbolsCost(lit.freq[..], lit.len[..], dist.freq[..], dist.len[..]) + (3 + 5 + 5 + 4) + 3 * ncl + Total(RunCost(cl.len[..]), runs)
    }

    /** The cost of a dynamic block is the length it will have, or more when codes were forced. */
    method BlockCost(nlit: nat, ndist: nat, ncl: nat, runs: array<Run>, nrun: nat,
                     ghost p: nat, ghost last: bool, ghost lf: seq<nat>)
      returns (cbits: nat)
      requires Shape() && nsym <= BLOCK && Counted(lf, dist.freq[..], sym[..nsym])
      requires 257 <= nlit <= 286 && 1 <= ndist <= 30 && ncl <= 19 && nrun <= runs.Length
      requires forall k :: 0 <= k < nrun ==> runs[k].sym < 19
      requires (forall s :: nlit <= s < 286 ==> lit.len[s] == 0) && forall s :: ndist <= s < 30 ==> dist.len[s] == 0
      requires Covered(dist.freq[..], dist.len[..]) && forall s :: 0 <= s < 286 ==> lit.freq[s] >= lf[s]
      requires forall i :: 0 <= i < nsym ==> Plain(sym[i])
      requires AllCodable(LitLenWriter(CodeWriter(lit.len[..nlit])), DistWriter(CodeWriter(dist.len[..ndist])), sym[..nsym])
      ensures |BlockBits(p, last, Made(nlit, ndist, ncl, runs[..nrun]))| <= cbits == Reckoned(ncl, runs[..nrun])
      ensures lit.freq[..] == lf ==> |BlockBits(p, last, Made(nlit, ndist, ncl, runs[..nrun]))| == cbits
    {
      hide BlockBits, AllCodable, Tally, SymbolsCost, RunsBits, SymsBits, LitLenWriter, DistWriter, CodeWriter, Plain, Word;
      var c := Cost(lit, dist, nlit, ndist);
      var r := RunsCost(cl, runs, nrun);
      cbits := c + 3 + 5 + 5 + 4 + ncl * 3 + r;
      ghost var syms := sym[..nsym];
      CostCovers(lf, lit.freq[..], dist.freq[..], syms, lit.len[..], dist.len[..]);
      assert lit.len[..][..nlit] == lit.len[..nlit] && dist.len[..][..ndist] == dist.len[..ndist];
      SymbolsSize(syms, lit.len[..], nlit, dist.len[..], ndist);
      EndSize(lit.len[..], nlit);
      DynamicSize(p, last, Made(nlit, ndist, ncl, runs[..nrun]));
    }

    /** Everything a dynamic block needs is in place, and the block is well formed. */
    ghost predicate Prepared(nlit: nat, ndist: nat, ncl: nat, runs: array<Run>, nrun: nat, text: seq<byte>)
      requires Shape()
      reads this, lit.len, lit.code, dist.len, dist.code, cl.len, cl.code, sym, runs
    {
      && nsym <= BLOCK && 257 <= nlit <= 286 && 1 <= ndist <= 30 && nrun <= runs.Length
      && Ready(lit, nlit) && Ready(dist, ndist) && Spells(cl.len[..], cl.code[..], cl.len[..])
      && GoodBlock(text, Made(nlit, ndist, ncl, runs[..nrun]))
    }

    method Prepare(ghost text: seq<byte>) returns (nlit: nat, ndist: nat, ncl: nat, runs: array<Run>, nrun: nat)
      requires Shape() && Loaded(text)
      modifies lit.freq, lit.len, lit.code, dist.len, dist.code, cl.freq, cl.len, cl.code
      ensures Prepared(nlit, ndist, ncl, runs, nrun, text) && fresh(runs)
      ensures Covered(dist.freq[..], dist.len[..])
      ensures forall s :: 0 <= s < 286 ==> lit.freq[s] >= old(lit.freq[s])
    {
      hide Filled, Pow2, StoredCode, Spells, GoodSyms, Counted, Good, Expand, LitLenWriter, DistWriter, CodeWriter, AllCodable, Word, Ord;
      ghost var lf := lit.freq[..];
      ghost var syms := sym[..nsym];
      nlit, ndist := MakeCodes(text);
      GoodSymsPlain(text, syms);
      LoadedCovered(lf, lit.freq[..], lit.len[..], dist.freq[..], syms);
      SymsCodable(syms, lf, lit.len[..], nlit, dist.freq[..], dist.len[..], ndist);
      var lens := lit.len[..nlit] + dist.len[..ndist];
      runs, nrun := MakeRuns(cl, lens);
      ncl := TrimOrder(cl);
      FitsTrim(lit.len[..], nlit);
      FitsTrim(dist.len[..], ndist);
      assert lit.len[..][..nlit] == lit.len[..nlit] && dist.len[..][..ndist] == dist.len[..ndist];
    }

    /** The dynamic block that was prepared is written. */
    method WritePrepared(nlit: nat, ndist: nat, ncl: nat, runs: array<Run>, nrun: nat, last: bool, ghost text: seq<byte>)
      requires Shape() && Prepared(nlit, ndist, ncl, runs, nrun, text) && z.Valid()
      modifies z
      ensures z.Valid()
      ensures z.Stream() == old(z.Stream()) + BlockBits(|old(z.Stream())|, last, Made(nlit, ndist, ncl, runs[..nrun]))
    {
      hide Fits, Complete, Good, Expand, Spells, BlockBits, LitLenWriter, DistWriter, CodeWriter, AllCodable, Word, Ord;
      GoodSymsPlain(text, sym[..nsym]);
      RunSymbols(runs[..nrun]);
      assert forall k :: 0 <= k < nrun ==> runs[..nrun][k] == runs[k];
      assert forall k :: 0 <= k < nsym ==> sym[..nsym][k] == sym[k];
      assert lit.len[..][..nlit] == lit.len[..nlit] && dist.len[..][..ndist] == dist.len[..ndist];
      WriteDynamic(z, lit, dist, cl, runs, nrun, sym, nsym, nlit, ndist, ncl, last, Made(nlit, ndist, ncl, runs[..nrun]));
    }

    /** What a prepared block costs. */
    method CostPrepared(nlit: nat, ndist: nat, ncl: nat, runs: array<Run>, nrun: nat,
                        ghost text: seq<byte>, ghost p: nat, ghost last: bool, ghost lf: seq<nat>)
      returns (cbits: nat)
      requires Shape() && Prepared(nlit, ndist, ncl, runs, nrun, text)
      requires Counted(lf, dist.freq[..], sym[..nsym]) && Covered(dist.freq[..], dist.len[..])
      requires forall s :: 0 <= s < 286 ==> lit.freq[s] >= lf[s]
      ensures |BlockBits(p, last, Made(nlit, ndist, ncl, runs[..nrun]))| <= cbits == Reckoned(ncl, runs[..nrun])
      ensures lit.freq[..] == lf ==> |BlockBits(p, last, Made(nlit, ndist, ncl, runs[..nrun]))| == cbits
    {
      hide Fits, Complete, Good, Expand, Spells, BlockBits, LitLenWriter, DistWriter, CodeWriter, AllCodable, Word, Ord, Counted;
      GoodSymsPlain(text, sym[..nsym]);
      RunSymbols(runs[..nrun]);
      assert forall k :: 0 <= k < nrun ==> runs[..nrun][k] == runs[k];
      assert forall k :: 0 <= k < nsym ==> sym[..nsym][k] == sym[k];
      cbits := BlockCost(nlit, ndist, ncl, runs, nrun, p, last, lf);
    }

    /** df_block: the symbols collected since `text` are written, as a dynamic block or as their bytes
        `raw`, whichever takes fewer bits by the reckoning. The dynamic block considered is `b`. */
    method Block(raw: seq<byte>, last: bool, ghost text: seq<byte>, ghost bs0: seq<Block>)
      returns (ghost bs: seq<Block>, ghost b: Block)
      requires Shape() && Loaded(text) && Text(text, sym[..nsym]) == text + raw
      requires z.Valid() && Wrote(z.Stream(), text, bs0, false)
      modifies lit.freq, lit.len, lit.code, dist.len, dist.code, cl.freq, cl.len, cl.code, z
      ensures z.Valid() && Wrote(z.Stream(), text + raw, bs, last)
      ensures nsym <= BLOCK && b.Dynamic? && |b.llen| <= 286 && |b.dlen| <= 30
      ensures b == Made(|b.llen|, |b.dlen|, b.ncl, b.runs) && GoodBlock(text, b)
      ensures |z.Stream()| <= |old(z.Stream())| + Reckoned(b.ncl, b.runs)
      ensures raw != [] ==> |z.Stream()| <= |old(z.Stream())| + StoredCost(|raw|)
      ensures nsym == 0 && raw == [] ==> |z.Stream()| <= |old(z.Stream())| + EMPTY
    {
      hide GoodBlock, BlockBits, Ready, Spells, GoodSyms, Counted, Wrote;
      ghost var lf := lit.freq[..];
      var nlit, ndist, ncl, runs, nrun := Prepare(text);
      b := Made(nlit, ndist, ncl, runs[..nrun]);
      ghost var p := |z.Stream()|;
      var cbits := CostPrepared(nlit, ndist, ncl, runs, nrun, text, p, last, lf);
      var sbits := StoredCost(|raw|);
      if raw != [] && sbits <= cbits {
        bs := WriteStored(z, raw, last, text, bs0);
        return;
      }
      WroteMore(z.Stream(), text, bs0, b, last);
      if nsym == 0 { EmptyBlockShort(p, last, text, b); }
      WritePrepared(nlit, ndist, ncl, runs, nrun, last, text);
      bs := bs0 + [b];
    }
  }

  /** The end of the block is counted; what was counted before two codes were forced still is covered. */
  lemma {:induction false} LoadedCovered(lf: seq<nat>, lf': seq<nat>, llen: seq<nat>, df: seq<nat>, syms: seq<Sym>)
    requires Counted(lf, df, syms) && |lf'| == 286 && Covered(lf', llen) && forall s :: 0 <= s < 286 ==> lf'[s] >= lf[s]
    ensures Covered(lf, llen) && llen[256] > 0
  {
    hide Tally;
  }

  lemma {:induction false} EndSize(llen: seq<nat>, n: nat)
    requires 257 <= n <= |llen|
    ensures |Word(llen[..n], 256)| == llen[256]
  {
    hide Code;
  }
}
