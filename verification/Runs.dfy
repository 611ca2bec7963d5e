/** The run-length coding of code lengths (RFC 1951, section 3.2.7): df_runs, and what the
    decoder makes of the symbols it writes. */
module Runs {
  import opened Bits

  /** One code-length symbol, its extra bits, and how many of them there are. */
  datatype Run = Run(sym: nat, extra: nat, nx: nat)

  function Rep(v: nat, n: nat): (r: seq<nat>)
    ensures |r| == n && forall i :: 0 <= i < n ==> r[i] == v
  {
    seq(n, _ => v)
  }

  /** Whether `r` may follow the lengths `acc`, with the extra bits its symbol calls for. */
  predicate GoodRun(acc: seq<nat>, r: Run) {
    if r.sym < 16 then r.extra == 0 && r.nx == 0
    else if r.sym == 16 then r.extra < 4 && r.nx == 2 && acc != []
    else if r.sym == 17 then r.extra < 8 && r.nx == 3
    else r.sym == 18 && r.extra < 128 && r.nx == 7
  }

  /** The lengths after one more symbol. */
  function Apply(acc: seq<nat>, r: Run): seq<nat> {
    if r.sym < 16 then acc + [r.sym]
    else if r.sym == 16 then acc + Rep(if acc == [] then 0 else acc[|acc| - 1], 3 + r.extra)
    else if r.sym == 17 then acc + Rep(0, 3 + r.extra)
    else acc + Rep(0, 11 + r.extra)
  }

  predicate Good(runs: seq<Run>) {
    runs == [] ||
    var init := runs[..|runs| - 1];
    Good(init) && GoodRun(Expand(init), runs[|runs| - 1])
  }

  /** The lengths a list of symbols stands for. */
  function Expand(runs: seq<Run>): seq<nat> {
    if runs == [] then []
    else Apply(Expand(runs[..|runs| - 1]), runs[|runs| - 1])
  }

  lemma {:induction false} GoodSnoc(runs: seq<Run>, r: Run)
    requires Good(runs) && GoodRun(Expand(runs), r)
    ensures Good(runs + [r]) && Expand(runs + [r]) == Apply(Expand(runs), r)
  {
    assert (runs + [r])[..|runs|] == runs;
  }

  /** Four equal nonzero lengths open the list, so a repeat must be used. */
  ghost predicate OpensWithFour(len: seq<nat>) {
    |len| >= 4 && len[0] != 0 && len[0] == len[1] == len[2] == len[3]
  }

  ghost predicate Written(len: seq<nat>, i: nat, runs: seq<Run>) {
    && |runs| <= i <= |len| && Good(runs) && Expand(runs) == len[..i]
    && (i == 0 ==> runs == [])
  }

  /** One entry is appended; it stands for the next `r` lengths. Its extra bits are kept in a byte. */
  method Emit(out: array<Run>, k: nat, s: nat, x: nat, n: nat, ghost len: seq<nat>, ghost i: nat, ghost r: nat)
    requires k <= i < |len| <= out.Length && Written(len, i, out[..k])
    requires r >= 1 && i + r <= |len|
    requires GoodRun(len[..i], Run(s, x % 256, n)) && Apply(len[..i], Run(s, x % 256, n)) == len[..i + r]
    modifies out
    ensures Written(len, i + r, out[..k + 1])
    ensures out[k].sym == s && forall j :: 0 <= j < k ==> out[j] == old(out[j])
  {
    out[k] := Run(s, x % 256, n);
    assert out[..k + 1] == old(out[..k]) + [Run(s, x % 256, n)];
    GoodSnoc(old(out[..k]), Run(s, x % 256, n));
  }

  /** Where the run of equal lengths starting at `i` ends. */
  method RunLength(len: seq<nat>, i: nat) returns (run: nat)
    requires i < |len|
    ensures 1 <= run <= |len| - i && forall j :: i <= j < i + run ==> len[j] == len[i]
    ensures i + run < |len| ==> len[i + run] != len[i]
  {
    run := 1;
    while i + run < |len| && len[i + run] == len[i]
      invariant 1 <= run <= |len| - i && forall j :: i <= j < i + run ==> len[j] == len[i]
    {
      run := run + 1;
    }
  }

  /** The three repeat symbols: how many lengths each covers, and its extra bits. */
  predicate Repeat(s: nat, lo: nat, hi: nat, n: nat) {
    || (s == 18 && lo == 11 && hi == 138 && n == 7)
    || (s == 17 && lo == 3 && hi == 10 && n == 3)
    || (s == 16 && lo == 3 && hi == 6 && n == 2)
  }

  lemma {:induction false} RepeatStep(len: seq<nat>, i: nat, r: nat, v: nat, s: nat, lo: nat, hi: nat, n: nat)
    requires Repeat(s, lo, hi, n) && lo <= r <= hi
    requires i + r <= |len| && forall j :: i <= j < i + r ==> len[j] == v
    requires if s == 16 then i > 0 && len[i - 1] == v else v == 0
    ensures GoodRun(len[..i], Run(s, (r - lo) % 256, n))
    ensures Apply(len[..i], Run(s, (r - lo) % 256, n)) == len[..i + r]
  {
    assert (r - lo) % 256 == r - lo;
    assert len[..i] + Rep(v, r) == len[..i + r];
  }

  /** One repeat symbol: as many equal lengths as it can cover. */
  method RepeatOnce(len: seq<nat>, i: nat, run: nat, ghost v: nat, s: nat, lo: nat, hi: nat, n: nat,
                    out: array<Run>, k: nat)
    returns (r: nat)
    requires Repeat(s, lo, hi, n) && lo <= run && k <= i < i + run <= |len| <= out.Length
    requires forall j :: i <= j < i + run ==> len[j] == v
    requires if s == 16 then i > 0 && len[i - 1] == v else v == 0
    requires Written(len, i, out[..k])
    modifies out
    ensures 1 <= r <= run && Written(len, i + r, out[..k + 1])
    ensures out[k].sym == s && forall j :: 0 <= j < k ==> out[j] == old(out[j])
  {
    r := if run > hi then hi else run;
    RepeatStep(len, i, r, v, s, lo, hi, n);
    Emit(out, k, s, r - lo, n, len, i, r);
  }

  /** `while (run >= lo)` with a repeat symbol `s` that covers `lo` to `hi` equal lengths at a time. */
  method RepeatLoop(len: seq<nat>, i0: nat, run0: nat, ghost v: nat, s: nat, lo: nat, hi: nat, n: nat,
                    out: array<Run>, k0: nat)
    returns (i: nat, run: nat, k: nat)
    requires out.Length >= |len|
    requires k0 <= i0 && i0 + run0 <= |len| && forall j :: i0 <= j < i0 + run0 ==> len[j] == v
    requires Written(len, i0, out[..k0])
    requires Repeat(s, lo, hi, n) && if s == 16 then i0 > 0 && len[i0 - 1] == v else v == 0
    modifies out
    ensures i0 <= i && i + run == i0 + run0 && k0 <= k <= i
    ensures Written(len, i, out[..k])
    ensures forall j :: 0 <= j < k0 ==> out[j] == old(out[j])
    ensures run0 >= lo ==> k > k0 && out[k0].sym == s
  {
    i, run, k := i0, run0, k0;
    while run >= lo
      invariant i0 <= i && i + run == i0 + run0 && k0 <= k <= i
      invariant Written(len, i, out[..k])
      invariant forall j :: 0 <= j < k0 ==> out[j] == old(out[j])
      invariant k > k0 ==> out[k0].sym == s
      invariant i > i0 ==> k > k0
    {
      var r := RepeatOnce(len, i, run, v, s, lo, hi, n, out, k);
      k, run, i := k + 1, run - r, i + r;
    }
  }

  lemma {:induction false} SingleStep(len: seq<nat>, i: nat, v: nat)
    requires i < |len| && len[i] == v < 16
    ensures GoodRun(len[..i], Run(v, 0 % 256, 0)) && Apply(len[..i], Run(v, 0 % 256, 0)) == len[..i + 1]
  {
  }

  /** `while (run--)`: each remaining length written out by itself. */
  method SingleLoop(len: seq<nat>, i0: nat, run0: nat, v: nat,
                    out: array<Run>, k0: nat)
    returns (i: nat, k: nat)
    requires out.Length >= |len|
    requires k0 <= i0 && i0 + run0 <= |len| && v < 16 && forall j :: i0 <= j < i0 + run0 ==> len[j] == v
    requires Written(len, i0, out[..k0])
    modifies out
    ensures i == i0 + run0 && k == k0 + run0 && Written(len, i, out[..k])
    ensures forall j :: 0 <= j < k0 ==> out[j] == old(out[j])
  {
    hide Written, GoodRun, Apply;
    i, k := i0, k0;
    var run: nat := run0;
    while run > 0
      invariant i + run == i0 + run0 && k + run == k0 + run0
      invariant Written(len, i, out[..k])
      invariant forall j :: 0 <= j < k0 ==> out[j] == old(out[j])
    {
      SingleStep(len, i, v);
      Emit(out, k, v, 0, 0, len, i, 1);
      k, run, i := k + 1, run - 1, i + 1;
    }
  }

  /** A run of zeros: symbol 18 while eleven or more are left, then 17, then single zeros. */
  method ZeroRun(len: seq<nat>, i0: nat, run0: nat, out: array<Run>, k0: nat)
    returns (i: nat, k: nat)
    requires out.Length >= |len|
    requires k0 <= i0 && i0 + run0 <= |len| && forall j :: i0 <= j < i0 + run0 ==> len[j] == 0
    requires Written(len, i0, out[..k0])
    modifies out
    ensures i == i0 + run0 && k <= i && Written(len, i, out[..k])
    ensures k >= k0 && forall j :: 0 <= j < k0 ==> out[j] == old(out[j])
  {
    var run;
    i, run, k := RepeatLoop(len, i0, run0, 0, 18, 11, 138, 7, out, k0);
    i, run, k := RepeatLoop(len, i, run, 0, 17, 3, 10, 3, out, k);
    i, k := SingleLoop(len, i, run, 0, out, k);
  }

  /** A run of one nonzero length: the length itself, then repeats of three to six, then what is left. */
  method ValueRun(len: seq<nat>, i0: nat, run0: nat, out: array<Run>, k0: nat)
    returns (i: nat, k: nat)
    requires out.Length >= |len|
    requires k0 <= i0 && run0 >= 1 && i0 + run0 <= |len| && len[i0] < 16
    requires forall j :: i0 <= j < i0 + run0 ==> len[j] == len[i0]
    requires Written(len, i0, out[..k0])
    modifies out
    ensures i == i0 + run0 && k <= i && Written(len, i, out[..k])
    ensures k >= k0 && forall j :: 0 <= j < k0 ==> out[j] == old(out[j])
    ensures run0 >= 4 ==> k >= k0 + 2 && out[k0 + 1].sym == 16
  {
    var v, run := len[i0], run0 - 1;
    Emit(out, k0, v, 0, 0, len, i0, 1);
    i, run, k := RepeatLoop(len, i0 + 1, run, v, 16, 3, 6, 2, out, k0 + 1);
    i, k := SingleLoop(len, i, run, v, out, k);
  }

  /** df_runs: the symbols written stand for exactly the lengths given. */
  method CodeRuns(len: seq<nat>, out: array<Run>) returns (k: nat)
    requires out.Length >= |len|
    requires forall j :: 0 <= j < |len| ==> len[j] < 16
    modifies out
    ensures k <= |len| && Good(out[..k])
    ensures Expand(out[..k]) == len
    ensures OpensWithFour(len) ==> k >= 2 && out[1].sym == 16
  {
    var i: nat := 0;
    k := 0;
    while i < |len|
      invariant k <= i <= |len| && Written(len, i, out[..k])
      invariant i > 0 && OpensWithFour(len) ==> k >= 2 && out[1].sym == 16
    {
      var run := RunLength(len, i);
      if len[i] == 0 {
        i, k := ZeroRun(len, i, run, out, k);
      } else {
        i, k := ValueRun(len, i, run, out, k);
      }
    }
    assert len[..i] == len;
  }

  // ---- two different symbols always occur ----

  ghost predicate Occurs(runs: seq<Run>, s: nat) {
    exists i :: 0 <= i < |runs| && runs[i].sym == s
  }

  lemma {:induction false} OccursSnoc(runs: seq<Run>, r: Run, s: nat)
    ensures Occurs(runs + [r], s) <==> Occurs(runs, s) || r.sym == s
  {
    if i :| 0 <= i < |runs| && runs[i].sym == s { assert (runs + [r])[i].sym == s; }
    if r.sym == s { assert (runs + [r])[|runs|].sym == s; }
  }

  /** The symbol that brought in a length: the length itself, or one of the three ways to write zeros. */
  lemma {:induction false} Witness(runs: seq<Run>, j: nat) returns (s: nat)
    requires Good(runs) && j < |Expand(runs)|
    ensures Occurs(runs, s)
    ensures Expand(runs)[j] != 0 ==> s == Expand(runs)[j] && s < 16
    ensures Expand(runs)[j] == 0 ==> s == 0 || s == 17 || s == 18
  {
    var init, r := runs[..|runs| - 1], runs[|runs| - 1];
    assert runs == init + [r];
    var acc := Expand(init);
    if j < |acc| {
      s := Witness(init, j);
    } else if r.sym == 16 {
      s := Witness(init, |acc| - 1);
    } else {
      s := r.sym;
    }
    OccursSnoc(init, r, s);
  }

  /** With a nonzero length among at least four, two different code-length symbols occur. */
  lemma {:induction false} TwoSymbols(runs: seq<Run>, len: seq<nat>, p: nat) returns (s: nat, t: nat)
    requires Good(runs) && Expand(runs) == len && |len| >= 4 && p < |len| && len[p] != 0
    requires OpensWithFour(len) ==> |runs| >= 2 && runs[1].sym == 16
    ensures s != t && s <= 18 && t <= 18 && Occurs(runs, s) && Occurs(runs, t)
  {
    s := Witness(runs, p);
    if q :| 0 <= q < |len| && len[q] != len[p] {
      t := Witness(runs, q);
    } else {
      assert len[0] == len[p] && len[1] == len[p] && len[2] == len[p] && len[3] == len[p];
      t := 16;
      assert runs[1].sym == 16;
    }
  }
}
