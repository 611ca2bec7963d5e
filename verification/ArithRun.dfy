/** The evaluator and the meaning of trees, put together. */
module ArithRun {
  import opened ArithText
  import opened ArithTree
  import opened ArithRoundTrip
  import Arith

  /** A tree, printed and evaluated, gives its meaning. */
  method Evaluate(t: Tree, store: map<string, int>) returns (r: Outcome)
    requires Good(t) && Nesting(t, 0) <= DEPTH
    ensures var m := Eval(t, store);
            r == Outcome(if m.v.None? then 0 else m.v.value, m.store, m.v.None?)
  {
    hide Run, Eval, Nesting, Good, Print;
    RunMeans(t, store);
    r := Arith.RunText(Print(t), store);
  }
}
