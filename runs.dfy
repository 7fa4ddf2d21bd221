/** Running a step function over a sequence of items in order, threading a
    state through and collecting one outcome per item: the shape of a
    `for` loop whose body updates shared state and records a result. */
module Runs {

  function Run<S, I, O>(step: (S, I) -> (O, S), s: S, items: seq<I>): (r: (seq<O>, S))
    ensures |r.0| == |items|
    decreases |items|
  {
    if items == [] then ([], s)
    else
      var before := Run(step, s, items[..|items| - 1]);
      var last := step(before.1, items[|items| - 1]);
      (before.0 + [last.0], last.1)
  }

  /** The last item runs on the state the others left. */
  lemma RunStep<S, I, O>(step: (S, I) -> (O, S), s: S, items: seq<I>)
    requires items != []
    ensures var before := Run(step, s, items[..|items| - 1]);
      var last := step(before.1, items[|items| - 1]);
      Run(step, s, items) == (before.0 + [last.0], last.1)
  {
  }

  /** Extending the processed prefix by one item appends that item's step. */
  lemma RunExtend<S, I, O>(step: (S, I) -> (O, S), s: S, items: seq<I>, i: nat,
                           out: seq<O>, mid: S, o: O, after: S)
    requires i < |items|
    requires (out, mid) == Run(step, s, items[..i])
    requires (o, after) == step(mid, items[i])
    ensures (out + [o], after) == Run(step, s, items[..i + 1])
  {
    var done := items[..i + 1];
    assert done[..i] == items[..i] && done[i] == items[i];
    RunStep(step, s, done);
  }

  /** A run over one item is one step. */
  lemma RunSingle<S, I, O>(step: (S, I) -> (O, S), s: S, x: I)
    ensures Run(step, s, [x]) == ([step(s, x).0], step(s, x).1)
  {
    assert [x][..0] == [];
    RunStep(step, s, [x]);
    assert Run(step, s, []) == ([], s);
    assert [] + [step(s, x).0] == [step(s, x).0];
  }

  /** The `i`-th outcome is the step on `items[i]` from the state the
      first `i` items left. */
  lemma {:induction false} RunAt<S, I, O>(step: (S, I) -> (O, S), s: S, items: seq<I>, i: nat)
    requires i < |items|
    ensures Run(step, s, items).0[i] == step(Run(step, s, items[..i]).1, items[i]).0
  {
    var n := |items| - 1;
    if i < n {
      RunAt(step, s, items[..n], i);
      assert items[..n][..i] == items[..i] && items[..n][i] == items[i];
    } else {
      assert items[..i] == items[..n];
    }
  }

  /** Running `a + b` is running `a`, then `b` from where `a` ended. */
  lemma {:induction false} RunAppend<S, I, O>(step: (S, I) -> (O, S), s: S, a: seq<I>, b: seq<I>)
    ensures var first := Run(step, s, a);
      var second := Run(step, first.1, b);
      Run(step, s, a + b) == (first.0 + second.0, second.1)
    decreases |b|
  {
    if b == [] {
      assert a + b == a;
      assert Run(step, s, a).0 + [] == Run(step, s, a).0;
    } else {
      var n := |b| - 1;
      var first := Run(step, s, a);
      var prefix := Run(step, first.1, b[..n]);
      var last := step(prefix.1, b[n]);
      RunAppend(step, s, a, b[..n]);
      assert (a + b)[..|a + b| - 1] == a + b[..n];
      assert (a + b)[|a + b| - 1] == b[n];
      RunStep(step, s, a + b);
      RunStep(step, first.1, b);
      assert (first.0 + prefix.0) + [last.0] == first.0 + (prefix.0 + [last.0]);
    }
  }

  /** An item whose step leaves the state alone can be dropped: the run
      ends in the same state, and the items after it have the same
      outcomes. */
  lemma RunDropsIdle<S, I, O>(step: (S, I) -> (O, S), s: S, pre: seq<I>, x: I, post: seq<I>)
    requires step(Run(step, s, pre).1, x).1 == Run(step, s, pre).1
    ensures var whole := Run(step, s, pre + [x] + post);
      var without := Run(step, s, pre + post);
      whole.1 == without.1 && whole.0[|pre| + 1..] == without.0[|pre|..]
  {
    RunAppend(step, s, pre, [x]);
    RunSingle(step, Run(step, s, pre).1, x);
    RunAppend(step, s, pre + [x], post);
    RunAppend(step, s, pre, post);
  }

  /** The first `k` items and the rest put back together. */
  lemma RunSplit<S, I, O>(step: (S, I) -> (O, S), s: S, items: seq<I>, k: nat)
    requires k <= |items|
    ensures Run(step, s, items).1 == Run(step, Run(step, s, items[..k]).1, items[k..]).1
  {
    assert items[..k] + items[k..] == items;
    RunAppend(step, s, items[..k], items[k..]);
  }

  lemma AppendIndex<T>(x: seq<T>, z: T)
    ensures |x + [z]| == |x| + 1 && (x + [z])[|x|] == z
    ensures forall i :: 0 <= i < |x| ==> (x + [z])[i] == x[i]
  {
  }

  lemma Pair<T>(x: T, y: T)
    ensures [x] + [y] == [x, y]
  {
  }
}
