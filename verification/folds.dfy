/** `Array.prototype.reduce` with an initial value, and the fact that a
    reducer whose steps commute gives the same result for every ordering
    of the input. */
module Folds {

  /** `xs.reduce(step, init)`: the first element is folded in first. */
  function Reduce<S, T>(step: (S, T) -> S, init: S, xs: seq<T>): S
    decreases |xs|
  {
    if |xs| == 0 then init else Reduce(step, step(init, xs[0]), xs[1..])
  }

  /** Applying two elements in either order gives the same state. */
  ghost predicate Commutes<S(!new), T(!new)>(step: (S, T) -> S)
  {
    forall s, a, b :: step(step(s, a), b) == step(step(s, b), a)
  }

  lemma ReduceCons<S, T>(step: (S, T) -> S, init: S, x: T, rest: seq<T>)
    ensures Reduce(step, init, [x] + rest) == Reduce(step, step(init, x), rest)
  {
    assert ([x] + rest)[1..] == rest;
  }

  lemma {:induction false} ReduceMoveToFront<S(!new), T(!new)>(step: (S, T) -> S, init: S, ys: seq<T>, i: nat)
    requires Commutes(step)
    requires i < |ys|
    ensures Reduce(step, init, ys) == Reduce(step, step(init, ys[i]), ys[..i] + ys[i + 1..])
    decreases i
  {
    var y0, tail := ys[0], ys[1..];
    assert ys == [y0] + tail;
    ReduceCons(step, init, y0, tail);
    if i == 0 {
      assert ys[..i] + ys[i + 1..] == tail;
    } else {
      var x := ys[i];
      var rest := tail[..i - 1] + tail[i..];
      assert tail[i - 1] == x;
      ReduceMoveToFront(step, step(init, y0), tail, i - 1);
      assert step(step(init, y0), x) == step(step(init, x), y0);
      ReduceCons(step, step(init, x), y0, rest);
      assert ys[..i] + ys[i + 1..] == [y0] + rest;
    }
  }

  /** A commuting reducer does not depend on the order of its input. */
  lemma {:induction false} ReducePermutation<S(!new), T(!new)>(step: (S, T) -> S, init: S, xs: seq<T>, ys: seq<T>)
    requires Commutes(step)
    requires multiset(xs) == multiset(ys)
    ensures Reduce(step, init, xs) == Reduce(step, init, ys)
    decreases |xs|
  {
    if |xs| > 0 {
      var x := xs[0];
      assert x in multiset(ys);
      var i :| 0 <= i < |ys| && ys[i] == x;
      var left, right := ys[..i], ys[i + 1..];
      var ys' := left + right;
      assert ys == left + [x] + right;
      assert multiset(ys) == multiset(left) + multiset([x]) + multiset(right);
      assert multiset(ys') == multiset(left) + multiset(right);
      assert xs == [x] + xs[1..];
      assert multiset(xs) == multiset([x]) + multiset(xs[1..]);
      assert multiset(xs[1..]) == multiset(xs) - multiset{x};
      assert multiset(ys') == multiset(ys) - multiset{x};
      ReduceMoveToFront(step, init, ys, i);
      ReduceCons(step, init, x, xs[1..]);
      ReducePermutation(step, step(init, x), xs[1..], ys');
    } else {
      assert |ys| == |multiset(ys)| == 0;
    }
  }

  /** Two reducers run side by side over the same input keep any relation
      that each step preserves. */
  lemma {:induction false} ReduceSimulation<A(!new), B(!new), T(!new)>(
    f: (A, T) -> A, g: (B, T) -> B, related: (A, B) -> bool, a: A, b: B, xs: seq<T>)
    requires forall s, t, x :: related(s, t) ==> related(f(s, x), g(t, x))
    requires related(a, b)
    ensures related(Reduce(f, a, xs), Reduce(g, b, xs))
    decreases |xs|
  {
    if |xs| > 0 {
      ReduceSimulation(f, g, related, f(a, xs[0]), g(b, xs[0]), xs[1..]);
    }
  }
}
