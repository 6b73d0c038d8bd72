/** Sequence operations shared by the containers and the session tables. */
module Seqs {

  /** Order-preserving filter. */
  function Filter<T>(s: seq<T>, p: T -> bool): (r: seq<T>)
    ensures forall x | x in r :: x in s && p(x)
    ensures forall x | x in s && p(x) :: x in r
  {
    if s == [] then []
    else if p(s[0]) then [s[0]] + Filter(s[1..], p)
    else Filter(s[1..], p)
  }

  lemma {:induction false} FilterAppend<T>(s: seq<T>, t: seq<T>, p: T -> bool)
    ensures Filter(s + t, p) == Filter(s, p) + Filter(t, p)
  {
    if s == [] {
      assert s + t == t;
    } else {
      assert (s + t)[1..] == s[1..] + t;
      FilterAppend(s[1..], t, p);
    }
  }

  lemma FilterCons<T>(x: T, t: seq<T>, p: T -> bool)
    ensures Filter([x] + t, p) == (if p(x) then [x] else []) + Filter(t, p)
  {
    assert ([x] + t)[1..] == t;
  }

  lemma {:induction false} NothingPasses<T>(s: seq<T>, p: T -> bool)
    requires forall x :: x in s ==> !p(x)
    ensures Filter(s, p) == []
  {
    if s != [] {
      NothingPasses(s[1..], p);
    }
  }

  lemma {:induction false} AllPass<T>(s: seq<T>, p: T -> bool)
    requires forall x :: x in s ==> p(x)
    ensures Filter(s, p) == s
  {
    if s != [] {
      AllPass(s[1..], p);
    }
  }

  lemma FirstTaken<T>(a: seq<T>, x: T, b: seq<T>, p: T -> bool)
    requires p(x) && forall y :: y in a ==> !p(y)
    ensures Filter(a + ([x] + b), p) == [x] + Filter(a + b, p)
  {
    FilterAppend(a, [x] + b, p);
    FilterAppend(a, b, p);
    NothingPasses(a, p);
    FilterCons(x, b, p);
    var f := Filter(b, p);
    assert [] + ([x] + f) == [x] + f && [] + f == f;
  }

  lemma OtherTaken<T>(a: seq<T>, x: T, b: seq<T>, p: T -> bool)
    requires !p(x)
    ensures Filter(a + ([x] + b), p) == Filter(a + b, p)
  {
    FilterAppend(a, [x] + b, p);
    FilterAppend(a, b, p);
    FilterCons(x, b, p);
    assert [] + Filter(b, p) == Filter(b, p);
  }

  lemma MovesAcross<T>(a: seq<T>, x: T, rest: seq<T>, p: T -> bool)
    requires p(x)
    ensures Filter(a + [x], p) + rest == Filter(a, p) + ([x] + rest)
  {
    FilterAppend(a, [x], p);
    assert Filter([x], p) == [x];
    assert (Filter(a, p) + [x]) + rest == Filter(a, p) + ([x] + rest);
  }

  lemma Regroup<T>(a: seq<T>, b: seq<T>, c: seq<T>, d: seq<T>)
    ensures a + b + c + d == a + (b + c + d)
  {
  }

  /** The time that passes in steps of these lengths. */
  function TotalTime(ticks: seq<nat>): nat {
    if ticks == [] then 0 else ticks[0] + TotalTime(ticks[1..])
  }

  // ----- runs

  /** Every step of `es` is allowed when its turn comes, and together they take `s` to `s'`. */
  ghost predicate Chain<S, E>(allowed: (S, E) -> bool, next: (S, E) -> S, s: S, es: seq<E>, s': S)
    decreases |es|
  {
    if es == [] then s' == s
    else allowed(s, es[0]) && Chain(allowed, next, next(s, es[0]), es[1..], s')
  }

  lemma {:induction false} ChainConcat<S, E>(allowed: (S, E) -> bool, next: (S, E) -> S, s: S, xs: seq<E>, m: S,
                                             ys: seq<E>, s': S)
    requires Chain(allowed, next, s, xs, m) && Chain(allowed, next, m, ys, s')
    ensures Chain(allowed, next, s, xs + ys, s')
    decreases |xs|
  {
    if xs == [] {
      assert xs + ys == ys;
    } else {
      assert (xs + ys)[1..] == xs[1..] + ys;
      ChainConcat(allowed, next, next(s, xs[0]), xs[1..], m, ys, s');
    }
  }

  lemma ChainOne<S, E>(allowed: (S, E) -> bool, next: (S, E) -> S, s: S, e: E)
    requires allowed(s, e)
    ensures Chain(allowed, next, s, [e], next(s, e))
  {
    assert [e][1..] == [];
  }

  /** Remove position `i` by moving the last item into it. */
  function SwapRemove<T>(s: seq<T>, i: nat): (r: seq<T>)
    requires i < |s|
    ensures |r| == |s| - 1
  {
    s[i := s[|s| - 1]][..|s| - 1]
  }

  lemma SwapRemoveContents<T>(s: seq<T>, i: nat)
    requires i < |s|
    ensures multiset(SwapRemove(s, i)) == multiset(s) - multiset{s[i]}
  {
    var n := |s| - 1;
    if i == n {
      assert s == SwapRemove(s, i) + [s[i]];
    } else {
      assert s == s[..i] + [s[i]] + s[i + 1..n] + [s[n]];
      assert SwapRemove(s, i) == s[..i] + [s[n]] + s[i + 1..n];
      LastMovesUp(s[..i], s[i], s[i + 1..n], s[n]);
    }
  }

  lemma LastMovesUp<T>(a: seq<T>, x: T, b: seq<T>, y: T)
    ensures multiset(a + [y] + b) == multiset(a + [x] + b + [y]) - multiset{x}
  {
    assert multiset(a + [y] + b) == multiset(a) + multiset{y} + multiset(b);
    assert multiset(a + [x] + b + [y]) == multiset(a) + multiset{x} + multiset(b) + multiset{y};
  }
}
