/** Small shared datatypes and sequence facts. */
module Prelude {

  datatype Option<+T> = None | Some(value: T) {
    function GetOr(default: T): T {
      if Some? then value else default
    }
  }

  datatype Result<+T, +E> = Success(value: T) | Failure(error: E)

  function Reverse<T>(s: seq<T>): (r: seq<T>)
    ensures |r| == |s|
    ensures forall i :: 0 <= i < |s| ==> r[i] == s[|s| - 1 - i]
  {
    if s == [] then [] else Reverse(s[1..]) + [s[0]]
  }

  /** The leaves of a chain of errors.Join calls, in order; [] is the nil error. */
  function JoinAll<E>(results: seq<Option<E>>): (joined: seq<E>) {
    if results == [] then []
    else JoinAll(results[..|results| - 1]) + Leaf(results[|results| - 1])
  }

  function Leaf<E>(result: Option<E>): seq<E> {
    if result.Some? then [result.value] else []
  }

  /** What the given functions return, in the order they are called. */
  function Results<C, E>(closers: seq<C>, result: C -> Option<E>): (results: seq<Option<E>>)
    ensures |results| == |closers|
  {
    seq(|closers|, i requires 0 <= i < |closers| => result(closers[i]))
  }

  lemma ResultsAppend<C, E>(closers: seq<C>, c: C, result: C -> Option<E>)
    ensures JoinAll(Results(closers + [c], result)) == JoinAll(Results(closers, result)) + Leaf(result(c))
  {
    var before, after := Results(closers, result), Results(closers + [c], result);
    assert after[..|after| - 1] == before;
  }

  lemma TakeNext<T>(s: seq<T>, n: nat)
    requires n < |s|
    ensures s[..n + 1] == s[..n] + [s[n]]
  {
  }

  lemma AppendNext<T>(front: seq<T>, s: seq<T>, n: nat)
    requires n < |s|
    ensures front + s[..n + 1] == front + s[..n] + [s[n]]
  {
    TakeNext(s, n);
  }

  lemma JoinNext<C, E>(closers: seq<C>, n: nat, result: C -> Option<E>)
    requires n < |closers|
    ensures JoinAll(Results(closers[..n + 1], result)) ==
            JoinAll(Results(closers[..n], result)) + Leaf(result(closers[n]))
  {
    TakeNext(closers, n);
    ResultsAppend(closers[..n], closers[n], result);
  }

  /** Joining loses no error and adds none: the joined error is nil exactly if every one is. */
  lemma {:induction false} JoinAllKeeps<E>(results: seq<Option<E>>)
    ensures forall e :: e in JoinAll(results) <==> Some(e) in results
    ensures JoinAll(results) == [] <==> forall r :: r in results ==> r.None?
  {
    if results == [] {
    } else {
      var front, last := results[..|results| - 1], results[|results| - 1];
      JoinAllKeeps(front);
      assert results == front + [last];
    }
  }

  lemma TakeAll<T>(s: seq<T>)
    ensures s[..|s|] == s
  {
  }

  /** The total of a multiset-valued weight over a sequence. */
  ghost function Total<T, C>(xs: seq<T>, weight: T -> multiset<C>): multiset<C> {
    if xs == [] then multiset{} else Total(xs[..|xs| - 1], weight) + weight(xs[|xs| - 1])
  }

  /** Replacing one element by one that weighs `more` in addition raises the total by `more`. */
  lemma {:induction false} TotalUpdate<T, C>(xs: seq<T>, i: nat, x: T, weight: T -> multiset<C>, more: multiset<C>)
    requires i < |xs| && weight(x) == weight(xs[i]) + more
    ensures Total(xs[i := x], weight) == Total(xs, weight) + more
  {
    var last, ys := |xs| - 1, xs[i := x];
    if i == last {
      assert ys[..last] == xs[..last];
    } else {
      assert ys[..last] == xs[..last][i := x];
      TotalUpdate(xs[..last], i, x, weight, more);
      assert Total(ys, weight) == Total(xs[..last], weight) + more + weight(xs[last]);
    }
  }

  lemma {:induction false} TotalAppend<T, C>(xs: seq<T>, ys: seq<T>, weight: T -> multiset<C>)
    ensures Total(xs + ys, weight) == Total(xs, weight) + Total(ys, weight)
  {
    if ys == [] {
      assert xs + ys == xs;
    } else {
      var last := |ys| - 1;
      assert (xs + ys)[..|xs + ys| - 1] == xs + ys[..last];
      TotalAppend(xs, ys[..last], weight);
    }
  }

  lemma {:induction false} TotalZero<T, C>(xs: seq<T>, weight: T -> multiset<C>)
    requires forall x :: x in xs ==> weight(x) == multiset{}
    ensures Total(xs, weight) == multiset{}
  {
    if xs == [] {
    } else {
      assert xs[|xs| - 1] in xs;
      TotalZero(xs[..|xs| - 1], weight);
    }
  }

  lemma {:induction false} TotalSplit<T, C>(xs: seq<T>, whole: T -> multiset<C>,
      a: T -> multiset<C>, b: T -> multiset<C>, c: T -> multiset<C>)
    requires forall x :: x in xs ==> whole(x) == a(x) + b(x) + c(x)
    ensures Total(xs, whole) == Total(xs, a) + Total(xs, b) + Total(xs, c)
  {
    if xs == [] {
    } else {
      assert xs[|xs| - 1] in xs;
      TotalSplit(xs[..|xs| - 1], whole, a, b, c);
    }
  }
}
