/**
 * pkg/wg/connection.go, Close: any number of overlapping calls. The swap, each closer's call, each
 * join into the shared error, and each final load are steps of their own.
 */
module CloseRace {
  import opened Prelude
  import Wireguard

  type Closer = Wireguard.Closer
  type Error = Wireguard.Error

  /** Where one call of Close stands. */
  datatype Call =
    | Swapping                             // about to run CompareAndSwap
    | Running(left: nat)                   // won the swap; closers[..left] are still to be called
    | Joining(at: nat)                     // closers[at] has returned; its result is to be joined
    | Loading                              // about to dereference close
    | Returned(err: seq<Error>, seen: nat) // returned *close, into which `seen` results were joined

  /**
   * close points to the named result `err` of the call that won the swap, and is nil before that;
   * ran and joined are history: the closers called and how many results were joined.
   */
  datatype State = State(closers: seq<Closer>, winner: Option<nat>, err: seq<Error>, calls: seq<Call>,
    ran: seq<Closer>, joined: nat)

  function Init(closers: seq<Closer>): State {
    State(closers, None, [], [], [], 0)
  }

  datatype Step =
    | CallClose
    | Swap(call: nat)
    | RunCloser(call: nat)
    | Join(call: nat)
    | Clear(call: nat)
    | Load(call: nat)

  predicate Enabled(s: State, step: Step) {
    match step
    case CallClose => true
    case Swap(k) => k < |s.calls| && s.calls[k].Swapping?
    case RunCloser(k) => k < |s.calls| && s.calls[k].Running? && 0 < s.calls[k].left <= |s.closers|
    case Join(k) => k < |s.calls| && s.calls[k].Joining? && s.calls[k].at < |s.closers|
    case Clear(k) => k < |s.calls| && s.calls[k] == Running(0)
    case Load(k) => k < |s.calls| && s.calls[k].Loading?
  }

  function Do(s: State, step: Step, result: Closer -> Option<Error>): State
    requires Enabled(s, step)
  {
    match step
    case CallClose => s.(calls := s.calls + [Swapping])
    case Swap(k) =>
      if s.winner.Some? then s.(calls := s.calls[k := Loading])
      else s.(winner := Some(k), calls := s.calls[k := Running(|s.closers|)])
    case RunCloser(k) =>
      var i := s.calls[k].left - 1;
      s.(ran := s.ran + [s.closers[i]], calls := s.calls[k := Joining(i)])
    case Join(k) =>
      var i := s.calls[k].at;
      s.(err := s.err + Leaf(result(s.closers[i])), joined := s.joined + 1, calls := s.calls[k := Running(i)])
    case Clear(k) => s.(closers := [], calls := s.calls[k := Loading])
    case Load(k) => s.(calls := s.calls[k := Returned(s.err, s.joined)])
  }

  ghost predicate IsRun(s: State, steps: seq<Step>, result: Closer -> Option<Error>)
    decreases |steps|
  {
    steps == [] || (Enabled(s, steps[0]) && IsRun(Do(s, steps[0], result), steps[1..], result))
  }

  ghost function Exec(s: State, steps: seq<Step>, result: Closer -> Option<Error>): State
    requires IsRun(s, steps, result)
    decreases |steps|
  {
    if steps == [] then s else Exec(Do(s, steps[0], result), steps[1..], result)
  }

  // ---- What every run keeps ----

  /** The errors of the first n closers that run, the last registered ones. */
  function Joined(all: seq<Closer>, n: nat, result: Closer -> Option<Error>): seq<Error>
    requires n <= |all|
  {
    JoinAll(Results(Reverse(all)[..n], result))
  }

  predicate Working(call: Call) {
    call.Running? || call.Joining?
  }

  /** Only the winner works, it stands where the history says, and nobody has read further. */
  predicate CallInv(s: State, all: seq<Closer>, result: Closer -> Option<Error>, k: nat)
    requires k < |s.calls|
  {
    match s.calls[k]
    case Swapping => s.winner != Some(k)
    case Running(left) =>
      s.winner == Some(k) && s.closers == all && left + s.joined == |all| && |s.ran| == s.joined
    case Joining(i) =>
      s.winner == Some(k) && s.closers == all && i + 1 + s.joined == |all| && |s.ran| == s.joined + 1
    case Loading => s.winner.Some? && (s.winner == Some(k) ==> s.joined == |all|)
    case Returned(err, seen) =>
      && s.winner.Some? && seen <= s.joined <= |all| && err == Joined(all, seen, result)
      && (s.winner == Some(k) ==> s.joined == seen == |all|)
  }

  ghost predicate Inv(s: State, all: seq<Closer>, result: Closer -> Option<Error>) {
    && s.joined <= |s.ran| <= |all|
    && s.ran == Reverse(all)[..|s.ran|]
    && s.err == Joined(all, s.joined, result)
    && (s.winner.None? ==> s.closers == all && s.ran == [])
    && (s.winner.Some? ==> s.winner.value < |s.calls|)
    && (forall k :: 0 <= k < |s.calls| ==> CallInv(s, all, result, k))
  }

  lemma JoinedGrows(all: seq<Closer>, n: nat, result: Closer -> Option<Error>)
    requires n < |all|
    ensures Joined(all, n + 1, result) == Joined(all, n, result) + Leaf(result(all[|all| - 1 - n]))
  {
    JoinNext(Reverse(all), n, result);
  }

  lemma StepKeepsInv(s: State, step: Step, all: seq<Closer>, result: Closer -> Option<Error>)
    requires Inv(s, all, result) && Enabled(s, step)
    ensures Inv(Do(s, step, result), all, result)
  {
    var t := Do(s, step, result);
    match step {
      case RunCloser(k) =>
        assert CallInv(s, all, result, k);
        TakeNext(Reverse(all), |s.ran|);
      case Join(k) =>
        assert CallInv(s, all, result, k);
        JoinedGrows(all, s.joined, result);
      case Clear(k) =>
        assert CallInv(s, all, result, k);
      case _ =>
    }
    forall k | 0 <= k < |t.calls|
      ensures CallInv(t, all, result, k)
    {
      StepKeepsCall(s, step, all, result, k);
    }
  }

  lemma StepKeepsCall(s: State, step: Step, all: seq<Closer>, result: Closer -> Option<Error>, k: nat)
    requires Inv(s, all, result) && Enabled(s, step) && k < |Do(s, step, result).calls|
    ensures CallInv(Do(s, step, result), all, result, k)
  {
    if k < |s.calls| {
      assert CallInv(s, all, result, k);
    }
    if step.Swap? || step.RunCloser? || step.Join? || step.Clear? || step.Load? {
      assert CallInv(s, all, result, step.call);
    }
  }

  lemma {:induction false} RunKeepsInv(s: State, steps: seq<Step>, all: seq<Closer>, result: Closer -> Option<Error>)
    requires Inv(s, all, result) && IsRun(s, steps, result)
    ensures Inv(Exec(s, steps, result), all, result)
    decreases |steps|
  {
    if steps == [] {
    } else {
      StepKeepsInv(s, steps[0], all, result);
      RunKeepsInv(Do(s, steps[0], result), steps[1..], all, result);
    }
  }

  /**
   * However the calls overlap, the closers run in reverse order and none runs twice; every call
   * returns the joined errors of the closers whose results were in by its load, which may be a
   * part of them; the call that won the swap returns all of them, after all have run.
   */
  lemma OverlappingCloses(all: seq<Closer>, steps: seq<Step>, result: Closer -> Option<Error>)
    requires IsRun(Init(all), steps, result)
    ensures var t := Exec(Init(all), steps, result);
      && t.ran <= Reverse(all)
      && (forall k :: 0 <= k < |t.calls| && t.calls[k].Returned? ==>
            t.calls[k].seen <= |t.ran| && t.calls[k].err == Joined(all, t.calls[k].seen, result))
      && (forall k :: 0 <= k < |t.calls| && t.calls[k].Returned? && t.winner == Some(k) ==>
            t.ran == Reverse(all) && t.calls[k].err == JoinAll(Results(Reverse(all), result)))
  {
    assert Reverse(all)[..0] == [];
    RunKeepsInv(Init(all), steps, all, result);
    var t := Exec(Init(all), steps, result);
    forall k | 0 <= k < |t.calls| && t.calls[k].Returned?
      ensures t.calls[k].seen <= |t.ran| && t.calls[k].err == Joined(all, t.calls[k].seen, result)
      ensures t.winner == Some(k) ==> t.calls[k].seen == |all| == |t.ran|
    {
      assert CallInv(t, all, result, k);
    }
    assert Reverse(all)[..|all|] == Reverse(all);
  }

  // ---- Which error a late reader gets ----

  lemma {:induction false} JoinAllAppend(a: seq<Option<Error>>, b: seq<Option<Error>>)
    ensures JoinAll(a + b) == JoinAll(a) + JoinAll(b)
  {
    if b == [] {
      assert a + b == a;
    } else {
      var last := |b| - 1;
      assert (a + b)[..|a + b| - 1] == a + b[..last];
      JoinAllAppend(a, b[..last]);
    }
  }

  /** A reader that saw n results returns the whole error exactly if no later closer failed. */
  lemma CompleteExactly(all: seq<Closer>, n: nat, result: Closer -> Option<Error>)
    requires n <= |all|
    ensures Joined(all, n, result) == JoinAll(Results(Reverse(all), result)) <==>
            forall i :: n <= i < |all| ==> result(Reverse(all)[i]).None?
  {
    var order := Reverse(all);
    ResultsSplit(order, n, result);
    JoinAllAppend(Results(order[..n], result), Results(order[n..], result));
    AddsNothing(Joined(all, n, result), JoinAll(Results(order[n..], result)));
    NoLateError(order, n, result);
  }

  lemma ResultsSplit(order: seq<Closer>, n: nat, result: Closer -> Option<Error>)
    requires n <= |order|
    ensures Results(order, result) == Results(order[..n], result) + Results(order[n..], result)
  {
  }

  lemma AddsNothing(a: seq<Error>, b: seq<Error>)
    ensures a == a + b <==> b == []
  {
    assert |a + b| == |a| + |b|;
  }

  lemma NoLateError(order: seq<Closer>, n: nat, result: Closer -> Option<Error>)
    requires n <= |order|
    ensures JoinAll(Results(order[n..], result)) == [] <==> forall i :: n <= i < |order| ==> result(order[i]).None?
  {
    var late := Results(order[n..], result);
    JoinAllKeeps(late);
    forall i | n <= i < |order|
      ensures result(order[i]) in late
    {
      assert late[i - n] == result(order[i]);
    }
  }

  /** Once the winner has left its loop, whoever loads gets the whole error. */
  lemma AfterTheLoop(s: State, w: nat, k: nat, all: seq<Closer>, result: Closer -> Option<Error>)
    requires Inv(s, all, result) && s.winner == Some(w) && w < |s.calls| && !Working(s.calls[w])
    requires Enabled(s, Load(k))
    ensures Do(s, Load(k), result).calls[k] == Returned(JoinAll(Results(Reverse(all), result)), |all|)
  {
    assert CallInv(s, all, result, w);
    assert Reverse(all)[..|all|] == Reverse(all);
  }

  // ---- Calls end ----

  function Fuel(call: Call, closers: nat): nat {
    match call
    case Swapping => 2 * closers + 3
    case Running(left) => 2 * left + 2
    case Joining(i) => 2 * i + 3
    case Loading => 1
    case Returned(_, _) => 0
  }

  /** The step an unfinished call takes next; it waits for no other call. */
  function NextStep(s: State, k: nat): Step
    requires k < |s.calls| && !s.calls[k].Returned?
  {
    match s.calls[k]
    case Swapping => Swap(k)
    case Running(left) => if left == 0 then Clear(k) else RunCloser(k)
    case Joining(_) => Join(k)
    case _ => Load(k)
  }

  lemma CallsEnd(s: State, k: nat, all: seq<Closer>, result: Closer -> Option<Error>)
    requires Inv(s, all, result) && k < |s.calls| && !s.calls[k].Returned?
    ensures Enabled(s, NextStep(s, k))
    ensures Fuel(Do(s, NextStep(s, k), result).calls[k], |all|) < Fuel(s.calls[k], |all|)
    ensures forall j :: 0 <= j < |s.calls| && j != k ==> Do(s, NextStep(s, k), result).calls[j] == s.calls[j]
  {
    assert CallInv(s, all, result, k);
  }

  /** From any reachable state a call can run to its end alone, and that takes no more than its fuel. */
  lemma {:induction false} FinishesAlone(s: State, k: nat, all: seq<Closer>, result: Closer -> Option<Error>)
    returns (steps: seq<Step>)
    requires Inv(s, all, result) && k < |s.calls|
    ensures |steps| <= Fuel(s.calls[k], |all|) && IsRun(s, steps, result)
    ensures |Exec(s, steps, result).calls| == |s.calls| && Exec(s, steps, result).calls[k].Returned?
    decreases Fuel(s.calls[k], |all|)
  {
    if s.calls[k].Returned? {
      steps := [];
    } else {
      var step := NextStep(s, k);
      CallsEnd(s, k, all, result);
      StepKeepsInv(s, step, all, result);
      var rest := FinishesAlone(Do(s, step, result), k, all, result);
      steps := [step] + rest;
      assert steps[1..] == rest;
    }
  }

  /** A call that nothing overlaps does what the method of the class promises. */
  lemma AloneIsClose(all: seq<Closer>, result: Closer -> Option<Error>) returns (steps: seq<Step>)
    ensures IsRun(Init(all), steps, result)
    ensures var t := Exec(Init(all), steps, result);
      && t.ran == Reverse(all) && |t.calls| == 1
      && t.calls[0] == Returned(JoinAll(Results(Reverse(all), result)), |all|)
  {
    var called := Do(Init(all), CallClose, result);
    assert Reverse(all)[..0] == [];
    StepKeepsInv(Init(all), CallClose, all, result);
    steps := FinishesAlone(called, 0, all, result);
    RunKeepsInv(called, steps, all, result);
    SomeoneWon(Exec(called, steps, result), 0, all, result);
    WinnerReturned(Exec(called, steps, result), 0, all, result);
    steps := Before(Init(all), CallClose, steps, result);
  }

  lemma SomeoneWon(t: State, k: nat, all: seq<Closer>, result: Closer -> Option<Error>)
    requires Inv(t, all, result) && k < |t.calls| && t.calls[k].Returned?
    ensures t.winner.Some? && t.winner.value < |t.calls|
  {
    assert CallInv(t, all, result, k);
  }

  lemma WinnerReturned(t: State, w: nat, all: seq<Closer>, result: Closer -> Option<Error>)
    requires Inv(t, all, result) && t.winner == Some(w) && w < |t.calls| && t.calls[w].Returned?
    ensures t.ran == Reverse(all)
    ensures t.calls[w] == Returned(JoinAll(Results(Reverse(all), result)), |all|)
  {
    assert CallInv(t, all, result, w);
    TakeAll(Reverse(all));
  }

  /** Two calls on one failing closer: the second may return no error while the first returns one. */
  lemma LateReaderSeesPart(c: Closer, e: Error, result: Closer -> Option<Error>) returns (steps: seq<Step>)
    requires result(c) == Some(e)
    ensures IsRun(Init([c]), steps, result)
    ensures var t := Exec(Init([c]), steps, result);
      |t.calls| == 2 && t.winner == Some(0) && t.calls[0] == Returned([e], 1) && t.calls[1] == Returned([], 0)
  {
    var s0 := Init([c]);
    var s1 := Do(s0, CallClose, result);
    var s2 := Do(s1, CallClose, result);
    var s3 := Do(s2, Swap(0), result);
    var s4 := Do(s3, Swap(1), result);
    var s5 := Do(s4, Load(1), result);
    var s6 := Do(s5, RunCloser(0), result);
    assert s6.calls == [Joining(0), Returned([], 0)];
    var s7 := Do(s6, Join(0), result);
    assert s7.err == [e];
    var s8 := Do(s7, Clear(0), result);
    var s9 := Do(s8, Load(0), result);
    assert s9.calls == [Returned([e], 1), Returned([], 0)] && s9.winner == Some(0);
    steps := [];
    steps := Before(s8, Load(0), steps, result);
    steps := Before(s7, Clear(0), steps, result);
    steps := Before(s6, Join(0), steps, result);
    steps := Before(s5, RunCloser(0), steps, result);
    steps := Before(s4, Load(1), steps, result);
    steps := Before(s3, Swap(1), steps, result);
    steps := Before(s2, Swap(0), steps, result);
    steps := Before(s1, CallClose, steps, result);
    steps := Before(s0, CallClose, steps, result);
  }

  lemma Before(s: State, step: Step, steps: seq<Step>, result: Closer -> Option<Error>) returns (all: seq<Step>)
    requires Enabled(s, step) && IsRun(Do(s, step, result), steps, result)
    ensures IsRun(s, all, result) && Exec(s, all, result) == Exec(Do(s, step, result), steps, result)
  {
    all := [step] + steps;
    assert all[1..] == steps;
  }
}
