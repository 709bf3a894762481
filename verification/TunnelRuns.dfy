/**
 * What the steps of a run of forwardListener say, whatever its states are: which connections were
 * accepted, dialled and closed, and what a closed end follows from.
 */
module TunnelRuns {
  import opened Tunnels

  // ---- The pairs, read off the steps ----

  function Accepts(steps: seq<Step>): nat {
    if steps == [] then 0
    else
      var last := |steps| - 1;
      Accepts(steps[..last]) + (if steps[last].Accept? then 1 else 0)
  }

  /** How often a run takes a step. */
  function Times(step: Step, steps: seq<Step>): nat {
    if steps == [] then 0
    else
      var last := |steps| - 1;
      Times(step, steps[..last]) + (if steps[last] == step then 1 else 0)
  }

  function CopyAfter(steps: seq<Step>, k: nat, back: bool): Copy {
    if CopyDone(k, back) in steps then Over else if CopyEnds(k, back) in steps then Cancelled else Running
  }

  function PcAfter(steps: seq<Step>, k: nat): Pc {
    if Dial(k, false) in steps || Exit(k) in steps then Exited
    else if Dial(k, true) in steps then Copying(CopyAfter(steps, k, false), CopyAfter(steps, k, true))
    else Dialing
  }

  predicate CancelledAfter(steps: seq<Step>, k: nat) {
    Propagate(k) in steps || Dial(k, false) in steps || CopyEnds(k, false) in steps || CopyEnds(k, true) in steps
  }

  ghost predicate PairHistory(t: State, steps: seq<Step>, k: nat) {
    if k < |t.pairs|
    then
      && t.pairs[k].cancelled == CancelledAfter(steps, k)
      && t.pairs[k].connCloses == Times(CloseConn(k), steps)
      && t.pairs[k].dialed == (Dial(k, true) in steps)
      && t.pairs[k].remoteCloses == Times(CloseRemote(k), steps)
      && t.pairs[k].pc == PcAfter(steps, k)
      && (Propagate(k) in steps ==> t.cancelled)
      && (forall back :: CopyEnds(k, back) in steps || CopyDone(k, back) in steps ==> Dial(k, true) in steps)
    else forall step | step in steps :: !Of(step, k)
  }

  /** A step of pair k. */
  predicate Of(step: Step, k: nat) {
    !step.Accept? && !step.AcceptFails? && !step.CancelLoop? && step.pair == k
  }

  ghost predicate LoopHistory(t: State, steps: seq<Step>) {
    && |t.pairs| == Accepts(steps)
    && t.accepting == (AcceptFails !in steps)
    && t.cancelled == (AcceptFails in steps || CancelLoop in steps)
  }

  lemma StepLoop(s: State, front: seq<Step>, step: Step, whole: seq<Step>)
    requires Enabled(s, step) && LoopHistory(s, front) && whole == front + [step]
    ensures LoopHistory(Do(s, step), whole)
  {
    assert whole[..|front|] == front;
  }

  /** A step of another pair says nothing about this one. */
  lemma OtherStep(front: seq<Step>, step: Step, k: nat)
    requires !Of(step, k)
    ensures CancelledAfter(front + [step], k) == CancelledAfter(front, k)
    ensures Times(CloseConn(k), front + [step]) == Times(CloseConn(k), front)
    ensures Times(CloseRemote(k), front + [step]) == Times(CloseRemote(k), front)
    ensures (Dial(k, true) in front + [step]) == (Dial(k, true) in front)
    ensures PcAfter(front + [step], k) == PcAfter(front, k)
  {
    assert (front + [step])[..|front|] == front;
  }

  lemma {:induction false} NoTimes(step: Step, steps: seq<Step>)
    ensures Times(step, steps) == 0 <==> step !in steps
  {
    if steps == [] {
    } else {
      var last := |steps| - 1;
      NoTimes(step, steps[..last]);
      assert steps == steps[..last] + [steps[last]];
    }
  }

  lemma StepPair(s: State, front: seq<Step>, step: Step, k: nat)
    requires Inv(s) && Enabled(s, step) && PairHistory(s, front, k)
    ensures PairHistory(Do(s, step), front + [step], k)
  {
    if Of(step, k) {
      OwnStep(s, front, step, k);
    } else {
      OtherStep(front, step, k);
      if k >= |s.pairs| {
        NoTimes(CloseConn(k), front);
        NoTimes(CloseRemote(k), front);
      }
    }
  }

  lemma OwnStep(s: State, front: seq<Step>, step: Step, k: nat)
    requires Inv(s) && Enabled(s, step) && PairHistory(s, front, k) && Of(step, k)
    ensures PairHistory(Do(s, step), front + [step], k)
  {
    assert (front + [step])[..|front|] == front;
    assert PairInv(s.cancelled, s.pairs[k]);
  }

  /** A run has one pair for every Accept step, and its loop goes on until an AcceptFails. */
  lemma {:induction false} LoopOfSteps(steps: seq<Step>)
    requires IsRun(INIT, steps)
    ensures LoopHistory(Exec(INIT, steps), steps)
  {
    if steps == [] {
    } else {
      var front, step := steps[..|steps| - 1], steps[|steps| - 1];
      RunLast(INIT, steps);
      LoopOfSteps(front);
      StepLoop(Exec(INIT, front), front, step, steps);
    }
  }

  /**
   * What has become of a pair is what its own steps say: how often each end was closed, whether it
   * was dialled, what cancelled it, where it stands.
   */
  lemma {:induction false} PairOfSteps(steps: seq<Step>, k: nat)
    requires IsRun(INIT, steps)
    ensures PairHistory(Exec(INIT, steps), steps, k)
  {
    if steps == [] {
    } else {
      var front, step := steps[..|steps| - 1], steps[|steps| - 1];
      RunLast(INIT, steps);
      PairOfSteps(front, k);
      RunKeepsInv(INIT, front);
      StepPair(Exec(INIT, front), front, step, k);
      assert front + [step] == steps;
    }
  }

  // ---- No leak ----

  /**
   * No leak: in every interleaving of accepts, dials, ending copies and cancellations, when the
   * loop has stopped and nothing is forced any more, the run has closed every accepted connection
   * once, and the far end once for every successful dial; every goroutine is gone.
   */
  lemma NoLeak(steps: seq<Step>)
    requires IsRun(INIT, steps)
    requires AcceptFails in steps && Settled(Exec(INIT, steps))
    ensures forall k :: 0 <= k < Accepts(steps) ==>
      && Times(CloseConn(k), steps) == 1
      && Times(CloseRemote(k), steps) == Times(Dial(k, true), steps) <= 1
      && (Dial(k, false) in steps || Exit(k) in steps)
  {
    LoopOfSteps(steps);
    RunKeepsInv(INIT, steps);
    var t := Exec(INIT, steps);
    forall k | 0 <= k < Accepts(steps)
      ensures Times(CloseConn(k), steps) == 1
      ensures Times(CloseRemote(k), steps) == Times(Dial(k, true), steps) <= 1
      ensures Dial(k, false) in steps || Exit(k) in steps
    {
      PairOfSteps(steps, k);
      DialsOnce(steps, k);
      NoTimes(Dial(k, true), steps);
      if !t.pairs[k].cancelled {
        assert Forced(t, Propagate(k));
      }
      CancelledPairCloses(t, k);
    }
  }

  /** No connection is dialled twice, and its outcome is one of the two. */
  lemma {:induction false} DialsOnce(steps: seq<Step>, k: nat)
    requires IsRun(INIT, steps)
    ensures Times(Dial(k, true), steps) + Times(Dial(k, false), steps) <= 1
  {
    if steps == [] {
    } else {
      var last := |steps| - 1;
      RunLast(INIT, steps);
      DialsOnce(steps[..last], k);
      if steps[last] == Dial(k, true) || steps[last] == Dial(k, false) {
        NotDialedYet(steps[..last], k, steps[last]);
      }
    }
  }

  lemma NotDialedYet(steps: seq<Step>, k: nat, dial: Step)
    requires IsRun(INIT, steps) && Enabled(Exec(INIT, steps), dial)
    requires dial == Dial(k, true) || dial == Dial(k, false)
    ensures Times(Dial(k, true), steps) == Times(Dial(k, false), steps) == 0
  {
    PairOfSteps(steps, k);
    NoTimes(Dial(k, true), steps);
    NoTimes(Dial(k, false), steps);
  }

  // ---- Copies ----

  /** A successful dial starts both copies, and each of them may be the first to end. */
  lemma DialStartsCopies(s: State, k: nat)
    requires Inv(s) && Enabled(s, Dial(k, true))
    ensures Enabled(Do(s, Dial(k, true)), CopyEnds(k, false)) && Enabled(Do(s, Dial(k, true)), CopyEnds(k, true))
    ensures !s.pairs[k].cancelled ==>
      !Enabled(Do(s, Dial(k, true)), CloseConn(k)) && !Enabled(Do(s, Dial(k, true)), CloseRemote(k))
  {
    assert PairInv(s.cancelled, s.pairs[k]);
  }

  /** What may tear pair k down: the loop's end, a cancellation, a failed dial, or an ended copy. */
  predicate Cause(step: Step, k: nat) {
    step == AcceptFails || step == CancelLoop || step == Dial(k, false)
    || step == CopyEnds(k, false) || step == CopyEnds(k, true)
  }

  /** Nothing closes an end of a tunnel without a cause that came before. */
  lemma CauseBeforeClose(steps: seq<Step>, j: nat, k: nat)
    requires IsRun(INIT, steps) && j < |steps|
    requires steps[j] == CloseConn(k) || steps[j] == CloseRemote(k)
    ensures exists i :: 0 <= i < j && Cause(steps[i], k)
  {
    var before := steps[..j];
    RunTo(INIT, steps, j);
    LoopOfSteps(before);
    PairOfSteps(before, k);
    RunKeepsInv(INIT, before);
    var s := Exec(INIT, before);
    assert PairInv(s.cancelled, s.pairs[k]);
    if s.cancelled {
      var cause := if AcceptFails in before then AcceptFails else CancelLoop;
      assert cause in before;
      EarlierCause(steps, j, cause, k);
    } else {
      var cause := if Dial(k, false) in before then Dial(k, false)
                   else if CopyEnds(k, false) in before then CopyEnds(k, false) else CopyEnds(k, true);
      assert cause in before;
      EarlierCause(steps, j, cause, k);
    }
  }

  lemma EarlierCause(steps: seq<Step>, j: nat, cause: Step, k: nat)
    requires j <= |steps| && cause in steps[..j] && Cause(cause, k)
    ensures exists i :: 0 <= i < j && Cause(steps[i], k)
  {
    var i :| 0 <= i < j && steps[..j][i] == cause;
    assert Cause(steps[i], k);
  }

  /** A step of a run is enabled where the steps before it lead. */
  lemma {:induction false} RunTo(s: State, steps: seq<Step>, j: nat)
    requires IsRun(s, steps) && j < |steps|
    ensures IsRun(s, steps[..j]) && Enabled(Exec(s, steps[..j]), steps[j])
    decreases |steps|
  {
    RunLast(s, steps);
    var last := |steps| - 1;
    if j < last {
      RunTo(s, steps[..last], j);
      assert steps[..last][..j] == steps[..j];
    }
  }

  /**
   * One direction ending is enough for its pair and touches no other: wherever the run settles, it
   * has closed both ends of the pair once; the step itself changes no other pair.
   */
  lemma OneCopyEndsBoth(steps: seq<Step>, k: nat, back: bool)
    requires IsRun(INIT, steps) && CopyEnds(k, back) in steps && Settled(Exec(INIT, steps))
    ensures k < Accepts(steps) && Dial(k, true) in steps
    ensures Times(CloseConn(k), steps) == 1 && Times(CloseRemote(k), steps) == 1
  {
    LoopOfSteps(steps);
    PairOfSteps(steps, k);
    RunKeepsInv(INIT, steps);
    var t := Exec(INIT, steps);
    CancelledPairCloses(t, k);
  }

  lemma OtherPairsStay(s: State, step: Step, k: nat)
    requires Enabled(s, step) && k < |s.pairs| && !Of(step, k)
    ensures k < |Do(s, step).pairs| && Do(s, step).pairs[k] == s.pairs[k]
  {
  }

  /** The loop goes on with one pair. */
  function One(p: Pair): State {
    State(true, false, [p])
  }

  lemma Before(p: Pair, step: Step, q: Pair, steps: seq<Step>) returns (all: seq<Step>)
    requires Of(step, 0) && Enabled(One(p), step) && DoPair(p, step) == q && IsRun(One(q), steps)
    ensures IsRun(One(p), all) && Exec(One(p), all) == Exec(One(q), steps)
  {
    all := [step] + steps;
    assert all[1..] == steps;
    assert Do(One(p), step) == One(q);
  }

  lemma TornDown(back: bool) returns (steps: seq<Step>)
    ensures var p := Pair(true, 0, true, 0, WithCopy(Copying(Running, Running), back, Cancelled));
      IsRun(One(p), steps) && Exec(One(p), steps) == One(Pair(true, 1, true, 1, Exited))
  {
    var pc := WithCopy(Copying(Running, Running), back, Cancelled);
    var both := Copying(Cancelled, Cancelled);
    var end := Pair(true, 1, true, 1, Exited);
    steps := Before(end.(pc := Copying(Over, Over)), Exit(0), end, []);
    steps := Before(end.(pc := WithCopy(both, back, Over)), CopyDone(0, !back), end.(pc := Copying(Over, Over)), steps);
    steps := Before(end.(pc := both), CopyDone(0, back), end.(pc := WithCopy(both, back, Over)), steps);
    steps := Before(end.(pc := pc), CopyEnds(0, !back), end.(pc := both), steps);
    steps := Before(end.(pc := pc, remoteCloses := 0), CloseRemote(0), end.(pc := pc), steps);
    steps := Before(Pair(true, 0, true, 0, pc), CloseConn(0), end.(pc := pc, remoteCloses := 0), steps);
  }

  /**
   * A tunnel's whole life while the loop goes on: accepted, dialled, one direction ended by a peer,
   * both ends closed, the other direction over, its goroutines gone.
   */
  lemma WholeTunnel(back: bool) returns (steps: seq<Step>)
    ensures |steps| > 3 && steps[..3] == [Accept, Dial(0, true), CopyEnds(0, back)]
    ensures IsRun(INIT, steps) && Exec(INIT, steps) == One(Pair(true, 1, true, 1, Exited))
  {
    var dialing, copying := Pair(false, 0, false, 0, Dialing), Pair(false, 0, true, 0, Copying(Running, Running));
    var ended := Pair(true, 0, true, 0, WithCopy(copying.pc, back, Cancelled));
    var rest := TornDown(back);
    assert Do(One(copying), CopyEnds(0, back)) == One(ended);
    assert Do(One(dialing), Dial(0, true)) == One(copying);
    assert Do(INIT, Accept) == One(dialing);
    var fromCopies := Prepend(One(copying), CopyEnds(0, back), rest);
    var fromDial := Prepend(One(dialing), Dial(0, true), fromCopies);
    steps := Prepend(INIT, Accept, fromDial);
    assert rest != [] by {
      assert ended.pc != Exited;
    }
  }

  lemma Prepend(s: State, step: Step, steps: seq<Step>) returns (all: seq<Step>)
    requires Enabled(s, step) && IsRun(Do(s, step), steps)
    ensures all == [step] + steps && IsRun(s, all) && Exec(s, all) == Exec(Do(s, step), steps)
  {
    all := [step] + steps;
    assert all[1..] == steps;
  }
}
