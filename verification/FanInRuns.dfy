/**
 * What the steps of a fan-in run say, whatever its states are: which connections were accepted and
 * what became of each, which workers there are, which listeners are open, and which error is passed
 * on.
 */
module FanInRuns {
  import opened Prelude
  import opened FanIn
  import CL = ChannelListener

  // ---- Connections ----

  /** The connections that worker i accepts in a run, in order. */
  function AcceptedIn(steps: seq<Step>, i: nat): seq<Conn> {
    if steps == [] then []
    else
      var last := |steps| - 1;
      AcceptedIn(steps[..last], i) +
      match steps[last]
      case Accept(w, c) => if w == i then [c] else []
      case _ => []
  }

  /** What worker i does with them: each Send sends one on, each Drop closes one. */
  function FatesIn(steps: seq<Step>, i: nat): seq<Fate> {
    if steps == [] then []
    else
      var last := |steps| - 1;
      FatesIn(steps[..last], i) +
      match steps[last]
      case Send(w, _, _) => if w == i then [Sent] else []
      case Drop(w) => if w == i then [Dropped] else []
      case _ => []
  }

  /** The connections that any worker accepts. */
  function AllAccepted(steps: seq<Step>): seq<Conn> {
    if steps == [] then []
    else
      var last := |steps| - 1;
      AllAccepted(steps[..last]) + (if steps[last].Accept? then [steps[last].conn] else [])
  }

  /** The workers that send, in order. */
  function Senders(steps: seq<Step>): seq<nat> {
    if steps == [] then []
    else
      var last := |steps| - 1;
      Senders(steps[..last]) + (if steps[last].Send? then [steps[last].worker] else [])
  }

  function DropsIn(steps: seq<Step>, i: nat): nat {
    if steps == [] then 0
    else
      var last := |steps| - 1;
      DropsIn(steps[..last], i) + (if steps[last] == Drop(i) then 1 else 0)
  }

  ghost predicate WorkerHistory(t: State, steps: seq<Step>, i: nat) {
    if i < |t.workers|
    then t.workers[i].accepted == AcceptedIn(steps, i) && t.workers[i].settled == FatesIn(steps, i)
    else AcceptedIn(steps, i) == [] && FatesIn(steps, i) == []
  }

  lemma StepHistory(s: State, front: seq<Step>, step: Step, i: nat)
    requires Enabled(s, step) && WorkerHistory(s, front, i)
    ensures WorkerHistory(Do(s, step), front + [step], i)
  {
    assert (front + [step])[..|front|] == front;
    assert AcceptedIn(front, i) + [] == AcceptedIn(front, i) && FatesIn(front, i) + [] == FatesIn(front, i);
  }

  /** A worker's connections are those of its Accept steps, and their fates those of its Send and Drop steps. */
  lemma {:induction false} RunHistory(provisioned: nat, steps: seq<Step>, i: nat)
    requires IsRun(Init(provisioned), steps)
    ensures WorkerHistory(Exec(Init(provisioned), steps), steps, i)
  {
    if steps == [] {
    } else {
      var front, step := steps[..|steps| - 1], steps[|steps| - 1];
      RunLast(Init(provisioned), steps);
      RunHistory(provisioned, front, i);
      StepHistory(Exec(Init(provisioned), front), front, step, i);
      assert front + [step] == steps;
    }
  }

  lemma AcceptedStep(s: State, step: Step)
    requires Enabled(s, step)
    ensures Total(Do(s, step).workers, AcceptedBy) ==
            Total(s.workers, AcceptedBy) + (if step.Accept? then multiset{step.conn} else multiset{})
  {
    var t := Do(s, step);
    match step
    case WrapListener =>
      var added := NewWorkers(|s.open| + 1, |s.merged|);
      TotalZero(added, AcceptedBy);
      TotalAppend(s.workers, added, AcceptedBy);
    case CloseSource(_) =>
    case Inside(_, _) =>
    case Accept(i, c) =>
      TotalUpdate(s.workers, i, t.workers[i], AcceptedBy, multiset{c});
    case _ =>
      assert t.workers[step.worker].accepted == s.workers[step.worker].accepted;
      TotalUpdate(s.workers, step.worker, t.workers[step.worker], AcceptedBy, multiset{});
  }

  /** No accepted connection is forgotten: the workers have together accepted what the Accept steps did. */
  lemma {:induction false} AllAreAccepted(provisioned: nat, steps: seq<Step>)
    requires IsRun(Init(provisioned), steps)
    ensures Total(Exec(Init(provisioned), steps).workers, AcceptedBy) == multiset(AllAccepted(steps))
  {
    if steps == [] {
    } else {
      var front, step := steps[..|steps| - 1], steps[|steps| - 1];
      RunLast(Init(provisioned), steps);
      AllAreAccepted(provisioned, front);
      AcceptedStep(Exec(Init(provisioned), front), step);
    }
  }

  /** One delivery for every Send step, by its worker. */
  lemma {:induction false} SentLog(provisioned: nat, steps: seq<Step>)
    requires IsRun(Init(provisioned), steps)
    ensures var t := Exec(Init(provisioned), steps);
      |t.sent| == |Senders(steps)| && forall d :: 0 <= d < |t.sent| ==> t.sent[d].worker == Senders(steps)[d]
  {
    if steps == [] {
    } else {
      RunLast(Init(provisioned), steps);
      SentLog(provisioned, steps[..|steps| - 1]);
    }
  }

  lemma {:induction false} DropsAreDropped(steps: seq<Step>, i: nat, accepted: seq<Conn>)
    requires |FatesIn(steps, i)| <= |accepted|
    ensures |Met(accepted, FatesIn(steps, i), Dropped)| == DropsIn(steps, i)
  {
    if steps == [] {
    } else {
      var front, step := steps[..|steps| - 1], steps[|steps| - 1];
      assert FatesIn(front, i) + [] == FatesIn(front, i);
      DropsAreDropped(front, i, accepted);
      match step
      case Send(w, _, _) =>
        if w == i {
          MetSettle(accepted, FatesIn(front, i), Dropped, Sent);
        }
      case Drop(w) =>
        if w == i {
          MetSettle(accepted, FatesIn(front, i), Dropped, Dropped);
        }
      case _ =>
    }
  }

  /**
   * Whatever the workers, consumers and closers do, every connection that an Accept step brought in
   * is accounted for once: returned by an Accept of a merged listener, closed by its worker, or
   * still held. The returned ones are one for every Send step. A worker has closed one for every
   * Drop step, those that its fates name, and only after its merged listener was done; it holds
   * what it has accepted and not settled, which is at most one.
   */
  lemma Conservation(provisioned: nat, steps: seq<Step>)
    requires IsRun(Init(provisioned), steps)
    ensures var t := Exec(Init(provisioned), steps);
      && multiset(AllAccepted(steps)) ==
         Total(t.merged, ReturnedBy) + Total(t.workers, DroppedBy) + Total(t.workers, HeldBy)
      && |Total(t.merged, ReturnedBy)| == |Senders(steps)|
      && forall i :: 0 <= i < |t.workers| ==> WorkerAccount(t, steps, i)
  {
    InitHolds(provisioned);
    RunKeepsInv(Init(provisioned), steps);
    AllAreAccepted(provisioned, steps);
    SentLog(provisioned, steps);
    var t := Exec(Init(provisioned), steps);
    forall w | w in t.workers
      ensures AcceptedBy(w) == SentBy(w) + DroppedBy(w) + HeldBy(w)
    {
      WorkerAccounts(t, w);
    }
    TotalSplit(t.workers, AcceptedBy, SentBy, DroppedBy, HeldBy);
    forall i | 0 <= i < |t.workers|
      ensures WorkerAccount(t, steps, i)
    {
      RunHistory(provisioned, steps, i);
      WorkerAccountHolds(t, steps, i);
    }
  }

  ghost predicate WorkerAccount(t: State, steps: seq<Step>, i: nat)
    requires i < |t.workers|
  {
    var accepted, fates := AcceptedIn(steps, i), FatesIn(steps, i);
    && |fates| <= |accepted| <= |fates| + 1
    && DroppedOf(t.workers[i]) == Met(accepted, fates, Dropped)
    && |DroppedOf(t.workers[i])| == DropsIn(steps, i)
    && HeldOf(t.workers[i]) == accepted[|fates|..]
    && (DropsIn(steps, i) > 0 ==>
          t.workers[i].merged < |t.merged| && t.merged[t.workers[i].merged].Done())
  }

  lemma WorkerAccountHolds(t: State, steps: seq<Step>, i: nat)
    requires Structure(t) && i < |t.workers| && WorkerHistory(t, steps, i)
    ensures WorkerAccount(t, steps, i)
  {
    var w := t.workers[i];
    assert WorkerInv(t, w);
    DropsAreDropped(steps, i, w.accepted);
    MetOnlyIfSettled(w.accepted, w.settled, Dropped);
  }

  /** A connection that was accepted once has exactly one fate. */
  lemma ExactlyOneFate(provisioned: nat, steps: seq<Step>, c: Conn)
    requires IsRun(Init(provisioned), steps) && multiset(AllAccepted(steps))[c] == 1
    ensures var t := Exec(Init(provisioned), steps);
      var returned, dropped, held := Total(t.merged, ReturnedBy)[c], Total(t.workers, DroppedBy)[c], Total(t.workers, HeldBy)[c];
      || (returned == 1 && dropped == 0 && held == 0)
      || (returned == 0 && dropped == 1 && held == 0)
      || (returned == 0 && dropped == 0 && held == 1)
  {
    Conservation(provisioned, steps);
  }

  /** What the consumers got from worker i, and what is pending with it. */
  ghost predicate Streamed(t: State, steps: seq<Step>, i: nat)
    requires i < |t.workers|
  {
    var accepted, fates := AcceptedIn(steps, i), FatesIn(steps, i);
    && |fates| <= |accepted| <= |fates| + 1
    && From(t.sent, i) == Met(accepted, fates, Sent)
    && t.workers[i].merged < |t.merged|
    && (!t.merged[t.workers[i].merged].Done() ==> From(t.sent, i) == accepted[..|fates|])
  }

  /**
   * The consumers get a merge of what the workers send: one delivery for every Send step. Each
   * worker sends, in the order of its Accept steps, the connections that its Send steps settle,
   * and all but at most the last are settled; while its merged listener is open it has sent
   * everything it accepted, but for the one it holds.
   */
  lemma MergedStream(provisioned: nat, steps: seq<Step>)
    requires IsRun(Init(provisioned), steps)
    ensures var t := Exec(Init(provisioned), steps);
      && Interleaves(Conns(t.sent), Streams(t.sent, |t.workers|))
      && multiset(Conns(t.sent)) == Total(t.merged, ReturnedBy)
      && |t.sent| == |Senders(steps)|
      && (forall d :: 0 <= d < |t.sent| ==> t.sent[d].worker == Senders(steps)[d])
      && forall i :: 0 <= i < |t.workers| ==> Streamed(t, steps, i)
  {
    InitHolds(provisioned);
    RunKeepsInv(Init(provisioned), steps);
    SentLog(provisioned, steps);
    var t := Exec(Init(provisioned), steps);
    SentInterleaves(t.sent, |t.workers|);
    forall i | 0 <= i < |t.workers|
      ensures Streamed(t, steps, i)
    {
      RunHistory(provisioned, steps, i);
      StreamHolds(t, i);
      StreamedHolds(t, steps, i);
    }
  }

  lemma StreamedHolds(t: State, steps: seq<Step>, i: nat)
    requires Structure(t) && i < |t.workers| && WorkerHistory(t, steps, i) && StreamInOrder(t, i)
    ensures Streamed(t, steps, i)
  {
    var w := t.workers[i];
    assert WorkerInv(t, w);
    WorkerStream(t, w);
  }

  /**
   * A connection can always get through, whether or not a listener is done: a worker in its Accept
   * on an open listener accepts any connection, and any merged listener can then take it.
   */
  lemma GetsThrough(s: State, i: nat, m: nat, c: Conn) returns (steps: seq<Step>)
    requires Structure(s) && i < |s.workers| && m < |s.merged|
    requires s.workers[i].pc.Accepting? && s.workers[i].source < |s.open| && s.open[s.workers[i].source]
    ensures |steps| == 3 && IsRun(s, steps)
    ensures var t, k := Exec(s, steps), |s.merged[m].calls|;
      && m < |t.merged| && k < |t.merged[m].calls| && t.merged[m].calls[k] == CL.Accepted(c)
      && i < |t.workers| && t.workers[i].pc.Accepting? && t.sent == s.sent + [Delivery(i, c)]
  {
    var k := |s.merged[m].calls|;
    var called := Do(s, Inside(m, CL.CallAccept));
    var accepted := Do(called, Accept(i, c));
    ExecTwo(called, Accept(i, c), Send(i, m, k));
    steps := [Inside(m, CL.CallAccept), Accept(i, c), Send(i, m, k)];
    assert steps[1..] == [Accept(i, c), Send(i, m, k)];
  }

  // ---- Workers and listeners ----

  function WrapsIn(steps: seq<Step>): nat {
    if steps == [] then 0
    else
      var last := |steps| - 1;
      WrapsIn(steps[..last]) + (if steps[last].WrapListener? then 1 else 0)
  }

  /** How many workers the first n WrapListener calls start: call number m finds provisioned + m + 1 listeners. */
  function Started(provisioned: nat, n: nat): nat {
    if n == 0 then 0 else Started(provisioned, n - 1) + provisioned + n
  }

  lemma {:induction false} StartedGrows(provisioned: nat, m: nat, n: nat)
    requires m <= n
    ensures Started(provisioned, m) <= Started(provisioned, n)
    ensures m < n ==> Started(provisioned, m) + provisioned + m + 1 <= Started(provisioned, n)
  {
    if m == n {
    } else {
      StartedGrows(provisioned, m, n - 1);
    }
  }

  /** Worker j of WrapListener call m. */
  function WorkerOf(provisioned: nat, m: nat, j: nat): nat {
    Started(provisioned, m) + j
  }

  ghost predicate WorkersOfCall(t: State, provisioned: nat, m: nat) {
    && WorkerOf(provisioned, m, provisioned + m) < |t.workers|
    && forall j :: 0 <= j <= provisioned + m ==> IsWorker(t, WorkerOf(provisioned, m, j), j, m)
  }

  ghost predicate IsWorker(t: State, i: nat, source: nat, merged: nat) {
    i < |t.workers| && t.workers[i].source == source && t.workers[i].merged == merged
  }

  ghost predicate Population(t: State, provisioned: nat, wraps: nat) {
    && |t.merged| == wraps
    && |t.open| == provisioned + wraps
    && |t.workers| == Started(provisioned, wraps)
    && forall m :: 0 <= m < wraps ==> WorkersOfCall(t, provisioned, m)
  }

  lemma StepPopulation(s: State, step: Step, provisioned: nat, wraps: nat)
    requires Enabled(s, step) && Population(s, provisioned, wraps)
    ensures Population(Do(s, step), provisioned, if step.WrapListener? then wraps + 1 else wraps)
  {
    var t, n := Do(s, step), if step.WrapListener? then wraps + 1 else wraps;
    forall m | 0 <= m < n
      ensures WorkersOfCall(t, provisioned, m)
    {
      forall j | 0 <= j <= provisioned + m
        ensures IsWorker(t, WorkerOf(provisioned, m, j), j, m)
      {
        if m < wraps {
          assert WorkersOfCall(s, provisioned, m);
          assert IsWorker(s, WorkerOf(provisioned, m, j), j, m);
        }
      }
    }
  }

  /**
   * Every WrapListener call makes one merged listener and starts exactly one worker for each
   * listener known by then, the provisioned ones, those of earlier calls and its own; nothing else
   * starts a worker.
   */
  lemma {:induction false} WorkersOfEveryCall(provisioned: nat, steps: seq<Step>)
    requires IsRun(Init(provisioned), steps)
    ensures Population(Exec(Init(provisioned), steps), provisioned, WrapsIn(steps))
  {
    if steps == [] {
    } else {
      var front := steps[..|steps| - 1];
      RunLast(Init(provisioned), steps);
      WorkersOfEveryCall(provisioned, front);
      StepPopulation(Exec(Init(provisioned), front), steps[|steps| - 1], provisioned, WrapsIn(front));
    }
  }

  /** A listener is open until a step of the run closes it. */
  lemma {:induction false} OpenUntilClosed(provisioned: nat, steps: seq<Step>, j: nat)
    requires IsRun(Init(provisioned), steps)
    ensures var t := Exec(Init(provisioned), steps);
      if j < |t.open| then t.open[j] <==> CloseSource(j) !in steps else CloseSource(j) !in steps
  {
    if steps == [] {
    } else {
      var last := |steps| - 1;
      RunLast(Init(provisioned), steps);
      OpenUntilClosed(provisioned, steps[..last], j);
      assert steps == steps[..last] + [steps[last]];
    }
  }

  // ---- The error that is passed on ----

  /** Worker i is one of those that WrapListener call m starts. */
  predicate Owns(provisioned: nat, m: nat, i: nat) {
    Started(provisioned, m) <= i < Started(provisioned, m + 1)
  }

  lemma OwnerServes(t: State, provisioned: nat, wraps: nat, m: nat, i: nat)
    requires Population(t, provisioned, wraps) && i < |t.workers|
    ensures Owns(provisioned, m, i) <==> t.workers[i].merged == m
  {
    var n := CallOf(provisioned, wraps, i);
    assert WorkersOfCall(t, provisioned, n);
    assert IsWorker(t, WorkerOf(provisioned, n, i - Started(provisioned, n)), i - Started(provisioned, n), n);
    if m < n {
      StartedGrows(provisioned, m + 1, n);
    } else if n < m {
      StartedGrows(provisioned, n + 1, m);
    }
  }

  lemma {:induction false} CallOf(provisioned: nat, wraps: nat, i: nat) returns (n: nat)
    requires i < Started(provisioned, wraps)
    ensures n < wraps && Owns(provisioned, n, i)
  {
    if i >= Started(provisioned, wraps - 1) {
      n := wraps - 1;
    } else {
      n := CallOf(provisioned, wraps - 1, i);
    }
  }

  /** The step begins a call on merged listener m: a failed Accept of one of its workers closes it. */
  predicate BeginsOn(provisioned: nat, step: Step, m: nat) {
    match step
    case AcceptFails(i, _) => Owns(provisioned, m, i)
    case Inside(n, inner) => n == m && (inner.CallClose? || inner.CallAccept?)
    case _ => false
  }

  /** The error the step gives to the call it begins. */
  function GivenBy(step: Step): CL.Error {
    match step
    case AcceptFails(_, err) => err
    case Inside(_, CallClose(Some(err))) => err
    case _ => CL.NetErrClosed
  }

  function BegunOn(provisioned: nat, steps: seq<Step>, m: nat): seq<Step> {
    if steps == [] then []
    else
      var last := |steps| - 1;
      BegunOn(provisioned, steps[..last], m) + (if BeginsOn(provisioned, steps[last], m) then [steps[last]] else [])
  }

  /** The call on merged listener m that swaps first. */
  function FirstSwapOn(steps: seq<Step>, m: nat): Option<nat> {
    if steps == [] then None
    else
      var last := |steps| - 1;
      if FirstSwapOn(steps[..last], m).Some? then FirstSwapOn(steps[..last], m)
      else if steps[last].Inside? && steps[last].merged == m && steps[last].step.Swap? then Some(steps[last].step.call)
      else None
  }

  function AsCall(step: Step): CL.Step {
    match step
    case Inside(_, inner) => inner
    case _ => CL.CallClose(Some(GivenBy(step)))
  }

  function AsCalls(steps: seq<Step>): (calls: seq<CL.Step>)
    ensures |calls| == |steps|
  {
    seq(|steps|, k requires 0 <= k < |steps| => AsCall(steps[k]))
  }

  lemma AsCallsAppend(steps: seq<Step>, step: Step)
    ensures AsCalls(steps + [step]) == AsCalls(steps) + [AsCall(step)]
  {
  }

  ghost predicate MergedExplained(t: State, provisioned: nat, steps: seq<Step>, m: nat) {
    CL.Explained(MergedAt(t, m), AsCalls(BegunOn(provisioned, steps, m)), FirstSwapOn(steps, m))
  }

  lemma StepMerged(s: State, front: seq<Step>, step: Step, provisioned: nat, m: nat)
    requires Enabled(s, step) && Population(s, provisioned, WrapsIn(front))
    requires MergedExplained(s, provisioned, front, m)
    ensures MergedExplained(Do(s, step), provisioned, front + [step], m)
  {
    assert (front + [step])[..|front|] == front;
    var begun := BegunOn(provisioned, front, m);
    AsCallsAppend(begun, step);
    assert begun + [] == begun && AsCalls(begun) + [] == AsCalls(begun);
    OneStepOn(s, step, m);
    if step.AcceptFails? {
      OwnerServes(s, provisioned, WrapsIn(front), m, step.worker);
    }
    if StepOn(s, step, m).Some? {
      CL.StepExplained(MergedAt(s, m), StepOn(s, step, m).value, AsCalls(begun), FirstSwapOn(front, m));
    }
  }

  lemma {:induction false} RunMerged(provisioned: nat, steps: seq<Step>, m: nat)
    requires IsRun(Init(provisioned), steps)
    ensures MergedExplained(Exec(Init(provisioned), steps), provisioned, steps, m)
  {
    if steps == [] {
    } else {
      var front, step := steps[..|steps| - 1], steps[|steps| - 1];
      RunLast(Init(provisioned), steps);
      RunMerged(provisioned, front, m);
      WorkersOfEveryCall(provisioned, front);
      StepMerged(Exec(Init(provisioned), front), front, step, provisioned, m);
      assert front + [step] == steps;
    }
  }

  /**
   * Only the first error is passed on: a merged listener's error is the very error of the failed
   * Accept of one of its own workers, or of the closing call, that swaps first, and net.ErrClosed
   * exactly if that call was given nil; every refused Accept returns it.
   */
  lemma FirstErrorPassedOn(provisioned: nat, steps: seq<Step>, m: nat)
    requires IsRun(Init(provisioned), steps) && m < |Exec(Init(provisioned), steps).merged|
    ensures var t, first := Exec(Init(provisioned), steps).merged[m], FirstSwapOn(steps, m);
      && (first.None? ==> t.closeErr == None)
      && (first.Some? ==>
            && first.value < |BegunOn(provisioned, steps, m)|
            && var step := BegunOn(provisioned, steps, m)[first.value];
               step in steps && BeginsOn(provisioned, step, m) && t.closeErr == Some(GivenBy(step)))
      && (forall k :: 0 <= k < |t.calls| && t.calls[k].Refused? ==> t.calls[k].loaded == t.closeErr)
  {
    RunMerged(provisioned, steps, m);
    InitHolds(provisioned);
    RunKeepsInv(Init(provisioned), steps);
    var t, begun, first := Exec(Init(provisioned), steps).merged[m], BegunOn(provisioned, steps, m), FirstSwapOn(steps, m);
    if first.Some? {
      BegunBegins(provisioned, steps, m, first.value);
      assert AsCalls(begun)[first.value] == AsCall(begun[first.value]);
    }
  }

  lemma {:induction false} BegunBegins(provisioned: nat, steps: seq<Step>, m: nat, k: nat)
    requires k < |BegunOn(provisioned, steps, m)|
    ensures BeginsOn(provisioned, BegunOn(provisioned, steps, m)[k], m) && BegunOn(provisioned, steps, m)[k] in steps
  {
    var last := |steps| - 1;
    if k < |BegunOn(provisioned, steps[..last], m)| {
      BegunBegins(provisioned, steps[..last], m, k);
    }
  }
}
