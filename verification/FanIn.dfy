/**
 * merge-listener-wrapper.go: every WrapListener call makes one merged listener and starts one
 * `listen` worker per underlying listener; all workers of all calls share one unbuffered channel.
 */
module FanIn {
  import opened Prelude
  import CL = ChannelListener

  type Conn = CL.Conn

  /** Where a `listen` goroutine stands. */
  datatype Pc =
    | Accepting             // inside ls.Accept
    | Holding(conn: Conn)   // at the select, with an accepted connection
    | Finishing(call: nat)  // inside finish(err), which is that call of its merged listener
    | Finished

  datatype Fate = Sent | Dropped

  /**
   * One worker: the underlying listener it accepts from, the merged listener it serves, and as
   * history the connections it accepted and what became of each settled one, in order.
   */
  datatype Worker = Worker(source: nat, merged: nat, pc: Pc, accepted: seq<Conn>, settled: seq<Fate>)

  datatype Delivery = Delivery(worker: nat, conn: Conn)

  /** open[j] says that underlying listener j may still hand out connections. */
  datatype State = State(open: seq<bool>, merged: seq<CL.State>, workers: seq<Worker>, sent: seq<Delivery>)

  /** After Provision: some underlying listeners, nothing wrapped yet. */
  function Init(provisioned: nat): State {
    State(seq(provisioned, _ => true), [], [], [])
  }

  datatype Step =
    | WrapListener
    | CloseSource(source: nat)                  // by Cleanup or by the listener's owner
    | Accept(worker: nat, conn: Conn)
    | AcceptFails(worker: nat, err: CL.Error)
    | Send(worker: nat, merged: nat, call: nat) // rendezvous with an Accept of any merged listener
    | Drop(worker: nat)                         // the select took <-done: close and ignore
    | FinishReturns(worker: nat)
    | Inside(merged: nat, step: CL.Step)        // a step of a merged listener's own calls

  predicate IsInside(step: CL.Step) {
    !step.Receive? && !step.CloseInput?
  }

  predicate Enabled(s: State, step: Step) {
    match step
    case WrapListener => true
    case CloseSource(j) => j < |s.open|
    case Accept(i, _) =>
      i < |s.workers| && s.workers[i].pc.Accepting? && s.workers[i].source < |s.open| && s.open[s.workers[i].source]
    case AcceptFails(i, _) =>
      i < |s.workers| && s.workers[i].pc.Accepting? && s.workers[i].merged < |s.merged|
    case Send(i, m, k) =>
      && i < |s.workers| && s.workers[i].pc.Holding?
      && m < |s.merged| && CL.Enabled(s.merged[m], CL.Receive(k, s.workers[i].pc.conn))
    case Drop(i) =>
      && i < |s.workers| && s.workers[i].pc.Holding?
      && s.workers[i].merged < |s.merged| && s.merged[s.workers[i].merged].Done()
    case FinishReturns(i) =>
      && i < |s.workers| && s.workers[i].pc.Finishing? && s.workers[i].merged < |s.merged|
      && var calls := s.merged[s.workers[i].merged].calls;
         s.workers[i].pc.call < |calls| && calls[s.workers[i].pc.call].CloseReturned?
    case Inside(m, step) => m < |s.merged| && IsInside(step) && CL.Enabled(s.merged[m], step)
  }

  function Settle(w: Worker, fate: Fate): Worker {
    w.(pc := Accepting, settled := w.settled + [fate])
  }

  /** WrapListener appends its argument to the listeners and starts a worker for every one of them. */
  function NewWorkers(sources: nat, merged: nat): seq<Worker> {
    seq(sources, j requires 0 <= j < sources => Worker(j, merged, Accepting, [], []))
  }

  function Do(s: State, step: Step): State
    requires Enabled(s, step)
  {
    match step
    case WrapListener =>
      State(s.open + [true], s.merged + [CL.INIT], s.workers + NewWorkers(|s.open| + 1, |s.merged|), s.sent)
    case CloseSource(j) => s.(open := s.open[j := false])
    case Accept(i, c) =>
      s.(workers := s.workers[i := s.workers[i].(pc := Holding(c), accepted := s.workers[i].accepted + [c])])
    case AcceptFails(i, err) =>
      var m := s.workers[i].merged;
      s.(workers := s.workers[i := s.workers[i].(pc := Finishing(|s.merged[m].calls|))],
         merged := s.merged[m := CL.Do(s.merged[m], CL.CallClose(Some(err)))])
    case Send(i, m, k) =>
      var c := s.workers[i].pc.conn;
      s.(workers := s.workers[i := Settle(s.workers[i], Sent)],
         merged := s.merged[m := CL.Do(s.merged[m], CL.Receive(k, c))],
         sent := s.sent + [Delivery(i, c)])
    case Drop(i) => s.(workers := s.workers[i := Settle(s.workers[i], Dropped)])
    case FinishReturns(i) => s.(workers := s.workers[i := s.workers[i].(pc := Finished)])
    case Inside(m, step) => s.(merged := s.merged[m := CL.Do(s.merged[m], step)])
  }

  ghost predicate IsRun(s: State, steps: seq<Step>)
    decreases |steps|
  {
    steps == [] || (Enabled(s, steps[0]) && IsRun(Do(s, steps[0]), steps[1..]))
  }

  ghost function Exec(s: State, steps: seq<Step>): State
    requires IsRun(s, steps)
    decreases |steps|
  {
    if steps == [] then s else Exec(Do(s, steps[0]), steps[1..])
  }

  /** A run is a shorter run and one more step. */
  lemma {:induction false} RunLast(s: State, steps: seq<Step>)
    requires steps != [] && IsRun(s, steps)
    ensures IsRun(s, steps[..|steps| - 1])
    ensures Enabled(Exec(s, steps[..|steps| - 1]), steps[|steps| - 1])
    ensures Exec(s, steps) == Do(Exec(s, steps[..|steps| - 1]), steps[|steps| - 1])
    decreases |steps|
  {
    var last := |steps| - 1;
    if last == 0 {
      assert steps[..0] == [] && steps[1..] == [];
    } else {
      RunLast(Do(s, steps[0]), steps[1..]);
      assert steps[..last][1..] == steps[1..][..last - 1];
      assert steps[..last][0] == steps[0];
    }
  }

  lemma ExecTwo(s: State, a: Step, b: Step)
    requires Enabled(s, a) && Enabled(Do(s, a), b)
    ensures IsRun(s, [a, b]) && Exec(s, [a, b]) == Do(Do(s, a), b)
  {
    assert [a, b][1..] == [b] && [b][1..] == [];
    assert IsRun(Do(Do(s, a), b), []);
    assert IsRun(Do(s, a), [b]);
    assert Exec(Do(s, a), [b]) == Exec(Do(Do(s, a), b), []);
  }

  // ---- Structure: what each worker and each merged listener looks like ----

  /** A worker's history: everything settled in accept order, and at most one connection pending. */
  ghost predicate WorkerInv(s: State, w: Worker) {
    && w.source < |s.open|
    && w.merged < |s.merged|
    && (match w.pc
        case Holding(c) => |w.accepted| == |w.settled| + 1 && w.accepted[|w.settled|] == c
        case _ => |w.accepted| == |w.settled|)
    && (Dropped in w.settled ==> s.merged[w.merged].Done())
    && (w.pc.Finishing? ==>
          && w.pc.call < |s.merged[w.merged].calls|
          && FinishCall(s.merged[w.merged].calls[w.pc.call]))
    && (w.pc.Finished? ==> s.merged[w.merged].closeErr.Some?)
  }

  /** The call a worker's finish makes is a plain CloseWithErr, never an Accept. */
  predicate FinishCall(call: CL.Call) {
    match call
    case Swapping(_, fromAccept) => !fromAccept
    case Closing(fromAccept) => !fromAccept
    case _ => call.CloseReturned?
  }

  ghost predicate Structure(s: State) {
    && (forall m :: 0 <= m < |s.merged| ==> CL.Inv(s.merged[m]) && !s.merged[m].inputClosed)
    && (forall i :: 0 <= i < |s.workers| ==> WorkerInv(s, s.workers[i]))
  }

  /** What a step may do to one merged listener: the protocol's own step, or nothing. */
  lemma MergedEvolves(s: State, step: Step, m: nat)
    requires Structure(s) && Enabled(s, step) && m < |s.merged|
    ensures var t := Do(s, step);
      && m < |t.merged|
      && CL.Inv(t.merged[m]) && !t.merged[m].inputClosed
      && (s.merged[m].Done() ==> t.merged[m].Done())
      && (s.merged[m].closeErr.Some? ==> t.merged[m].closeErr == s.merged[m].closeErr)
      && |s.merged[m].calls| <= |t.merged[m].calls|
      && (forall k :: 0 <= k < |s.merged[m].calls| && FinishCall(s.merged[m].calls[k]) ==>
            FinishCall(t.merged[m].calls[k]))
  {
    match step
    case AcceptFails(i, err) =>
      var n := s.workers[i].merged;
      CL.StepKeepsInv(s.merged[n], CL.CallClose(Some(err)));
    case Send(i, n, k) =>
      CL.StepKeepsInv(s.merged[n], CL.Receive(k, s.workers[i].pc.conn));
    case Inside(n, inner) =>
      CL.StepKeepsInv(s.merged[n], inner);
    case _ =>
  }

  lemma StepKeepsStructure(s: State, step: Step)
    requires Structure(s) && Enabled(s, step)
    ensures Structure(Do(s, step))
  {
    var t := Do(s, step);
    forall m | 0 <= m < |t.merged|
      ensures CL.Inv(t.merged[m]) && !t.merged[m].inputClosed
    {
      if m < |s.merged| {
        MergedEvolves(s, step, m);
      }
    }
    forall i | 0 <= i < |t.workers|
      ensures WorkerInv(t, t.workers[i])
    {
      StepKeepsWorker(s, step, i);
    }
  }

  lemma StepKeepsWorker(s: State, step: Step, i: nat)
    requires Structure(s) && Enabled(s, step) && i < |Do(s, step).workers|
    ensures WorkerInv(Do(s, step), Do(s, step).workers[i])
  {
    if i < |s.workers| {
      assert WorkerInv(s, s.workers[i]);
      MergedEvolves(s, step, s.workers[i].merged);
    }
  }

  // ---- Conservation and order ----

  /** The connections of a worker that met the given fate, in accept order. */
  function Met(accepted: seq<Conn>, settled: seq<Fate>, fate: Fate): seq<Conn>
    requires |settled| <= |accepted|
  {
    if settled == [] then []
    else
      var last := |settled| - 1;
      Met(accepted, settled[..last], fate) + (if settled[last] == fate then [accepted[last]] else [])
  }

  function SentOf(w: Worker): seq<Conn> {
    if |w.settled| <= |w.accepted| then Met(w.accepted, w.settled, Sent) else []
  }

  function DroppedOf(w: Worker): seq<Conn> {
    if |w.settled| <= |w.accepted| then Met(w.accepted, w.settled, Dropped) else []
  }

  function HeldOf(w: Worker): seq<Conn> {
    if w.pc.Holding? then [w.pc.conn] else []
  }

  function ReturnOf(call: CL.Call): multiset<Conn> {
    if call.Accepted? then multiset{call.conn} else multiset{}
  }

  const AcceptedBy := (w: Worker) => multiset(w.accepted)
  const SentBy := (w: Worker) => multiset(SentOf(w))
  const DroppedBy := (w: Worker) => multiset(DroppedOf(w))
  const HeldBy := (w: Worker) => multiset(HeldOf(w))
  /** What the Accept calls of a merged listener have returned. */
  ghost const ReturnedBy := (m: CL.State) => Total(m.calls, ReturnOf)

  /** The deliveries of one worker, in the order the consumers got them. */
  function From(sent: seq<Delivery>, worker: nat): seq<Conn> {
    if sent == [] then []
    else
      var last := |sent| - 1;
      From(sent[..last], worker) + (if sent[last].worker == worker then [sent[last].conn] else [])
  }

  function Conns(sent: seq<Delivery>): seq<Conn> {
    seq(|sent|, d requires 0 <= d < |sent| => sent[d].conn)
  }

  /** The log of rendezvous holds what the workers sent and what the Accept calls returned. */
  ghost predicate Totals(s: State) {
    && Total(s.workers, SentBy) == multiset(Conns(s.sent))
    && Total(s.merged, ReturnedBy) == multiset(Conns(s.sent))
  }

  ghost predicate Inv(s: State) {
    && Structure(s)
    && Totals(s)
    && Logged(s)
    && InOrder(s)
  }

  ghost predicate Logged(s: State) {
    forall d :: 0 <= d < |s.sent| ==> s.sent[d].worker < |s.workers|
  }

  /** Each worker's deliveries are what it sent, in that order. */
  ghost predicate InOrder(s: State) {
    forall i :: 0 <= i < |s.workers| ==> From(s.sent, i) == SentOf(s.workers[i])
  }

  lemma {:induction false} MetIgnoresPending(accepted: seq<Conn>, settled: seq<Fate>, fate: Fate, c: Conn)
    requires |settled| <= |accepted|
    ensures Met(accepted + [c], settled, fate) == Met(accepted, settled, fate)
  {
    if settled == [] {
    } else {
      MetIgnoresPending(accepted, settled[..|settled| - 1], fate, c);
    }
  }

  lemma MetSettle(accepted: seq<Conn>, settled: seq<Fate>, fate: Fate, now: Fate)
    requires |settled| < |accepted|
    ensures Met(accepted, settled + [now], fate) ==
            Met(accepted, settled, fate) + (if now == fate then [accepted[|settled|]] else [])
  {
    assert (settled + [now])[..|settled|] == settled;
  }

  lemma {:induction false} FatesPartition(accepted: seq<Conn>, settled: seq<Fate>)
    requires |settled| <= |accepted|
    ensures multiset(accepted[..|settled|]) ==
            multiset(Met(accepted, settled, Sent)) + multiset(Met(accepted, settled, Dropped))
  {
    if settled == [] {
      assert accepted[..0] == [];
    } else {
      FatesPartition(accepted, settled[..|settled| - 1]);
      PartitionGrows(accepted, settled);
    }
  }

  lemma PartitionGrows(accepted: seq<Conn>, settled: seq<Fate>)
    requires 0 < |settled| <= |accepted|
    requires var before := settled[..|settled| - 1];
      multiset(accepted[..|before|]) ==
      multiset(Met(accepted, before, Sent)) + multiset(Met(accepted, before, Dropped))
    ensures multiset(accepted[..|settled|]) ==
            multiset(Met(accepted, settled, Sent)) + multiset(Met(accepted, settled, Dropped))
  {
    var last := |settled| - 1;
    TakeNext(accepted, last);
    MetLast(accepted, settled, Sent);
    MetLast(accepted, settled, Dropped);
    AddToPart(accepted[..last], accepted[..|settled|], accepted[last],
      Met(accepted, settled[..last], Sent), Met(accepted, settled, Sent),
      Met(accepted, settled[..last], Dropped), Met(accepted, settled, Dropped));
  }

  /** The new element goes to exactly one of the two parts. */
  lemma AddToPart(whole: seq<Conn>, whole': seq<Conn>, c: Conn,
      sent: seq<Conn>, sent': seq<Conn>, dropped: seq<Conn>, dropped': seq<Conn>)
    requires multiset(whole) == multiset(sent) + multiset(dropped) && whole' == whole + [c]
    requires (sent' == sent + [c] && dropped' == dropped) || (sent' == sent && dropped' == dropped + [c])
    ensures multiset(whole') == multiset(sent') + multiset(dropped')
  {
  }

  lemma MetLast(accepted: seq<Conn>, settled: seq<Fate>, fate: Fate)
    requires 0 < |settled| <= |accepted|
    ensures var last := |settled| - 1;
      Met(accepted, settled, fate) ==
      if settled[last] == fate then Met(accepted, settled[..last], fate) + [accepted[last]]
      else Met(accepted, settled[..last], fate)
  {
    var last := |settled| - 1;
    var front := Met(accepted, settled[..last], fate);
    assert front + [] == front;
  }

  lemma WorkerAccounts(s: State, w: Worker)
    requires WorkerInv(s, w)
    ensures AcceptedBy(w) == SentBy(w) + DroppedBy(w) + HeldBy(w)
  {
    FatesPartition(w.accepted, w.settled);
    SplitOff(w.accepted, |w.settled|, HeldOf(w));
  }

  lemma SplitOff(whole: seq<Conn>, n: nat, rest: seq<Conn>)
    requires n <= |whole| && whole[n..] == rest
    ensures multiset(whole) == multiset(whole[..n]) + multiset(rest)
  {
    assert whole == whole[..n] + rest;
  }

  /** Only a receiving Accept changes what has been returned. */
  lemma ReturnedStep(m: CL.State, step: CL.Step)
    requires CL.Enabled(m, step)
    ensures ReturnedBy(CL.Do(m, step)) ==
            ReturnedBy(m) + (if step.Receive? then multiset{step.conn} else multiset{})
  {
    var t := CL.Do(m, step);
    var more := if step.Receive? then multiset{step.conn} else multiset{};
    match step
    case CallClose(err) => TotalAppend(m.calls, t.calls[|m.calls|..], ReturnOf);
    case CallAccept => TotalAppend(m.calls, t.calls[|m.calls|..], ReturnOf);
    case CloseInput =>
    case _ =>
      ReturnedCall(m, step, step.call, more);
      TotalUpdate(m.calls, step.call, t.calls[step.call], ReturnOf, more);
  }

  lemma ReturnedCall(m: CL.State, step: CL.Step, k: nat, more: multiset<Conn>)
    requires CL.Enabled(m, step) && !step.CallClose? && !step.CallAccept? && !step.CloseInput? && k == step.call
    requires more == if step.Receive? then multiset{step.conn} else multiset{}
    ensures CL.Do(m, step).calls == m.calls[k := CL.Do(m, step).calls[k]]
    ensures ReturnOf(CL.Do(m, step).calls[k]) == ReturnOf(m.calls[k]) + more
  {
  }

  /** How a step changes one worker's sent connections. */
  lemma SentStep(s: State, step: Step, i: nat)
    requires Structure(s) && Enabled(s, step) && i < |s.workers|
    ensures SentOf(Do(s, step).workers[i]) ==
            SentOf(s.workers[i]) + (if step.Send? && step.worker == i then [s.workers[i].pc.conn] else [])
  {
    var w := s.workers[i];
    if step.Accept? && step.worker == i {
      MetIgnoresPending(w.accepted, w.settled, Sent, step.conn);
    } else if (step.Send? || step.Drop?) && step.worker == i {
      MetSettle(w.accepted, w.settled, Sent, if step.Send? then Sent else Dropped);
    }
  }

  /** What a step hands over. */
  function HandedOver(s: State, step: Step): seq<Conn>
    requires Enabled(s, step)
  {
    if step.Send? then [s.workers[step.worker].pc.conn] else []
  }

  lemma SentTotalStep(s: State, step: Step)
    requires Structure(s) && Enabled(s, step)
    ensures Total(Do(s, step).workers, SentBy) == Total(s.workers, SentBy) + multiset(HandedOver(s, step))
  {
    var t := Do(s, step);
    match step
    case WrapListener =>
      var added := NewWorkers(|s.open| + 1, |s.merged|);
      TotalZero(added, SentBy);
      TotalAppend(s.workers, added, SentBy);
    case CloseSource(_) =>
    case Inside(_, _) =>
    case _ =>
      var i := step.worker;
      SentStep(s, step, i);
      assert t.workers == s.workers[i := t.workers[i]];
      TotalUpdate(s.workers, i, t.workers[i], SentBy, multiset(HandedOver(s, step)));
  }

  lemma ReturnedTotalStep(s: State, step: Step)
    requires Structure(s) && Enabled(s, step)
    ensures Total(Do(s, step).merged, ReturnedBy) == Total(s.merged, ReturnedBy) + multiset(HandedOver(s, step))
  {
    match step
    case WrapListener =>
      TotalAppend(s.merged, [CL.INIT], ReturnedBy);
    case Send(i, m, k) =>
      MergedTotalStep(s, m, CL.Receive(k, s.workers[i].pc.conn));
    case Inside(m, inner) =>
      MergedTotalStep(s, m, inner);
    case AcceptFails(i, err) =>
      MergedTotalStep(s, s.workers[i].merged, CL.CallClose(Some(err)));
    case _ =>
  }

  lemma MergedTotalStep(s: State, m: nat, step: CL.Step)
    requires m < |s.merged| && CL.Enabled(s.merged[m], step)
    ensures Total(s.merged[m := CL.Do(s.merged[m], step)], ReturnedBy) ==
            Total(s.merged, ReturnedBy) + (if step.Receive? then multiset{step.conn} else multiset{})
  {
    ReturnedStep(s.merged[m], step);
    TotalUpdate(s.merged, m, CL.Do(s.merged[m], step), ReturnedBy,
      if step.Receive? then multiset{step.conn} else multiset{});
  }

  lemma StepKeepsTotals(s: State, step: Step)
    requires Structure(s) && Enabled(s, step)
    requires Totals(s)
    ensures Totals(Do(s, step))
  {
    SentTotalStep(s, step);
    ReturnedTotalStep(s, step);
    LogStep(s, step);
  }

  lemma LogStep(s: State, step: Step)
    requires Enabled(s, step)
    ensures multiset(Conns(Do(s, step).sent)) == multiset(Conns(s.sent)) + multiset(HandedOver(s, step))
  {
    var before, after := Conns(s.sent), Conns(Do(s, step).sent);
    if step.Send? {
      assert after == before + HandedOver(s, step);
    } else {
      assert after == before;
    }
  }

  lemma {:induction false} NothingFrom(sent: seq<Delivery>, workers: nat, i: nat)
    requires forall d :: 0 <= d < |sent| ==> sent[d].worker < workers
    requires workers <= i
    ensures From(sent, i) == []
  {
    if sent == [] {
    } else {
      NothingFrom(sent[..|sent| - 1], workers, i);
    }
  }

  lemma FromStep(s: State, step: Step, i: nat)
    requires Enabled(s, step)
    ensures From(Do(s, step).sent, i) ==
            From(s.sent, i) + (if step.Send? && step.worker == i then HandedOver(s, step) else [])
  {
    if step.Send? {
      assert Do(s, step).sent[..|s.sent|] == s.sent;
    }
  }

  lemma NewWorkerStarts(s: State, step: Step, i: nat)
    requires Enabled(s, step) && |s.workers| <= i < |Do(s, step).workers|
    ensures SentOf(Do(s, step).workers[i]) == []
  {
  }

  lemma StepKeepsOrder(s: State, step: Step, i: nat)
    requires Inv(s) && Enabled(s, step) && i < |Do(s, step).workers|
    ensures From(Do(s, step).sent, i) == SentOf(Do(s, step).workers[i])
  {
    FromStep(s, step, i);
    if i < |s.workers| {
      SentStep(s, step, i);
    } else {
      NothingFrom(s.sent, |s.workers|, i);
      NewWorkerStarts(s, step, i);
    }
  }

  lemma StepKeepsLog(s: State, step: Step)
    requires Logged(s) && Enabled(s, step)
    ensures Logged(Do(s, step))
  {
  }

  lemma StepKeepsInv(s: State, step: Step)
    requires Inv(s) && Enabled(s, step)
    ensures Inv(Do(s, step))
  {
    StepKeepsStructure(s, step);
    StepKeepsTotals(s, step);
    StepKeepsLog(s, step);
    forall i | 0 <= i < |Do(s, step).workers|
      ensures From(Do(s, step).sent, i) == SentOf(Do(s, step).workers[i])
    {
      StepKeepsOrder(s, step, i);
    }
  }

  lemma InitHolds(provisioned: nat)
    ensures Inv(Init(provisioned))
  {
  }

  lemma {:induction false} RunKeepsInv(s: State, steps: seq<Step>)
    requires Inv(s) && IsRun(s, steps)
    ensures Inv(Exec(s, steps))
    decreases |steps|
  {
    if steps == [] {
    } else {
      StepKeepsInv(s, steps[0]);
      RunKeepsInv(Do(s, steps[0]), steps[1..]);
    }
  }

  lemma {:induction false} MetOnlyIfSettled(accepted: seq<Conn>, settled: seq<Fate>, fate: Fate)
    requires |settled| <= |accepted|
    ensures Met(accepted, settled, fate) != [] ==> fate in settled
    ensures settled == seq(|settled|, _ => fate) ==> Met(accepted, settled, fate) == accepted[..|settled|]
  {
    if settled == [] {
    } else {
      var last := |settled| - 1;
      MetOnlyIfSettled(accepted, settled[..last], fate);
      assert accepted[..|settled|] == accepted[..last] + [accepted[last]];
    }
  }

  // ---- The merged stream ----

  /** `out` is a merge of the streams that keeps the order of each. */
  ghost predicate Interleaves(out: seq<Conn>, streams: seq<seq<Conn>>) {
    if out == [] then forall i :: 0 <= i < |streams| ==> streams[i] == []
    else
      exists i :: (
        && 0 <= i < |streams|
        && TakesLast(out, streams[i])
        && Interleaves(out[..|out| - 1], streams[i := streams[i][..|streams[i]| - 1]]))
  }

  ghost predicate TakesLast(out: seq<Conn>, stream: seq<Conn>) {
    out != [] && stream != [] && stream[|stream| - 1] == out[|out| - 1]
  }

  function Streams(sent: seq<Delivery>, workers: nat): seq<seq<Conn>> {
    seq(workers, i requires 0 <= i < workers => From(sent, i))
  }

  lemma {:induction false} SentInterleaves(sent: seq<Delivery>, workers: nat)
    requires forall d :: 0 <= d < |sent| ==> sent[d].worker < workers
    ensures Interleaves(Conns(sent), Streams(sent, workers))
  {
    if sent == [] {
    } else {
      var last := |sent| - 1;
      var i := sent[last].worker;
      var out, streams := Conns(sent), Streams(sent, workers);
      SentInterleaves(sent[..last], workers);
      assert out[..|out| - 1] == Conns(sent[..last]);
      var shorter := streams[i := streams[i][..|streams[i]| - 1]];
      forall j | 0 <= j < workers
        ensures shorter[j] == From(sent[..last], j)
      {
        assert From(sent, j) == From(sent[..last], j) + (if j == i then [sent[last].conn] else []);
      }
      assert shorter == Streams(sent[..last], workers);
      assert TakesLast(out, streams[i]);
    }
  }

  /** Worker i sends in accept order and, while its merged listener is open, skips nothing. */
  ghost predicate StreamInOrder(s: State, i: nat)
    requires i < |s.workers|
  {
    var w := s.workers[i];
    && |w.settled| <= |w.accepted|
    && w.accepted == w.accepted[..|w.settled|] + HeldOf(w)
    && From(s.sent, i) == Met(w.accepted, w.settled, Sent)
    && w.merged < |s.merged|
    && (!s.merged[w.merged].Done() ==> w.accepted == From(s.sent, i) + HeldOf(w))
  }

  lemma WorkerStream(s: State, w: Worker)
    requires WorkerInv(s, w)
    ensures w.accepted == w.accepted[..|w.settled|] + HeldOf(w)
    ensures !s.merged[w.merged].Done() ==> Met(w.accepted, w.settled, Sent) == w.accepted[..|w.settled|]
  {
    if Dropped !in w.settled {
      forall j | 0 <= j < |w.settled|
        ensures w.settled[j] == Sent
      {
        assert w.settled[j] in w.settled;
      }
      assert w.settled == seq(|w.settled|, _ => Sent);
      MetOnlyIfSettled(w.accepted, w.settled, Sent);
    }
  }

  lemma StreamHolds(t: State, i: nat)
    requires Inv(t) && i < |t.workers|
    ensures StreamInOrder(t, i)
  {
    assert WorkerInv(t, t.workers[i]);
    WorkerStream(t, t.workers[i]);
  }

  // ---- Each merged listener runs its own close protocol ----

  /** Before WrapListener makes it, a merged listener is as good as new. */
  function MergedAt(s: State, m: nat): CL.State {
    if m < |s.merged| then s.merged[m] else CL.INIT
  }

  /** What a step is to merged listener m: a failed Accept of one of its workers is a close call. */
  function StepOn(s: State, step: Step, m: nat): Option<CL.Step>
    requires Enabled(s, step)
  {
    match step
    case AcceptFails(i, err) => if s.workers[i].merged == m then Some(CL.CallClose(Some(err))) else None
    case Send(i, n, k) => if n == m then Some(CL.Receive(k, s.workers[i].pc.conn)) else None
    case Inside(n, inner) => if n == m then Some(inner) else None
    case _ => None
  }

  ghost function StepsOn(s: State, steps: seq<Step>, m: nat): seq<CL.Step>
    requires IsRun(s, steps)
    decreases |steps|
  {
    if steps == [] then []
    else
      var more := StepsOn(Do(s, steps[0]), steps[1..], m);
      if StepOn(s, steps[0], m).Some? then [StepOn(s, steps[0], m).value] + more else more
  }

  lemma OneStepOn(s: State, step: Step, m: nat)
    requires Enabled(s, step)
    ensures StepOn(s, step, m).None? ==> MergedAt(Do(s, step), m) == MergedAt(s, m)
    ensures StepOn(s, step, m).Some? ==>
      && CL.Enabled(MergedAt(s, m), StepOn(s, step, m).value)
      && MergedAt(Do(s, step), m) == CL.Do(MergedAt(s, m), StepOn(s, step, m).value)
  {
  }

  /** Seen from one merged listener, every run of the fan-in is a run of the close protocol. */
  lemma {:induction false} RunsOwnProtocol(s: State, steps: seq<Step>, m: nat)
    requires IsRun(s, steps)
    ensures CL.IsRun(MergedAt(s, m), StepsOn(s, steps, m))
    ensures CL.Exec(MergedAt(s, m), StepsOn(s, steps, m)) == MergedAt(Exec(s, steps), m)
    decreases |steps|
  {
    if steps == [] {
    } else {
      OneStepOn(s, steps[0], m);
      RunsOwnProtocol(Do(s, steps[0]), steps[1..], m);
      if StepOn(s, steps[0], m).Some? {
        assert StepsOn(s, steps, m)[1..] == StepsOn(Do(s, steps[0]), steps[1..], m);
      }
    }
  }

  // ---- Shutdown ----

  /** The underlying listeners hand out no more connections. */
  ghost predicate SourcesClosed(s: State) {
    forall j :: 0 <= j < |s.open| ==> !s.open[j]
  }

  /** A bound on the steps a worker has left once its underlying listener is closed. */
  function Fuel(s: State, w: Worker): nat {
    match w.pc
    case Holding(_) => 6
    case Accepting => 5
    case Finishing(k) =>
      if w.merged < |s.merged| && k < |s.merged[w.merged].calls| && FinishCall(s.merged[w.merged].calls[k])
      then 1 + CL.Fuel(s.merged[w.merged].calls[k]) else 1
    case Finished => 0
  }

  function FuelUpTo(s: State, n: nat): nat
    requires n <= |s.workers|
  {
    if n == 0 then 0 else FuelUpTo(s, n - 1) + Fuel(s, s.workers[n - 1])
  }

  /** The steps a worker takes itself, inside its own code or inside its finish call. */
  ghost predicate Moves(s: State, step: Step, i: nat) {
    && i < |s.workers|
    && match step
       case Send(w, _, _) => w == i
       case Drop(w) => w == i
       case AcceptFails(w, _) => w == i
       case FinishReturns(w) => w == i
       case Inside(m, Swap(k)) => s.workers[i].merged == m && s.workers[i].pc == Finishing(k)
       case Inside(m, CloseDone(k)) => s.workers[i].merged == m && s.workers[i].pc == Finishing(k)
       case _ => false
  }

  /** No step but WrapListener gives a worker more to do, and its own steps leave it less. */
  lemma FuelDrops(s: State, step: Step, i: nat)
    requires Structure(s) && SourcesClosed(s) && Enabled(s, step) && !step.WrapListener? && i < |s.workers|
    ensures Fuel(Do(s, step), Do(s, step).workers[i]) <= Fuel(s, s.workers[i])
    ensures Moves(s, step, i) ==> Fuel(Do(s, step), Do(s, step).workers[i]) < Fuel(s, s.workers[i])
  {
    assert WorkerInv(s, s.workers[i]);
  }

  lemma {:induction false} FuelSumDrops(s: State, t: State, n: nat, dropped: Option<nat>)
    requires n <= |s.workers| && n <= |t.workers|
    requires forall i :: 0 <= i < n ==> Fuel(t, t.workers[i]) <= Fuel(s, s.workers[i])
    requires dropped.Some? ==>
      && dropped.value < |s.workers| && dropped.value < |t.workers|
      && Fuel(t, t.workers[dropped.value]) < Fuel(s, s.workers[dropped.value])
    ensures FuelUpTo(t, n) <= FuelUpTo(s, n)
    ensures dropped.Some? && dropped.value < n ==> FuelUpTo(t, n) < FuelUpTo(s, n)
  {
    if n == 0 {
    } else {
      FuelSumDrops(s, t, n - 1, dropped);
    }
  }

  lemma StepBurnsFuel(s: State, step: Step)
    requires Structure(s) && SourcesClosed(s) && Enabled(s, step) && !step.WrapListener?
    ensures |Do(s, step).workers| == |s.workers| && SourcesClosed(Do(s, step))
    ensures FuelUpTo(Do(s, step), |s.workers|) + (if WorkerMoves(s, step) then 1 else 0) <= FuelUpTo(s, |s.workers|)
  {
    var t := Do(s, step);
    forall i | 0 <= i < |s.workers|
      ensures Fuel(t, t.workers[i]) <= Fuel(s, s.workers[i])
    {
      FuelDrops(s, step, i);
    }
    var dropped := None;
    if WorkerMoves(s, step) {
      var i :| Moves(s, step, i);
      FuelDrops(s, step, i);
      dropped := Some(i);
    }
    FuelSumDrops(s, t, |s.workers|, dropped);
  }

  ghost predicate WorkerMoves(s: State, step: Step) {
    exists i :: Moves(s, step, i)
  }

  /** How many steps of a run are taken by workers. */
  ghost function WorkerSteps(s: State, steps: seq<Step>): nat
    requires IsRun(s, steps)
    decreases |steps|
  {
    if steps == [] then 0
    else (if WorkerMoves(s, steps[0]) then 1 else 0) + WorkerSteps(Do(s, steps[0]), steps[1..])
  }

  /**
   * Shutdown terminates: from any reachable state with all underlying listeners closed, every
   * further run without a new WrapListener contains at most FuelUpTo(s) worker steps, however
   * many steps consumers and closers take in between.
   */
  lemma {:induction false} ShutdownTerminates(s: State, steps: seq<Step>)
    requires Structure(s) && SourcesClosed(s) && IsRun(s, steps)
    requires forall j :: 0 <= j < |steps| ==> !steps[j].WrapListener?
    ensures var t := Exec(s, steps);
      && Structure(t) && SourcesClosed(t) && |t.workers| == |s.workers|
      && WorkerSteps(s, steps) + FuelUpTo(t, |t.workers|) <= FuelUpTo(s, |s.workers|)
    decreases |steps|
  {
    if steps == [] {
    } else {
      StepKeepsStructure(s, steps[0]);
      StepBurnsFuel(s, steps[0]);
      ShutdownTerminates(Do(s, steps[0]), steps[1..]);
    }
  }

  /** A worker that can only wait: it holds a connection nobody takes, and done is still open. */
  ghost predicate Blocked(s: State, w: Worker) {
    && w.pc.Holding?
    && w.merged < |s.merged| && !s.merged[w.merged].Done()
    && forall m, k :: 0 <= m < |s.merged| && 0 <= k < |s.merged[m].calls| ==> !s.merged[m].calls[k].Waiting?
  }

  ghost predicate CanMove(s: State, i: nat) {
    exists step :: Enabled(s, step) && Moves(s, step, i)
  }

  /**
   * Exactly the finished and the blocked workers cannot move; once `done` is closed nobody is
   * blocked, so a worker that cannot move has returned.
   */
  lemma StuckExactlyIfBlocked(s: State, i: nat)
    requires Structure(s) && i < |s.workers|
    ensures !CanMove(s, i) <==> s.workers[i].pc.Finished? || Blocked(s, s.workers[i])
    ensures !CanMove(s, i) && s.merged[s.workers[i].merged].Done() ==> s.workers[i].pc.Finished?
  {
    var w := s.workers[i];
    assert WorkerInv(s, w);
    var next: Step;
    match w.pc {
      case Accepting =>
        next := AcceptFails(i, CL.NetErrClosed);
      case Holding(c) =>
        next := Drop(i);
        if !s.merged[w.merged].Done() && !Blocked(s, w) {
          var m, k :| 0 <= m < |s.merged| && 0 <= k < |s.merged[m].calls| && s.merged[m].calls[k].Waiting?;
          next := Send(i, m, k);
        }
      case Finishing(k) =>
        next := match s.merged[w.merged].calls[k]
          case Swapping(_, _) => Inside(w.merged, CL.Swap(k))
          case Closing(_) => Inside(w.merged, CL.CloseDone(k))
          case _ => FinishReturns(i);
      case Finished =>
        next := WrapListener;
    }
    if !w.pc.Finished? && !Blocked(s, w) {
      assert Enabled(s, next) && Moves(s, next, i);
    }
  }

  /** Every worker's merged listener is done. */
  ghost predicate AllDone(s: State) {
    forall i :: 0 <= i < |s.workers| ==> s.workers[i].merged < |s.merged| && s.merged[s.workers[i].merged].Done()
  }

  lemma StepKeepsDone(s: State, step: Step)
    requires Structure(s) && AllDone(s) && Enabled(s, step) && !step.WrapListener?
    ensures AllDone(Do(s, step))
  {
    forall i | 0 <= i < |s.workers|
      ensures Do(s, step).workers[i].merged == s.workers[i].merged
      ensures Do(s, step).merged[s.workers[i].merged].Done()
    {
      MergedEvolves(s, step, s.workers[i].merged);
    }
  }

  lemma {:induction false} RunKeepsDone(s: State, steps: seq<Step>)
    requires Structure(s) && AllDone(s) && IsRun(s, steps)
    requires forall j :: 0 <= j < |steps| ==> !steps[j].WrapListener?
    ensures Structure(Exec(s, steps)) && AllDone(Exec(s, steps))
    decreases |steps|
  {
    if steps == [] {
    } else {
      StepKeepsStructure(s, steps[0]);
      StepKeepsDone(s, steps[0]);
      RunKeepsDone(Do(s, steps[0]), steps[1..]);
    }
  }

  ghost predicate AllFinished(s: State) {
    forall i :: 0 <= i < |s.workers| ==> s.workers[i].pc.Finished?
  }

  /**
   * Every listen returns: with all underlying listeners closed and every done closed, any run
   * takes at most FuelUpTo(s) worker steps, and where it leaves no worker a step to take, every
   * worker has finished.
   */
  lemma EveryListenReturns(s: State, steps: seq<Step>)
    requires Structure(s) && SourcesClosed(s) && AllDone(s) && IsRun(s, steps)
    requires forall j :: 0 <= j < |steps| ==> !steps[j].WrapListener?
    ensures WorkerSteps(s, steps) <= FuelUpTo(s, |s.workers|)
    ensures (forall i :: 0 <= i < |s.workers| ==> !CanMove(Exec(s, steps), i)) <==> AllFinished(Exec(s, steps))
  {
    ShutdownTerminates(s, steps);
    RunKeepsDone(s, steps);
    var t := Exec(s, steps);
    forall i | 0 <= i < |t.workers|
      ensures !CanMove(t, i) <==> t.workers[i].pc.Finished?
    {
      StuckExactlyIfBlocked(t, i);
      assert WorkerInv(t, t.workers[i]);
    }
  }

  /**
   * One failing Accept is enough: from any state with a worker past its failing Accept, at most
   * two enabled steps of closing calls close `done`.
   */
  lemma FailureReachesDone(s: State, i: nat) returns (steps: seq<Step>)
    requires Structure(s) && i < |s.workers| && (s.workers[i].pc.Finishing? || s.workers[i].pc.Finished?)
    ensures |steps| <= 2 && IsRun(s, steps)
    ensures s.workers[i].merged < |Exec(s, steps).merged| && Exec(s, steps).merged[s.workers[i].merged].Done()
  {
    var w := s.workers[i];
    var m := w.merged;
    assert WorkerInv(s, w);
    if s.merged[m].Done() {
      steps := [];
    } else if s.merged[m].closeErr.Some? {
      var k := CL.CloseCompletes(s.merged[m]);
      steps := [Inside(m, CL.CloseDone(k))];
      assert Exec(s, steps) == Exec(Do(s, steps[0]), []);
    } else {
      var k := w.pc.call;
      steps := [Inside(m, CL.Swap(k)), Inside(m, CL.CloseDone(k))];
      ExecTwo(s, steps[0], steps[1]);
    }
  }
}
