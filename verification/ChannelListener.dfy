/**
 * pkg/channel-listener: a listener fed by a channel, closed by a compare-and-swap
 * on closeErr followed by close(done).
 */
module ChannelListener {
  import opened Prelude

  type Conn = nat

  datatype Error = NetErrClosed | Cause(id: nat)

  /** CloseWithErr reads a nil error as net.ErrClosed. */
  function Normalise(err: Option<Error>): Error {
    if err.Some? then err.value else NetErrClosed
  }

  /** Where one concurrent call of Close, CloseWithErr or Accept stands. */
  datatype Call =
    | Swapping(err: Error, fromAccept: bool)  // CloseWithErr is about to run CompareAndSwap
    | Closing(fromAccept: bool)               // won the swap; close(done) comes next
    | CloseReturned
    | Waiting                                 // Accept is at its select
    | Loading                                 // Accept is about to dereference closeErr
    | Accepted(conn: Conn)                    // Accept returned a connection
    | Refused(loaded: Option<Error>)          // Accept returned *closeErr; None is a nil dereference

  /** doneCloses counts the close(done) calls; the second one would panic. */
  datatype State = State(closeErr: Option<Error>, doneCloses: nat, inputClosed: bool, calls: seq<Call>) {
    predicate Done() { doneCloses > 0 }
  }

  const INIT := State(None, 0, false, [])

  datatype Step =
    | CallClose(err: Option<Error>)
    | CallAccept
    | Swap(call: nat)
    | CloseDone(call: nat)
    | SelectDone(call: nat)
    | SelectClosedInput(call: nat)
    | Receive(call: nat, conn: Conn)
    | Load(call: nat)
    | CloseInput

  predicate Enabled(s: State, step: Step) {
    match step
    case CallClose(_) => true
    case CallAccept => true
    case Swap(k) => k < |s.calls| && s.calls[k].Swapping?
    case CloseDone(k) => k < |s.calls| && s.calls[k].Closing?
    case SelectDone(k) => k < |s.calls| && s.calls[k].Waiting? && s.Done()
    case SelectClosedInput(k) => k < |s.calls| && s.calls[k].Waiting? && s.inputClosed
    case Receive(k, _) => k < |s.calls| && s.calls[k].Waiting? && !s.inputClosed
    case Load(k) => k < |s.calls| && s.calls[k].Loading?
    case CloseInput => !s.inputClosed
  }

  /** Where a CloseWithErr call goes when it is over: back to its caller, or on inside Accept. */
  function AfterClose(fromAccept: bool): Call {
    if fromAccept then Loading else CloseReturned
  }

  function Do(s: State, step: Step): State
    requires Enabled(s, step)
  {
    match step
    case CallClose(err) => s.(calls := s.calls + [Swapping(Normalise(err), false)])
    case CallAccept => s.(calls := s.calls + [Waiting])
    case Swap(k) =>
      var call := s.calls[k];
      if s.closeErr.None? then s.(closeErr := Some(call.err), calls := s.calls[k := Closing(call.fromAccept)])
      else s.(calls := s.calls[k := AfterClose(call.fromAccept)])
    case CloseDone(k) =>
      s.(doneCloses := s.doneCloses + 1, calls := s.calls[k := AfterClose(s.calls[k].fromAccept)])
    case SelectDone(k) => s.(calls := s.calls[k := Loading])
    case SelectClosedInput(k) => s.(calls := s.calls[k := Swapping(Normalise(None), true)])
    case Receive(k, c) => s.(calls := s.calls[k := Accepted(c)])
    case Load(k) => s.(calls := s.calls[k := Refused(s.closeErr)])
    case CloseInput => s.(inputClosed := true)
  }

  ghost predicate IsRun(s: State, steps: seq<Step>)
    decreases |steps|
  {
    steps == [] || (Enabled(s, steps[0]) && IsRun(Do(s, steps[0]), steps[1..]))
  }

  ghost function Exec(s: State, steps: seq<Step>): State
    requires IsRun(s, steps)
    decreases |steps|
  {
    if steps == [] then s else Exec(Do(s, steps[0]), steps[1..])
  }

  /** A run is a shorter run and one more step. */
  lemma {:induction false} RunLast(s: State, steps: seq<Step>)
    requires steps != [] && IsRun(s, steps)
    ensures IsRun(s, steps[..|steps| - 1])
    ensures Enabled(Exec(s, steps[..|steps| - 1]), steps[|steps| - 1])
    ensures Exec(s, steps) == Do(Exec(s, steps[..|steps| - 1]), steps[|steps| - 1])
    decreases |steps|
  {
    var last := |steps| - 1;
    if last == 0 {
      assert steps[..0] == [] && steps[1..] == [];
    } else {
      RunLast(Do(s, steps[0]), steps[1..]);
      assert steps[..last][1..] == steps[1..][..last - 1];
      assert steps[..last][0] == steps[0];
    }
  }

  // ---- Safety of the close protocol ----

  /**
   * The close of `done` is owed exactly while closeErr is set and `done` is open, and then by
   * exactly one call: the one that stands between its swap and its close.
   */
  ghost predicate Inv(s: State) {
    && (s.doneCloses == 0 || (s.doneCloses == 1 && s.closeErr.Some?))
    && (forall k :: 0 <= k < |s.calls| && s.calls[k].Closing? ==> s.closeErr.Some? && s.doneCloses == 0)
    && (forall j, k :: 0 <= j < k < |s.calls| && s.calls[j].Closing? ==> !s.calls[k].Closing?)
    && (s.closeErr.Some? && s.doneCloses == 0 ==> exists k :: 0 <= k < |s.calls| && s.calls[k].Closing?)
    && (forall k :: 0 <= k < |s.calls| && (s.calls[k].Loading? || s.calls[k].CloseReturned?) ==> s.closeErr.Some?)
    && (forall k :: 0 <= k < |s.calls| && s.calls[k].Refused? ==>
          s.calls[k].loaded == s.closeErr && s.closeErr.Some?)
  }

  lemma StepKeepsInv(s: State, step: Step)
    requires Inv(s) && Enabled(s, step)
    ensures Inv(Do(s, step))
    ensures s.closeErr.Some? ==> Do(s, step).closeErr == s.closeErr
    ensures s.Done() ==> Do(s, step).Done()
  {
    var t := Do(s, step);
    if t.closeErr.Some? && t.doneCloses == 0 {
      var k: nat := if step.Swap? && s.closeErr.None? then step.call
                    else var k :| 0 <= k < |s.calls| && s.calls[k].Closing?; k;
      assert t.calls[k].Closing?;
    }
  }

  /**
   * Any number of Close, CloseWithErr and Accept calls, interleaved in any way: `done` is closed
   * at most once, only after closeErr is set; closeErr keeps its first value for ever; and no
   * Accept dereferences a nil closeErr or returns any other error.
   */
  lemma {:induction false} CloseProtocol(s: State, steps: seq<Step>)
    requires Inv(s) && IsRun(s, steps)
    ensures var t := Exec(s, steps);
      && Inv(t)
      && t.doneCloses <= 1
      && (t.Done() ==> t.closeErr.Some?)
      && (s.closeErr.Some? ==> t.closeErr == s.closeErr)
      && (s.Done() ==> t.Done())
      && (forall k :: 0 <= k < |t.calls| && t.calls[k].Refused? ==>
            t.calls[k].loaded.Some? && t.calls[k].loaded == t.closeErr)
    decreases |steps|
  {
    if steps == [] {
    } else {
      StepKeepsInv(s, steps[0]);
      CloseProtocol(Do(s, steps[0]), steps[1..]);
    }
  }

  /** The error carried by the first CompareAndSwap of a run. */
  ghost function FirstSwapped(s: State, steps: seq<Step>): Option<Error>
    requires IsRun(s, steps)
    decreases |steps|
  {
    if steps == [] then None
    else if steps[0].Swap? then Some(s.calls[steps[0].call].err)
    else FirstSwapped(Do(s, steps[0]), steps[1..])
  }

  /** First error wins: closeErr, and with it every refused Accept, is the first swap's error. */
  lemma {:induction false} FirstErrorWins(s: State, steps: seq<Step>)
    requires Inv(s) && s.closeErr.None? && IsRun(s, steps)
    ensures var t := Exec(s, steps);
      && t.closeErr == FirstSwapped(s, steps)
      && (forall k :: 0 <= k < |t.calls| && t.calls[k].Refused? ==> t.calls[k].loaded == FirstSwapped(s, steps))
    decreases |steps|
  {
    if steps == [] {
    } else {
      StepKeepsInv(s, steps[0]);
      if steps[0].Swap? {
        CloseProtocol(Do(s, steps[0]), steps[1..]);
      } else {
        FirstErrorWins(Do(s, steps[0]), steps[1..]);
      }
    }
  }

  /** The error a step brings in: from a caller, or net.ErrClosed for a closed input. */
  predicate Offers(step: Step, err: Error) {
    match step
    case CallClose(_) => err == Given(step)
    case SelectClosedInput(_) => err == NetErrClosed
    case _ => false
  }

  ghost predicate OfferedIn(steps: seq<Step>, err: Error) {
    exists j :: 0 <= j < |steps| && Offers(steps[j], err)
  }

  /** The errors that could still be swapped in. */
  ghost predicate Pending(s: State, err: Error) {
    exists k :: 0 <= k < |s.calls| && s.calls[k].Swapping? && s.calls[k].err == err
  }

  lemma PendingStep(s: State, step: Step, err: Error)
    requires Enabled(s, step) && Pending(Do(s, step), err)
    ensures Pending(s, err) || Offers(step, err)
  {
    var t := Do(s, step);
    var k :| 0 <= k < |t.calls| && t.calls[k].Swapping? && t.calls[k].err == err;
    assert k < |s.calls| && s.calls[k] == t.calls[k] ==> Pending(s, err);
  }

  /** Nobody makes an error up: the first swapped one was pending or comes in during the run. */
  lemma {:induction false} FirstWasOffered(s: State, steps: seq<Step>)
    requires IsRun(s, steps) && FirstSwapped(s, steps).Some?
    ensures Pending(s, FirstSwapped(s, steps).value) || OfferedIn(steps, FirstSwapped(s, steps).value)
    decreases |steps|
  {
    if !steps[0].Swap? {
      var err := FirstSwapped(s, steps).value;
      FirstWasOffered(Do(s, steps[0]), steps[1..]);
      if Pending(Do(s, steps[0]), err) {
        PendingStep(s, steps[0], err);
        assert Offers(steps[0], err) ==> OfferedIn(steps, err);
      } else {
        var j :| 0 <= j < |steps[1..]| && Offers(steps[1..][j], err);
        assert Offers(steps[j + 1], err);
      }
    }
  }

  // ---- What the steps of a run say, whatever the states are ----

  /** The error a call is given by the step that begins it; nil and a closed input mean net.ErrClosed. */
  function Given(begun: Step): Error {
    match begun
    case CallClose(Some(err)) => err
    case _ => NetErrClosed
  }

  predicate Begins(step: Step) {
    step.CallClose? || step.CallAccept?
  }

  /** The steps that begin a call, in order: entry k begins call k. */
  function Begun(steps: seq<Step>): seq<Step> {
    if steps == [] then []
    else
      var last := |steps| - 1;
      Begun(steps[..last]) + (if Begins(steps[last]) then [steps[last]] else [])
  }

  /** The call that swaps first. */
  function FirstSwap(steps: seq<Step>): Option<nat> {
    if steps == [] then None
    else
      var last := |steps| - 1;
      if FirstSwap(steps[..last]).Some? then FirstSwap(steps[..last])
      else if steps[last].Swap? then Some(steps[last].call)
      else None
  }

  /** Where a call may stand, and with what error, given the step that began it. */
  predicate CallExplained(call: Call, begun: Step) {
    match call
    case Swapping(err, fromAccept) => err == Given(begun) && fromAccept == begun.CallAccept?
    case Closing(fromAccept) => fromAccept == begun.CallAccept?
    case CloseReturned => begun.CallClose?
    case _ => begun.CallAccept?
  }

  ghost predicate Explained(s: State, begun: seq<Step>, first: Option<nat>) {
    && |s.calls| == |begun|
    && (forall k :: 0 <= k < |begun| ==> Begins(begun[k]) && CallExplained(s.calls[k], begun[k]))
    && (first.Some? ==> first.value < |begun|)
    && s.closeErr == if first.Some? then Some(Given(begun[first.value])) else None
  }

  lemma StepExplained(s: State, step: Step, begun: seq<Step>, first: Option<nat>)
    requires Enabled(s, step) && Explained(s, begun, first)
    ensures Explained(Do(s, step), begun + (if Begins(step) then [step] else []),
      if first.None? && step.Swap? then Some(step.call) else first)
  {
  }

  lemma {:induction false} RunExplained(steps: seq<Step>)
    requires IsRun(INIT, steps)
    ensures Explained(Exec(INIT, steps), Begun(steps), FirstSwap(steps))
  {
    if steps == [] {
    } else {
      var front := steps[..|steps| - 1];
      RunLast(INIT, steps);
      RunExplained(front);
      StepExplained(Exec(INIT, front), steps[|steps| - 1], Begun(front), FirstSwap(front));
    }
  }

  /**
   * The error a listener is closed with is the very error given to the call that swaps first, and
   * net.ErrClosed exactly if that call was given nil or met a closed input; every refused Accept
   * returns it.
   */
  lemma ErrorOfFirstSwap(steps: seq<Step>)
    requires IsRun(INIT, steps)
    ensures var t, first := Exec(INIT, steps), FirstSwap(steps);
      && (first.None? ==> t.closeErr == None)
      && (first.Some? ==> first.value < |Begun(steps)| && t.closeErr == Some(Given(Begun(steps)[first.value])))
      && (forall k :: 0 <= k < |t.calls| && t.calls[k].Refused? ==> t.calls[k].loaded == t.closeErr)
  {
    RunExplained(steps);
    InitHolds();
    CloseProtocol(INIT, steps);
  }

  /** A call has returned a connection exactly if that connection was handed to it, once. */
  lemma {:induction false} ReturnsWhatItReceived(steps: seq<Step>, k: nat, c: Conn)
    requires IsRun(INIT, steps)
    ensures Receive(k, c) in steps <==> k < |Exec(INIT, steps).calls| && Exec(INIT, steps).calls[k] == Accepted(c)
  {
    if steps == [] {
    } else {
      var last := |steps| - 1;
      RunLast(INIT, steps);
      ReturnsWhatItReceived(steps[..last], k, c);
      assert steps == steps[..last] + [steps[last]];
    }
  }

  lemma InitHolds()
    ensures Inv(INIT) && INIT.closeErr.None?
  {
  }

  // ---- Calls end ----

  predicate Over(call: Call) {
    call.CloseReturned? || call.Accepted? || call.Refused?
  }

  /** How many more steps a call can take by itself; a waiting Accept counts its longest way out. */
  function Fuel(call: Call): nat {
    match call
    case Waiting => 4
    case Swapping(_, _) => 3
    case Closing(_) => 2
    case Loading => 1
    case _ => 0
  }

  /** The step an unfinished call can take on its own once `done` is closed. */
  function NextStep(s: State, k: nat): Step
    requires k < |s.calls| && !Over(s.calls[k])
  {
    match s.calls[k]
    case Waiting => SelectDone(k)
    case Swapping(_, _) => Swap(k)
    case Closing(_) => CloseDone(k)
    case _ => Load(k)
  }

  /** After close(done) no call is stuck, and each of its steps brings it nearer to its end. */
  lemma CallsDrain(s: State, k: nat)
    requires Inv(s) && s.Done() && k < |s.calls| && !Over(s.calls[k])
    ensures Enabled(s, NextStep(s, k))
    ensures Fuel(Do(s, NextStep(s, k)).calls[k]) < Fuel(s.calls[k])
    ensures forall j :: 0 <= j < |s.calls| && j != k ==> Do(s, NextStep(s, k)).calls[j] == s.calls[j]
  {
  }

  /** Whoever closes first gets `done` closed: a set closeErr always has an enabled way to Done. */
  lemma CloseCompletes(s: State) returns (k: nat)
    requires Inv(s) && s.closeErr.Some? && !s.Done()
    ensures Enabled(s, CloseDone(k)) && Do(s, CloseDone(k)).Done()
  {
    k :| 0 <= k < |s.calls| && s.calls[k].Closing?;
  }

  // ---- The methods, run without interference ----

  /** One undisturbed CloseWithErr, step by step, as call number |s.calls|. */
  function DoClose(s: State, err: Option<Error>): State {
    var k := |s.calls|;
    DoSwap(Do(s, CallClose(err)), k)
  }

  /** The two separate steps of CloseWithErr proper: the swap, and close(done) if it was won. */
  function DoSwap(s: State, k: nat): State
    requires Enabled(s, Swap(k))
  {
    var swapped := Do(s, Swap(k));
    if swapped.calls[k].Closing? then Do(swapped, CloseDone(k)) else swapped
  }

  /** The arm of Accept's select that the runtime picked. */
  datatype Arm = DoneArm | InputArm(received: Option<Conn>)

  predicate Ready(s: State, arm: Arm) {
    match arm
    case DoneArm => s.Done()
    case InputArm(received) => received.None? == s.inputClosed
  }

  /** One undisturbed Accept, step by step, as call number |s.calls|. */
  function DoAccept(s: State, arm: Arm): State
    requires Ready(s, arm)
  {
    var k := |s.calls|;
    var called := Do(s, CallAccept);
    match arm
    case DoneArm => Do(Do(called, SelectDone(k)), Load(k))
    case InputArm(Some(c)) => Do(called, Receive(k, c))
    case InputArm(None) => Do(DoSwap(Do(called, SelectClosedInput(k)), k), Load(k))
  }

  class Listener {
    var closeErr: Option<Error>
    var done: bool
    var inputClosed: bool

    ghost predicate Valid()
      reads this
    {
      done == closeErr.Some?
    }

    ghost function View(): State
      reads this
    {
      State(closeErr, if done then 1 else 0, inputClosed, [])
    }

    constructor ()
      ensures Valid() && View() == INIT
    {
      closeErr, done, inputClosed := None, false, false;
    }

    method CompareAndSwap(err: Error) returns (swapped: bool)
      modifies this`closeErr
      ensures swapped == old(closeErr).None?
      ensures closeErr == if swapped then Some(err) else old(closeErr)
    {
      swapped := closeErr.None?;
      if swapped {
        closeErr := Some(err);
      }
    }

    /** Leaves the shared state that the protocol's own steps leave. */
    method CloseWithErr(err: Option<Error>)
      requires Valid()
      modifies this`closeErr, this`done
      ensures Valid() && done
      ensures closeErr == if old(closeErr).Some? then old(closeErr) else if err.Some? then err else Some(NetErrClosed)
      ensures View() == DoClose(old(View()), err).(calls := [])
    {
      var normalised := if err.None? then NetErrClosed else err.value;
      var swapped := CompareAndSwap(normalised);
      if swapped {
        assert !done;
        done := true;
      }
    }

    method Close()
      requires Valid()
      modifies this`closeErr, this`done
      ensures Valid() && done
      ensures closeErr == if old(closeErr).Some? then old(closeErr) else Some(NetErrClosed)
      ensures View() == DoClose(old(View()), None).(calls := [])
    {
      CloseWithErr(None);
    }

    /** Accept returns what the protocol's own steps leave in its call. */
    method Accept(arm: Arm) returns (r: Result<Conn, Error>)
      requires Valid() && Ready(View(), arm)
      modifies this`closeErr, this`done
      ensures Valid()
      ensures View() == DoAccept(old(View()), arm).(calls := [])
      ensures r == match arm
        case InputArm(Some(c)) => Success(c)
        case _ => Failure(if old(closeErr).Some? then old(closeErr).value else NetErrClosed)
      ensures DoAccept(old(View()), arm).calls ==
              [if r.Success? then Accepted(r.value) else Refused(Some(r.error))]
    {
      match arm
      case DoneArm =>
        r := Failure(closeErr.value);
      case InputArm(received) =>
        if received.None? {
          Close();
          r := Failure(closeErr.value);
        } else {
          r := Success(received.value);
        }
    }
  }
}
