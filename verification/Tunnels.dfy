/**
 * forward.go, forwardListener and tcpCopy: one accept loop, and for every accepted connection a
 * dial, two copies and a context whose cancellation closes both ends.
 */
module Tunnels {

  /** tcpCopy: its deferred function cancels the pair first and then reports to the wait group. */
  datatype Copy = Running | Cancelled | Over

  datatype Pc =
    | Dialing
    | Copying(there: Copy, back: Copy)
    | Exited  // its deferred cancel has run

  /**
   * An accepted connection: whether its context is cancelled, how often c and rc were closed,
   * and whether rc exists.
   */
  datatype Pair = Pair(cancelled: bool, connCloses: nat, dialed: bool, remoteCloses: nat, pc: Pc)

  /** `cancelled` is the context of the accept loop, the parent of every pair's context. */
  datatype State = State(accepting: bool, cancelled: bool, pairs: seq<Pair>)

  const INIT := State(true, false, [])

  datatype Step =
    | Accept
    | AcceptFails               // the loop returns and its deferred cancel runs
    | CancelLoop                // by Stop, by Cleanup or by the module's own context
    | Propagate(pair: nat)      // a cancelled parent cancels a child
    | Dial(pair: nat, ok: bool)
    | CopyEnds(pair: nat, back: bool)
    | CopyDone(pair: nat, back: bool)
    | Exit(pair: nat)
    | CloseConn(pair: nat)      // context.AfterFunc(ctx, c.Close)
    | CloseRemote(pair: nat)    // context.AfterFunc(ctx, rc.Close)

  function CopyOf(pc: Pc, back: bool): Copy
    requires pc.Copying?
  {
    if back then pc.back else pc.there
  }

  function WithCopy(pc: Pc, back: bool, copy: Copy): Pc
    requires pc.Copying?
  {
    if back then pc.(back := copy) else pc.(there := copy)
  }

  predicate Enabled(s: State, step: Step) {
    match step
    case Accept => s.accepting
    case AcceptFails => s.accepting
    case CancelLoop => !s.cancelled
    case Propagate(k) => k < |s.pairs| && s.cancelled && !s.pairs[k].cancelled
    case Dial(k, _) => k < |s.pairs| && s.pairs[k].pc.Dialing?
    case CopyEnds(k, back) => k < |s.pairs| && s.pairs[k].pc.Copying? && CopyOf(s.pairs[k].pc, back).Running?
    case CopyDone(k, back) => k < |s.pairs| && s.pairs[k].pc.Copying? && CopyOf(s.pairs[k].pc, back).Cancelled?
    case Exit(k) => k < |s.pairs| && s.pairs[k].pc == Copying(Over, Over)
    case CloseConn(k) => k < |s.pairs| && s.pairs[k].cancelled && s.pairs[k].connCloses == 0
    case CloseRemote(k) =>
      k < |s.pairs| && s.pairs[k].cancelled && s.pairs[k].dialed && s.pairs[k].remoteCloses == 0
  }

  function DoPair(p: Pair, step: Step): Pair
    requires step.CopyEnds? || step.CopyDone? ==> p.pc.Copying?
  {
    match step
    case Propagate(_) => p.(cancelled := true)
    case Dial(_, ok) => if ok then p.(dialed := true, pc := Copying(Running, Running)) else p.(cancelled := true, pc := Exited)
    case CopyEnds(_, back) => p.(cancelled := true, pc := WithCopy(p.pc, back, Cancelled))
    case CopyDone(_, back) => p.(pc := WithCopy(p.pc, back, Over))
    case Exit(_) => p.(cancelled := true, pc := Exited)
    case CloseConn(_) => p.(connCloses := p.connCloses + 1)
    case CloseRemote(_) => p.(remoteCloses := p.remoteCloses + 1)
    case _ => p
  }

  function Do(s: State, step: Step): State
    requires Enabled(s, step)
  {
    match step
    case Accept => s.(pairs := s.pairs + [Pair(false, 0, false, 0, Dialing)])
    case AcceptFails => s.(accepting := false, cancelled := true)
    case CancelLoop => s.(cancelled := true)
    case _ => s.(pairs := s.pairs[step.pair := DoPair(s.pairs[step.pair], step)])
  }

  ghost predicate IsRun(s: State, steps: seq<Step>)
    decreases |steps|
  {
    steps == [] || (Enabled(s, steps[0]) && IsRun(Do(s, steps[0]), steps[1..]))
  }

  ghost function Exec(s: State, steps: seq<Step>): State
    requires IsRun(s, steps)
    decreases |steps|
  {
    if steps == [] then s else Exec(Do(s, steps[0]), steps[1..])
  }

  /** A run is a shorter run and one more step. */
  lemma {:induction false} RunLast(s: State, steps: seq<Step>)
    requires steps != [] && IsRun(s, steps)
    ensures IsRun(s, steps[..|steps| - 1])
    ensures Enabled(Exec(s, steps[..|steps| - 1]), steps[|steps| - 1])
    ensures Exec(s, steps) == Do(Exec(s, steps[..|steps| - 1]), steps[|steps| - 1])
    decreases |steps|
  {
    var last := |steps| - 1;
    if last == 0 {
      assert steps[..0] == [] && steps[1..] == [];
    } else {
      RunLast(Do(s, steps[0]), steps[1..]);
      assert steps[..last][1..] == steps[1..][..last - 1];
      assert steps[..last][0] == steps[0];
    }
  }

  /** The pair has a reason of its own to end: a failed dial or an ended copy. */
  predicate Broken(p: Pair) {
    p.pc.Exited? || (p.pc.Copying? && !(p.pc.there.Running? && p.pc.back.Running?))
  }

  /**
   * Ends are closed at most once and only under a cancelled context; a context is cancelled
   * whenever its pair is broken, and only if the pair is broken or the loop is cancelled.
   */
  predicate PairInv(loopCancelled: bool, p: Pair) {
    && p.connCloses <= 1 && p.remoteCloses <= 1
    && (p.connCloses == 1 || p.remoteCloses == 1 ==> p.cancelled)
    && (p.remoteCloses == 1 ==> p.dialed)
    && (p.pc.Dialing? ==> !p.dialed)
    && (p.pc.Copying? ==> p.dialed)
    && (Broken(p) ==> p.cancelled)
    && (p.cancelled ==> loopCancelled || Broken(p))
  }

  ghost predicate Inv(s: State) {
    && (!s.accepting ==> s.cancelled)
    && forall k :: 0 <= k < |s.pairs| ==> PairInv(s.cancelled, s.pairs[k])
  }

  lemma StepKeepsInv(s: State, step: Step)
    requires Inv(s) && Enabled(s, step)
    ensures Inv(Do(s, step))
  {
  }

  lemma {:induction false} RunKeepsInv(s: State, steps: seq<Step>)
    requires Inv(s) && IsRun(s, steps)
    ensures Inv(Exec(s, steps))
    decreases |steps|
  {
    if steps == [] {
    } else {
      StepKeepsInv(s, steps[0]);
      RunKeepsInv(Do(s, steps[0]), steps[1..]);
    }
  }

  /**
   * The steps that come without any help from the peers: cancellation spreads, AfterFuncs run, a
   * dial under a cancelled context returns, a copy with a closed end stops, goroutines finish.
   */
  predicate Forced(s: State, step: Step)
    requires Enabled(s, step)
  {
    match step
    case Accept => false
    case AcceptFails => false
    case CancelLoop => false
    case Dial(k, _) => s.pairs[k].cancelled
    case CopyEnds(k, _) => s.pairs[k].connCloses > 0 || s.pairs[k].remoteCloses > 0
    case _ => true
  }

  ghost predicate Settled(s: State) {
    forall step :: Enabled(s, step) ==> !Forced(s, step)
  }

  /** Whatever cancelled a pair, once nothing is forced any more both of its ends are closed, once. */
  lemma CancelledPairCloses(s: State, k: nat)
    requires Inv(s) && Settled(s) && k < |s.pairs| && s.pairs[k].cancelled
    ensures s.pairs[k].pc.Exited? && s.pairs[k].connCloses == 1
    ensures s.pairs[k].remoteCloses == if s.pairs[k].dialed then 1 else 0
  {
    var p := s.pairs[k];
    assert PairInv(s.cancelled, p);
    assert !Enabled(s, CloseConn(k)) && !Enabled(s, CloseRemote(k)) by {
      assert Enabled(s, CloseConn(k)) ==> Forced(s, CloseConn(k));
      assert Enabled(s, CloseRemote(k)) ==> Forced(s, CloseRemote(k));
    }
    if p.pc.Dialing? {
      assert Forced(s, Dial(k, false));
    } else if p.pc.Copying? {
      var back := p.pc.there.Over?;
      if CopyOf(p.pc, back).Running? {
        assert Forced(s, CopyEnds(k, back));
      } else if CopyOf(p.pc, back).Cancelled? {
        assert Forced(s, CopyDone(k, back));
      } else {
        assert Forced(s, Exit(k));
      }
    }
  }

  /** Nothing tears down a healthy tunnel: closed ends mean a broken pair or a cancelled loop. */
  lemma HealthyStaysOpen(steps: seq<Step>, k: nat)
    requires IsRun(INIT, steps) && k < |Exec(INIT, steps).pairs|
    ensures var t := Exec(INIT, steps);
      !t.cancelled && !Broken(t.pairs[k]) ==> t.pairs[k].connCloses == 0 && t.pairs[k].remoteCloses == 0
  {
    RunKeepsInv(INIT, steps);
    assert PairInv(Exec(INIT, steps).cancelled, Exec(INIT, steps).pairs[k]);
  }

  // ---- Settling takes boundedly many steps ----

  function CopyFuel(copy: Copy): nat {
    match copy case Running => 2 case Cancelled => 1 case Over => 0
  }

  function PairFuel(p: Pair): nat {
    (if p.cancelled then 0 else 1) + (if p.connCloses == 0 then 1 else 0) + (if p.remoteCloses == 0 then 1 else 0)
    + match p.pc
      case Dialing => 6
      case Copying(there, back) => 1 + CopyFuel(there) + CopyFuel(back)
      case Exited => 0
  }

  function Fuel(pairs: seq<Pair>): nat {
    if pairs == [] then 0 else Fuel(pairs[..|pairs| - 1]) + PairFuel(pairs[|pairs| - 1])
  }

  lemma {:induction false} FuelUpdate(pairs: seq<Pair>, k: nat, p: Pair)
    requires k < |pairs| && PairFuel(p) < PairFuel(pairs[k])
    ensures Fuel(pairs[k := p]) < Fuel(pairs)
  {
    var last := |pairs| - 1;
    if k == last {
      assert pairs[k := p][..last] == pairs[..last];
    } else {
      assert pairs[k := p][..last] == pairs[..last][k := p];
      FuelUpdate(pairs[..last], k, p);
    }
  }

  lemma StepBurnsFuel(s: State, step: Step)
    requires Inv(s) && !s.accepting && Enabled(s, step)
    ensures !Do(s, step).accepting && Fuel(Do(s, step).pairs) < Fuel(s.pairs)
  {
    var k := step.pair;
    assert PairInv(s.cancelled, s.pairs[k]);
    FuelUpdate(s.pairs, k, DoPair(s.pairs[k], step));
  }

  /** After the loop has stopped at most Fuel(s.pairs) steps remain, whichever they are. */
  lemma {:induction false} SettlesInTime(s: State, steps: seq<Step>)
    requires Inv(s) && !s.accepting && IsRun(s, steps)
    ensures !Exec(s, steps).accepting
    ensures |steps| + Fuel(Exec(s, steps).pairs) <= Fuel(s.pairs)
    decreases |steps|
  {
    if steps == [] {
    } else {
      StepKeepsInv(s, steps[0]);
      StepBurnsFuel(s, steps[0]);
      SettlesInTime(Do(s, steps[0]), steps[1..]);
    }
  }
}
