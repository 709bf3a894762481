/** forward.go: the closer stack of Forwards, filled by Start and emptied by Stop and Cleanup. */
module Forwards {
  import opened Prelude

  type Error = nat

  /** The closers Start registers for listener `ln`, in the order it registers them. */
  datatype Closer = CloseListener(ln: nat) | Cancel(ln: nat)

  /**
   * Listeners are numbered as they are opened. As history, `registered` and `ran` list the
   * closers ever put on the stack and ever called.
   */
  datatype State = State(forwarders: nat, stop: seq<Closer>, listeners: nat, registered: seq<Closer>, ran: seq<Closer>)

  function Init(forwarders: nat): State {
    State(forwarders, [], 0, [], [])
  }

  function Open(s: State): State {
    var closers := [CloseListener(s.listeners), Cancel(s.listeners)];
    s.(stop := s.stop + closers, listeners := s.listeners + 1, registered := s.registered + closers)
  }

  function OpenMany(s: State, n: nat): State {
    if n == 0 then s else Open(OpenMany(s, n - 1))
  }

  /** The closers of n listeners, in order: each listener's close and then its cancel. */
  function Pushed(first: nat, n: nat): seq<Closer> {
    seq(2 * n, j requires 0 <= j < 2 * n => if j % 2 == 0 then CloseListener(first + j / 2) else Cancel(first + j / 2))
  }

  lemma {:induction false} OpenManyPushes(s: State, n: nat)
    ensures OpenMany(s, n).listeners == s.listeners + n && OpenMany(s, n).forwarders == s.forwarders
    ensures OpenMany(s, n).stop == s.stop + Pushed(s.listeners, n)
    ensures OpenMany(s, n).ran == s.ran
  {
    if n == 0 {
      assert s.stop + Pushed(s.listeners, 0) == s.stop;
    } else {
      OpenManyPushes(s, n - 1);
      PushedNext(s.stop, s.listeners, n - 1);
    }
  }

  lemma PushedNext(stop: seq<Closer>, first: nat, n: nat)
    ensures stop + Pushed(first, n + 1) == stop + Pushed(first, n) + [CloseListener(first + n), Cancel(first + n)]
  {
    var next := Pushed(first, n) + [CloseListener(first + n), Cancel(first + n)];
    forall j | 0 <= j < 2 * n + 2
      ensures Pushed(first, n + 1)[j] == next[j]
    {
    }
    assert Pushed(first, n + 1) == next;
  }

  /** How many forwarders Start gets through, given what Listen says for each. */
  function Listening(listen: nat -> Option<Error>, forwarders: nat): (n: nat)
    ensures n <= forwarders
    ensures forall i :: 0 <= i < n ==> listen(i).None?
    ensures n < forwarders ==> listen(n).Some?
  {
    if forwarders == 0 then 0
    else
      var before := Listening(listen, forwarders - 1);
      if before < forwarders - 1 || listen(forwarders - 1).Some? then before else forwarders
  }

  function StopAll(s: State): State {
    s.(stop := [], ran := s.ran + Reverse(s.stop))
  }

  datatype Op = Start(listen: nat -> Option<Error>) | Stop | Cleanup

  function Do(s: State, op: Op): State {
    match op
    case Start(listen) => OpenMany(s, Listening(listen, s.forwarders))
    case Stop => StopAll(s)
    case Cleanup => StopAll(s.(forwarders := 0))
  }

  function Run(s: State, ops: seq<Op>): State {
    if ops == [] then s else Do(Run(s, ops[..|ops| - 1]), ops[|ops| - 1])
  }

  class Forwards {
    var forwarders: nat
    var stop: seq<Closer>
    var listeners: nat
    var registered: seq<Closer>
    var ran: seq<Closer>

    function View(): State
      reads this
    {
      State(forwarders, stop, listeners, registered, ran)
    }

    constructor (provisioned: nat)
      ensures View() == Init(provisioned)
    {
      forwarders, stop, listeners, registered, ran := provisioned, [], 0, [], [];
    }

    /** A failing Listen ends Start at once; what was opened before it stays on the stack. */
    method Start(listen: nat -> Option<Error>) returns (err: Option<Error>, ghost started: nat)
      modifies this
      ensures View() == Do(old(View()), Op.Start(listen))
      ensures started <= forwarders == old(forwarders)
      ensures forall i :: 0 <= i < started ==> listen(i).None?
      ensures if started < forwarders then err == listen(started) && err.Some? else err.None?
      ensures listeners == old(listeners) + started
      ensures stop == old(stop) + Pushed(old(listeners), started)
    {
      started := Listening(listen, forwarders);
      OpenManyPushes(View(), started);
      var i := 0;
      while i < forwarders
        invariant 0 <= i <= forwarders == old(forwarders)
        invariant forall j :: 0 <= j < i ==> listen(j).None?
        invariant View() == OpenMany(old(View()), i)
      {
        err := listen(i);
        if err.Some? {
          assert started == i;
          return;
        }
        stop := stop + [CloseListener(listeners)];
        stop := stop + [Cancel(listeners)];
        registered := registered + [CloseListener(listeners), Cancel(listeners)];
        listeners := listeners + 1;
        i := i + 1;
      }
      err := None;
    }

    method Stop(result: Closer -> Option<Error>) returns (err: seq<Error>)
      modifies this
      ensures View() == Do(old(View()), Op.Stop)
      ensures err == JoinAll(Results(Reverse(old(stop)), result))
    {
      err := StopAll(result);
    }

    method Cleanup(result: Closer -> Option<Error>) returns (err: seq<Error>)
      modifies this
      ensures View() == Do(old(View()), Op.Cleanup)
      ensures err == JoinAll(Results(Reverse(old(stop)), result))
    {
      forwarders := 0;
      err := StopAll(result);
    }

    /** Runs the stack top first and joins the results in that order. */
    method StopAll(result: Closer -> Option<Error>) returns (err: seq<Error>)
      modifies this`stop, this`ran
      ensures stop == [] && ran == old(ran) + Reverse(old(stop))
      ensures err == JoinAll(Results(Reverse(old(stop)), result))
    {
      err := [];
      stop := Reverse(stop);
      ghost var order, n := stop, 0;
      while |stop| > 0
        invariant n <= |order| && stop == order[n..]
        invariant ran == old(ran) + order[..n]
        invariant err == JoinAll(Results(order[..n], result))
      {
        var fn := stop[0];
        stop := stop[1..];
        err := err + Leaf(result(fn));
        ran := ran + [fn];
        AppendNext(old(ran), order, n);
        JoinNext(order, n, result);
        n := n + 1;
      }
      TakeAll(order);
    }
  }

  // ---- Over every sequence of calls ----

  /** Every closer of the first n listeners, once. */
  ghost function ClosersOf(n: nat): multiset<Closer> {
    if n == 0 then multiset{} else ClosersOf(n - 1) + multiset{CloseListener(n - 1), Cancel(n - 1)}
  }

  /**
   * The stack is what was registered since the last stop; the closers run so far are paired up,
   * each listener's cancel right before its close; and stack plus history hold each closer once.
   */
  ghost predicate Inv(s: State) {
    && |s.ran| <= |s.registered|
    && s.stop == s.registered[|s.ran|..]
    && multiset(s.stop) + multiset(s.ran) == ClosersOf(s.listeners)
    && Stacked(s.stop)
    && TornDown(s.ran)
  }

  /** Entries 2p and 2p+1 are a listener's close and its cancel, as Start pushes them. */
  predicate PushedPair(closers: seq<Closer>, p: nat)
    requires 2 * p + 1 < |closers|
  {
    closers[2 * p].CloseListener? && closers[2 * p + 1] == Cancel(closers[2 * p].ln)
  }

  /** Entries 2p and 2p+1 are a listener's cancel and its close, as a stop calls them. */
  predicate CalledPair(closers: seq<Closer>, p: nat)
    requires 2 * p + 1 < |closers|
  {
    closers[2 * p + 1].CloseListener? && closers[2 * p] == Cancel(closers[2 * p + 1].ln)
  }

  ghost predicate Stacked(closers: seq<Closer>) {
    |closers| % 2 == 0 && forall p: nat :: 2 * p + 1 < |closers| ==> PushedPair(closers, p)
  }

  ghost predicate TornDown(closers: seq<Closer>) {
    |closers| % 2 == 0 && forall p: nat :: 2 * p + 1 < |closers| ==> CalledPair(closers, p)
  }

  lemma {:induction false} ReverseKeepsElements<T>(s: seq<T>)
    ensures multiset(Reverse(s)) == multiset(s)
  {
    if s == [] {
    } else {
      ReverseKeepsElements(s[1..]);
      assert s == [s[0]] + s[1..];
    }
  }

  lemma ReverseTearsDown(closers: seq<Closer>)
    requires Stacked(closers)
    ensures TornDown(Reverse(closers))
  {
    var torn := Reverse(closers);
    forall p: nat | 2 * p + 1 < |torn|
      ensures CalledPair(torn, p)
    {
      assert PushedPair(closers, |closers| / 2 - 1 - p);
    }
  }

  lemma TornDownAppend(a: seq<Closer>, b: seq<Closer>)
    requires TornDown(a) && TornDown(b)
    ensures TornDown(a + b)
  {
    forall p: nat | 2 * p + 1 < |a + b|
      ensures CalledPair(a + b, p)
    {
      if 2 * p < |a| {
        assert CalledPair(a, p);
      } else {
        assert CalledPair(b, p - |a| / 2);
      }
    }
  }

  lemma PushKeepsStacked(closers: seq<Closer>, ln: nat)
    requires Stacked(closers)
    ensures Stacked(closers + [CloseListener(ln), Cancel(ln)])
  {
    var pushed := closers + [CloseListener(ln), Cancel(ln)];
    forall p: nat | 2 * p + 1 < |pushed|
      ensures PushedPair(pushed, p)
    {
      if 2 * p < |closers| {
        assert PushedPair(closers, p);
      }
    }
  }

  lemma AddBoth(stop: seq<Closer>, ran: seq<Closer>, closers: seq<Closer>, all: multiset<Closer>)
    requires multiset(stop) + multiset(ran) == all
    ensures multiset(stop + closers) + multiset(ran) == all + multiset(closers)
  {
  }

  lemma OpenKeepsInv(s: State)
    requires Inv(s)
    ensures Inv(Open(s))
  {
    var closers := [CloseListener(s.listeners), Cancel(s.listeners)];
    assert (s.registered + closers)[|s.ran|..] == s.registered[|s.ran|..] + closers;
    AddBoth(s.stop, s.ran, closers, ClosersOf(s.listeners));
    assert multiset(closers) == multiset{CloseListener(s.listeners), Cancel(s.listeners)};
    PushKeepsStacked(s.stop, s.listeners);
  }

  lemma {:induction false} OpenManyKeepsInv(s: State, n: nat)
    requires Inv(s)
    ensures Inv(OpenMany(s, n))
  {
    if n == 0 {
    } else {
      OpenManyKeepsInv(s, n - 1);
      OpenKeepsInv(OpenMany(s, n - 1));
    }
  }

  lemma MoveOver(stop: seq<Closer>, ran: seq<Closer>, called: seq<Closer>)
    requires multiset(called) == multiset(stop)
    ensures multiset(stop) + multiset(ran) == multiset(ran + called)
  {
  }

  lemma StopKeepsInv(s: State)
    requires Inv(s)
    ensures Inv(StopAll(s))
  {
    ReverseKeepsElements(s.stop);
    ReverseTearsDown(s.stop);
    TornDownAppend(s.ran, Reverse(s.stop));
    MoveOver(s.stop, s.ran, Reverse(s.stop));
  }

  lemma {:induction false} RunKeepsInv(forwarders: nat, ops: seq<Op>)
    ensures Inv(Run(Init(forwarders), ops))
  {
    if ops == [] {
    } else {
      RunKeepsInv(forwarders, ops[..|ops| - 1]);
      var s := Run(Init(forwarders), ops[..|ops| - 1]);
      match ops[|ops| - 1]
      case Start(listen) => OpenManyKeepsInv(s, Listening(listen, s.forwarders));
      case Stop => StopKeepsInv(s);
      case Cleanup => StopKeepsInv(s.(forwarders := 0));
    }
  }

  lemma {:induction false} ClosersOfOnce(n: nat, c: Closer)
    ensures ClosersOf(n)[c] == if c.ln < n then 1 else 0
  {
    if n == 0 {
      NoClosers(c);
    } else {
      ClosersOfOnce(n - 1, c);
      ClosersNext(n, c);
    }
  }

  lemma NoClosers(c: Closer)
    ensures ClosersOf(0)[c] == 0
  {
  }

  lemma ClosersNext(n: nat, c: Closer)
    requires n > 0
    ensures ClosersOf(n)[c] == ClosersOf(n - 1)[c] + (if c.ln == n - 1 then 1 else 0)
  {
    PairOnce(ClosersOf(n - 1), n - 1, c);
  }

  lemma PairOnce(closers: multiset<Closer>, ln: nat, c: Closer)
    ensures (closers + multiset{CloseListener(ln), Cancel(ln)})[c] == closers[c] + (if c.ln == ln then 1 else 0)
  {
    match c
    case CloseListener(_) =>
    case Cancel(_) =>
  }

  ghost predicate CleanedUp(ops: seq<Op>) {
    exists i :: 0 <= i < |ops| && ops[i].Cleanup?
  }

  /** How many listeners a sequence of calls opens: every Start its forwarders up to the first that fails. */
  ghost function OpenedBy(forwarders: nat, ops: seq<Op>): nat {
    if ops == [] then 0
    else
      var last := |ops| - 1;
      OpenedBy(forwarders, ops[..last]) +
      match ops[last]
      case Start(listen) => Listening(listen, if CleanedUp(ops[..last]) then 0 else forwarders)
      case _ => 0
  }

  lemma CleanedUpLast(ops: seq<Op>)
    requires ops != []
    ensures CleanedUp(ops) <==> CleanedUp(ops[..|ops| - 1]) || ops[|ops| - 1].Cleanup?
  {
    var front := ops[..|ops| - 1];
    if CleanedUp(front) {
      var i :| 0 <= i < |front| && front[i].Cleanup?;
      assert ops[i].Cleanup?;
    }
    if CleanedUp(ops) {
      var i :| 0 <= i < |ops| && ops[i].Cleanup?;
      assert i < |front| ==> front[i].Cleanup?;
    }
  }

  /**
   * The forwarders are there for every Start until a Cleanup drops them; a Stop keeps them. So many
   * listeners have been opened as the Starts got through.
   */
  lemma {:induction false} OpenedInAll(forwarders: nat, ops: seq<Op>)
    ensures Run(Init(forwarders), ops).forwarders == if CleanedUp(ops) then 0 else forwarders
    ensures Run(Init(forwarders), ops).listeners == OpenedBy(forwarders, ops)
  {
    if ops == [] {
    } else {
      var last := |ops| - 1;
      OpenedInAll(forwarders, ops[..last]);
      CleanedUpLast(ops);
      match ops[last]
      case Start(listen) =>
        var s := Run(Init(forwarders), ops[..last]);
        OpenManyPushes(s, Listening(listen, s.forwarders));
      case _ =>
    }
  }

  /**
   * Over every sequence of Start (failing midway or not), Stop and Cleanup: each closer of each
   * opened listener is called at most once, and is on the stack exactly if it was not called; each
   * listener's context is cancelled just before the listener is closed; after a Stop or a Cleanup
   * nothing is left open.
   */
  lemma ClosedExactlyOnce(forwarders: nat, ops: seq<Op>)
    ensures var t := Run(Init(forwarders), ops);
      && (forall c: Closer ::
            multiset(t.ran)[c] + multiset(t.stop)[c] == if c.ln < t.listeners then 1 else 0)
      && (forall i :: 0 <= i < |t.ran| && t.ran[i].CloseListener? ==> i > 0 && t.ran[i - 1] == Cancel(t.ran[i].ln))
      && (ops != [] && !ops[|ops| - 1].Start? ==>
            t.stop == [] && forall c: Closer :: multiset(t.ran)[c] == if c.ln < t.listeners then 1 else 0)
  {
    RunKeepsInv(forwarders, ops);
    var t := Run(Init(forwarders), ops);
    forall c: Closer
      ensures multiset(t.ran)[c] + multiset(t.stop)[c] == if c.ln < t.listeners then 1 else 0
    {
      ClosersOfOnce(t.listeners, c);
      assert (multiset(t.stop) + multiset(t.ran))[c] == ClosersOf(t.listeners)[c];
    }
    CancelsFirst(t.ran);
  }

  lemma CancelsFirst(closers: seq<Closer>)
    requires TornDown(closers)
    ensures forall i :: 0 <= i < |closers| && closers[i].CloseListener? ==> i > 0 && closers[i - 1] == Cancel(closers[i].ln)
  {
    forall i | 0 <= i < |closers| && closers[i].CloseListener?
      ensures i > 0 && closers[i - 1] == Cancel(closers[i].ln)
    {
      assert CalledPair(closers, i / 2);
    }
  }

  /** A stop runs exactly what was registered since the last one, in exact reverse order. */
  lemma StopsInReverse(forwarders: nat, ops: seq<Op>, stopping: Op)
    requires !stopping.Start?
    ensures var before, after := Run(Init(forwarders), ops), Run(Init(forwarders), ops + [stopping]);
      && |before.ran| <= |before.registered|
      && after.ran == before.ran + Reverse(before.registered[|before.ran|..])
      && |after.ran| == |after.registered|
  {
    RunKeepsInv(forwarders, ops);
    assert (ops + [stopping])[..|ops|] == ops;
  }
}
