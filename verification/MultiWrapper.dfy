/**
 * merge-listener-wrapper.go: the module object around the fan-in protocol. `fan` stands for the
 * goroutines and channels it starts; the two loops are the steps the protocol calls
 * WrapListener and CloseSource.
 */
module MultiWrapper {
  import opened Prelude
  import CL = ChannelListener
  import FanIn

  /** The protocol's steps that close listeners from, from + 1, ..., n - 1. */
  function CloseSteps(from: nat, n: nat): (steps: seq<FanIn.Step>)
    requires from <= n
    ensures |steps| == n - from
  {
    seq(n - from, i requires 0 <= i < n - from => FanIn.CloseSource(from + i))
  }

  lemma CloseStep(fan: FanIn.State, j: nat)
    requires j < |fan.open|
    ensures FanIn.Enabled(fan, FanIn.CloseSource(j))
    ensures FanIn.Do(fan, FanIn.CloseSource(j)) == fan.(open := fan.open[j := false])
  {
  }

  /** Closing every listener is a run of the protocol. */
  lemma {:induction false} ClosingIsARun(fan: FanIn.State, from: nat)
    requires from <= |fan.open|
    requires forall j :: 0 <= j < from ==> !fan.open[j]
    ensures FanIn.IsRun(fan, CloseSteps(from, |fan.open|))
    ensures FanIn.Exec(fan, CloseSteps(from, |fan.open|)) == fan.(open := seq(|fan.open|, _ => false))
    decreases |fan.open| - from
  {
    var n := |fan.open|;
    if from == n {
      assert fan.open == seq(n, _ => false);
    } else {
      CloseStep(fan, from);
      var next := fan.(open := fan.open[from := false]);
      ClosingIsARun(next, from + 1);
      assert CloseSteps(from, n)[1..] == CloseSteps(from + 1, n);
    }
  }

  class MultiWrapper {
    var listeners: seq<nat>
    var fan: FanIn.State

    /** Before Cleanup the wrapper knows every underlying listener, in the order it got them. */
    ghost predicate Valid()
      reads this
    {
      listeners == seq(|fan.open|, j => j)
    }

    /** Provision: the configured listeners are loaded and the channel is made. */
    constructor (provisioned: nat)
      ensures Valid() && fan == FanIn.Init(provisioned)
    {
      listeners, fan := seq(provisioned, j => j), FanIn.Init(provisioned);
    }

    /** One atomic WrapListener step of the protocol: every listener so far gets one new worker. */
    method WrapListener()
      requires Valid()
      modifies this
      ensures Valid()
      ensures fan == FanIn.Do(old(fan), FanIn.WrapListener)
    {
      var wrapped, merged := |fan.open|, |fan.merged|;
      listeners := listeners + [wrapped];
      fan := fan.(open := fan.open + [true], merged := fan.merged + [CL.INIT]);
      var i := 0;
      while i < |listeners|
        invariant 0 <= i <= |listeners| == wrapped + 1
        invariant listeners == seq(wrapped + 1, j => j)
        invariant fan.open == old(fan.open) + [true] && fan.merged == old(fan.merged) + [CL.INIT]
        invariant fan.sent == old(fan.sent)
        invariant fan.workers == old(fan.workers) + FanIn.NewWorkers(i, merged)
      {
        fan := fan.(workers := fan.workers + [FanIn.Worker(listeners[i], merged, FanIn.Accepting, [], [])]);
        i := i + 1;
      }
    }

    /**
     * Closes every listener once, in order, and joins their errors in that order; what is left
     * is the protocol with nothing more to accept.
     */
    method Cleanup(closeResult: nat -> Option<CL.Error>) returns (closed: seq<nat>, err: seq<CL.Error>)
      requires Valid()
      modifies this
      ensures closed == old(listeners) && listeners == []
      ensures err == JoinAll(Results(closed, closeResult))
      ensures fan == old(fan).(open := seq(|old(fan).open|, _ => false))
      ensures FanIn.SourcesClosed(fan)
      ensures FanIn.IsRun(old(fan), CloseSteps(0, |closed|))
      ensures fan == FanIn.Exec(old(fan), CloseSteps(0, |closed|))
    {
      closed, err := [], [];
      while |listeners| > 0
        invariant |closed| + |listeners| == |old(listeners)|
        invariant closed == old(listeners)[..|closed|] && listeners == old(listeners)[|closed|..]
        invariant err == JoinAll(Results(closed, closeResult))
        invariant |fan.open| == |old(fan).open| && fan == old(fan).(open := fan.open)
        invariant forall j :: 0 <= j < |closed| ==> !fan.open[j]
      {
        var first := listeners[0];
        assert first == |closed|;
        fan := fan.(open := fan.open[first := false]);
        err := err + Leaf(closeResult(first));
        ResultsAppend(closed, first, closeResult);
        closed, listeners := closed + [first], listeners[1..];
      }
      assert fan.open == seq(|old(fan).open|, _ => false);
      ClosingIsARun(old(fan), 0);
    }
  }
}
