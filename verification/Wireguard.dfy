/** pkg/wg/options.go and pkg/wg/connection.go: who owns the closers, and when they run. */
module Wireguard {
  import opened Prelude

  type Error = nat

  /** The closers New and its options register. */
  datatype Closer =
    | UserCloser(id: nat)  // OptionCloser
    | NetstackClose        // OptionNetDevice
    | BindClose            // the default bind
    | DeviceClose
    | DeviceDown

  /** The options; a nil argument makes the constructor return OptionNop or OptionErr instead. */
  datatype Opt =
    | OptionNop
    | OptionErr(err: Error)
    | OptionDevice
    | OptionBind
    | OptionLogger
    | OptionConfig
    | OptionNetDevice(netstack: Option<Error>)  // what NewDefaultNetstack returns
    | OptionCloser(id: nat)

  /** The options struct: which of tun, bind and cfg are set, and the closers so far. */
  datatype Options = Options(tun: bool, bind: bool, cfg: bool, closer: seq<Closer>)

  /** What the device answers, and what each closer returns. */
  datatype Env = Env(setConfig: Option<Error>, up: Option<Error>, result: Closer -> Option<Error>)

  /** errors.New("no device specified") */
  const NO_DEVICE: Error := 0

  function Fails(opt: Opt): Option<Error> {
    match opt
    case OptionErr(e) => Some(e)
    case OptionNetDevice(e) => e
    case _ => None
  }

  function ApplyOne(o: Options, opt: Opt): Options
    requires Fails(opt).None?
  {
    match opt
    case OptionDevice => o.(tun := true)
    case OptionBind => o.(bind := true)
    case OptionConfig => o.(cfg := true)
    case OptionNetDevice(_) => o.(tun := true, closer := o.closer + [NetstackClose])
    case OptionCloser(id) => o.(closer := o.closer + [UserCloser(id)])
    case _ => o
  }

  const NO_OPTIONS := Options(false, false, false, [])

  /** The options applied before the first failing one, and its error. */
  function Applied(opts: seq<Opt>): (r: (Options, Option<Error>)) {
    if opts == [] then (NO_OPTIONS, None)
    else
      var (o, err) := Applied(opts[..|opts| - 1]);
      var last := opts[|opts| - 1];
      if err.Some? || Fails(last).Some? then (o, if err.Some? then err else Fails(last))
      else (ApplyOne(o, last), None)
  }

  // ---- What the options say, read off the list ----

  /** The option fails when it is applied. */
  predicate Bad(opt: Opt) {
    opt.OptionErr? || (opt.OptionNetDevice? && opt.netstack.Some?)
  }

  ghost predicate NoneBad(opts: seq<Opt>) {
    forall i :: 0 <= i < |opts| ==> !Bad(opts[i])
  }

  ghost predicate GivesDevice(opts: seq<Opt>) {
    exists i :: 0 <= i < |opts| && (opts[i].OptionDevice? || opts[i].OptionNetDevice?)
  }

  /** The closers that options register, in option order. */
  function FromOptions(opts: seq<Opt>): seq<Closer> {
    if opts == [] then []
    else
      var last := |opts| - 1;
      FromOptions(opts[..last]) +
      match opts[last]
      case OptionCloser(id) => [UserCloser(id)]
      case OptionNetDevice(_) => [NetstackClose]
      case _ => []
  }

  lemma GivesDeviceLast(opts: seq<Opt>)
    requires opts != []
    ensures GivesDevice(opts) <==>
      GivesDevice(opts[..|opts| - 1]) || opts[|opts| - 1].OptionDevice? || opts[|opts| - 1].OptionNetDevice?
  {
    var front := opts[..|opts| - 1];
    if GivesDevice(front) {
      var i :| 0 <= i < |front| && (front[i].OptionDevice? || front[i].OptionNetDevice?);
      assert opts[i] == front[i];
    }
    if GivesDevice(opts) {
      var i :| 0 <= i < |opts| && (opts[i].OptionDevice? || opts[i].OptionNetDevice?);
      assert i < |front| ==> front[i] == opts[i];
    }
  }

  /** Without a failing option, what the struct holds is what the list says. */
  lemma {:induction false} AppliedIs(opts: seq<Opt>)
    requires NoneBad(opts)
    ensures Applied(opts) ==
      (Options(GivesDevice(opts), OptionBind in opts, OptionConfig in opts, FromOptions(opts)), None)
  {
    if opts == [] {
    } else {
      var last := |opts| - 1;
      AppliedIs(opts[..last]);
      GivesDeviceLast(opts);
      assert opts == opts[..last] + [opts[last]];
      assert FromOptions(opts[..last]) + [] == FromOptions(opts[..last]);
    }
  }

  /** The first failing option decides, whatever comes before or after it. */
  lemma FirstBadDecides(opts: seq<Opt>, n: nat)
    requires n < |opts| && NoneBad(opts[..n]) && Bad(opts[n])
    ensures Applied(opts).1 == Fails(opts[n])
  {
    AppliedIs(opts[..n]);
    assert opts[..n + 1][..n] == opts[..n];
    FirstFailureStays(opts, n + 1);
  }

  lemma {:induction false} FirstBad(opts: seq<Opt>) returns (n: nat)
    requires !NoneBad(opts)
    ensures n < |opts| && NoneBad(opts[..n]) && Bad(opts[n])
  {
    var i :| 0 <= i < |opts| && Bad(opts[i]);
    if NoneBad(opts[..i]) {
      n := i;
    } else {
      n := FirstBad(opts[..i]);
      assert opts[..i][..n] == opts[..n];
    }
  }

  lemma {:induction false} FromOptionsAppend(a: seq<Opt>, b: seq<Opt>)
    ensures FromOptions(a + b) == FromOptions(a) + FromOptions(b)
  {
    if b == [] {
      assert a + b == a;
    } else {
      var last := |b| - 1;
      assert (a + b)[..|a + b| - 1] == a + b[..last];
      FromOptionsAppend(a, b[..last]);
    }
  }

  /** Each closer given to an option and each netstack opened by one is registered once; nothing else is. */
  lemma {:induction false} FromOptionsHolds(opts: seq<Opt>, id: nat)
    requires NoneBad(opts)
    ensures multiset(FromOptions(opts))[UserCloser(id)] == multiset(opts)[OptionCloser(id)]
    ensures multiset(FromOptions(opts))[NetstackClose] == multiset(opts)[OptionNetDevice(None)]
    ensures BindClose !in FromOptions(opts) && DeviceClose !in FromOptions(opts) && DeviceDown !in FromOptions(opts)
  {
    if opts == [] {
    } else {
      var last := |opts| - 1;
      FromOptionsHolds(opts[..last], id);
      OneMore(FromOptions(opts[..last]), FromOptions(opts), opts[..last], opts, id);
    }
  }

  lemma OneMore(before: seq<Closer>, after: seq<Closer>, front: seq<Opt>, opts: seq<Opt>, id: nat)
    requires opts != [] && opts == front + [opts[|opts| - 1]] && !Bad(opts[|opts| - 1])
    requires before == FromOptions(front) && after == FromOptions(opts) && front == opts[..|opts| - 1]
    ensures multiset(after)[UserCloser(id)] - multiset(before)[UserCloser(id)] ==
            multiset(opts)[OptionCloser(id)] - multiset(front)[OptionCloser(id)]
    ensures multiset(after)[NetstackClose] - multiset(before)[NetstackClose] ==
            multiset(opts)[OptionNetDevice(None)] - multiset(front)[OptionNetDevice(None)]
    ensures BindClose in after ==> BindClose in before
    ensures DeviceClose in after ==> DeviceClose in before
    ensures DeviceDown in after ==> DeviceDown in before
  {
    if !Registers(opts[|opts| - 1]) {
      assert after == before;
    }
  }

  predicate Registers(opt: Opt) {
    opt.OptionNetDevice? || opt.OptionCloser?
  }

  lemma {:induction false} NothingRegistered(opts: seq<Opt>)
    ensures FromOptions(opts) == [] <==> forall i :: 0 <= i < |opts| ==> !Registers(opts[i])
  {
    if opts == [] {
    } else {
      var last := |opts| - 1;
      NothingRegistered(opts[..last]);
      if forall i :: 0 <= i < last ==> !Registers(opts[..last][i]) {
        assert forall i :: 0 <= i < last ==> opts[..last][i] == opts[i];
      }
    }
  }

  /** The calls made on closers so far, shared by everything one New call creates. */
  class Journal {
    var ran: seq<Closer>

    constructor ()
      ensures ran == []
    {
      ran := [];
    }

    method Call(c: Closer)
      modifies this
      ensures ran == old(ran) + [c]
    {
      ran := ran + [c];
    }
  }

  class Wireguard {
    var close: Option<seq<Error>>
    var closers: seq<Closer>
    const journal: Journal
    const result: Closer -> Option<Error>

    constructor (closers: seq<Closer>, journal: Journal, result: Closer -> Option<Error>)
      ensures close == None && this.closers == closers && this.journal == journal && this.result == result
    {
      this.close, this.closers, this.journal, this.result := None, closers, journal, result;
    }

    /**
     * The first call runs every closer once, last registered first, and joins the results in
     * that order; every later call runs nothing and returns the same joined error.
     */
    method Close() returns (err: seq<Error>)
      modifies this, journal
      ensures close == Some(err) && (old(close).None? ==> closers == [])
      ensures old(close).None? ==> journal.ran == old(journal.ran) + Reverse(old(closers))
      ensures old(close).None? ==> err == JoinAll(Results(Reverse(old(closers)), result))
      ensures old(close).Some? ==>
        journal.ran == old(journal.ran) && closers == old(closers) && err == old(close).value
    {
      if close.None? {
        err := [];
        close := Some(err);
        var i := |closers|;
        ghost var order, n := Reverse(closers), 0;
        while i > 0
          invariant 0 <= i && n + i == |order| == |closers| && closers == old(closers)
          invariant journal.ran == old(journal.ran) + order[..n]
          invariant err == JoinAll(Results(order[..n], result))
        {
          AppendNext(old(journal.ran), order, n);
          JoinNext(order, n, result);
          i := i - 1;
          assert order[n] == closers[i];
          journal.Call(closers[i]);
          err := err + Leaf(result(closers[i]));
          n := n + 1;
        }
        TakeAll(order);
        close := Some(err);
        closers := [];
      }
      err := close.value;
    }
  }

  /** cleanUp: on failure every registered closer runs, first registered first. */
  method CleanUp(o: Options, failed: bool, err: seq<Error>, journal: Journal, result: Closer -> Option<Error>)
    returns (joined: seq<Error>)
    modifies journal
    ensures journal.ran == old(journal.ran) + (if failed then o.closer else [])
    ensures joined == err + (if failed then JoinAll(Results(o.closer, result)) else [])
  {
    joined := err;
    if failed {
      var i := 0;
      while i < |o.closer|
        invariant 0 <= i <= |o.closer|
        invariant journal.ran == old(journal.ran) + o.closer[..i]
        invariant joined == err + JoinAll(Results(o.closer[..i], result))
      {
        journal.Call(o.closer[i]);
        joined := joined + Leaf(result(o.closer[i]));
        ResultsAppend(o.closer[..i], o.closer[i], result);
        assert o.closer[..i] + [o.closer[i]] == o.closer[..i + 1];
        i := i + 1;
      }
      assert o.closer[..i] == o.closer;
    }
  }

  /** options.apply stops at the first failing option. */
  method Apply(opts: seq<Opt>) returns (o: Options, err: Option<Error>)
    ensures (o, err) == Applied(opts)
  {
    o := NO_OPTIONS;
    var i := 0;
    while i < |opts|
      invariant 0 <= i <= |opts|
      invariant Applied(opts[..i]) == (o, None)
    {
      assert opts[..i + 1][..i] == opts[..i];
      err := Fails(opts[i]);
      if err.Some? {
        FirstFailureStays(opts, i + 1);
        return;
      }
      o := ApplyOne(o, opts[i]);
      i := i + 1;
    }
    assert opts[..i] == opts;
    err := None;
  }

  lemma {:induction false} FirstFailureStays(opts: seq<Opt>, n: nat)
    requires n <= |opts| && Applied(opts[..n]).1.Some?
    ensures Applied(opts) == Applied(opts[..n])
    decreases |opts|
  {
    if n < |opts| {
      var shorter := opts[..|opts| - 1];
      assert shorter[..n] == opts[..n];
      FirstFailureStays(shorter, n);
    } else {
      assert opts[..n] == opts;
    }
  }

  datatype Outcome = Created(wg: Wireguard) | Failed(err: seq<Error>)

  /**
   * New. It creates an object exactly if no option fails, some option gives a device, and the
   * configuration, if one is given, and Up succeed. The object then owns what the options
   * registered, the default bind's close unless a bind was given, the device's close and its Down,
   * and nothing has run. If it fails after its options have applied, everything registered by then
   * has run, first registered first; if an option fails, nothing has.
   */
  method New(opts: seq<Opt>, env: Env, journal: Journal) returns (r: Outcome)
    modifies journal
    ensures r.Created? <==>
      && NoneBad(opts) && GivesDevice(opts)
      && (OptionConfig in opts ==> env.setConfig.None?) && env.up.None?
    ensures r.Created? ==>
      && fresh(r.wg) && r.wg.close.None? && r.wg.journal == journal && r.wg.result == env.result
      && r.wg.closers == FromOptions(opts) + (if OptionBind in opts then [] else [BindClose]) + [DeviceClose, DeviceDown]
      && journal.ran == old(journal.ran)
    ensures !NoneBad(opts) ==>
      && journal.ran == old(journal.ran)
      && forall n, e :: 0 <= n < |opts| && NoneBad(opts[..n]) && opts[n] in [OptionErr(e), OptionNetDevice(Some(e))] ==>
           r == Failed([e])
    ensures NoneBad(opts) && !GivesDevice(opts) ==>
      && journal.ran == old(journal.ran) + FromOptions(opts)
      && r == Failed([NO_DEVICE] + JoinAll(Results(FromOptions(opts), env.result)))
    ensures NoneBad(opts) && GivesDevice(opts) && r.Failed? ==>
      var ran := FromOptions(opts) + (if OptionBind in opts then [] else [BindClose]) + [DeviceClose];
      && journal.ran == old(journal.ran) + ran
      && r == Failed([if OptionConfig in opts && env.setConfig.Some? then env.setConfig.value else env.up.value]
           + JoinAll(Results(ran, env.result)))
  {
    var o, failure := Apply(opts);
    if failure.Some? {
      BadShows(opts);
      return Failed([failure.value]);
    }
    GoodShows(opts);
    if !o.tun {
      var joined := CleanUp(o, true, [NO_DEVICE], journal, env.result);
      return Failed(joined);
    }
    if !o.bind {
      o := o.(bind := true, closer := o.closer + [BindClose]);
    }
    o := o.(closer := o.closer + [DeviceClose]);
    ghost var registered := FromOptions(opts) + (if OptionBind in opts then [] else [BindClose]);
    assert o.closer == registered + [DeviceClose];
    if o.cfg && env.setConfig.Some? {
      var joined := CleanUp(o, true, [env.setConfig.value], journal, env.result);
      return Failed(joined);
    }
    if env.up.Some? {
      var joined := CleanUp(o, true, [env.up.value], journal, env.result);
      return Failed(joined);
    }
    o := o.(closer := o.closer + [DeviceDown]);
    assert o.closer == registered + [DeviceClose, DeviceDown];
    var joined := CleanUp(o, false, [], journal, env.result);
    var wg := new Wireguard(o.closer, journal, env.result);
    return Created(wg);
  }

  lemma BadShows(opts: seq<Opt>)
    requires Applied(opts).1.Some?
    ensures !NoneBad(opts)
    ensures forall n :: 0 <= n < |opts| && NoneBad(opts[..n]) && Bad(opts[n]) ==> Applied(opts).1 == Fails(opts[n])
  {
    if NoneBad(opts) {
      AppliedIs(opts);
    }
    forall n | 0 <= n < |opts| && NoneBad(opts[..n]) && Bad(opts[n])
      ensures Applied(opts).1 == Fails(opts[n])
    {
      FirstBadDecides(opts, n);
    }
  }

  lemma GoodShows(opts: seq<Opt>)
    requires Applied(opts).1.None?
    ensures NoneBad(opts)
    ensures Applied(opts).0 ==
      Options(GivesDevice(opts), OptionBind in opts, OptionConfig in opts, FromOptions(opts))
  {
    if !NoneBad(opts) {
      var n := FirstBad(opts);
      FirstBadDecides(opts, n);
    }
    AppliedIs(opts);
  }

  /** Any number of Close calls: the first one does all the work. */
  method CloseAgain(wg: Wireguard, closes: nat) returns (errs: seq<seq<Error>>)
    requires wg.close.None? && closes > 0
    modifies wg, wg.journal
    ensures wg.journal.ran == old(wg.journal.ran) + Reverse(old(wg.closers))
    ensures errs == seq(closes, _ => JoinAll(Results(Reverse(old(wg.closers)), wg.result)))
  {
    var first := wg.Close();
    errs := [first];
    var i := 1;
    while i < closes
      invariant 0 < i <= closes && wg.close == Some(first)
      invariant wg.journal.ran == old(wg.journal.ran) + Reverse(old(wg.closers))
      invariant errs == seq(i, _ => first)
    {
      var err := wg.Close();
      errs := errs + [err];
      i := i + 1;
    }
  }

  /**
   * New followed by any number of Close calls. A created object's closers run once, at the first
   * Close, the device going down before it is closed and both before anything registered earlier;
   * every Close returns the same joined error.
   */
  method Lifetime(opts: seq<Opt>, env: Env, closes: nat) returns (created: bool, ran: seq<Closer>, errs: seq<seq<Error>>)
    ensures created <==>
      && NoneBad(opts) && GivesDevice(opts)
      && (OptionConfig in opts ==> env.setConfig.None?) && env.up.None?
    ensures created && closes == 0 ==> ran == []
    ensures created && closes > 0 ==>
      && ran == [DeviceDown, DeviceClose] + (if OptionBind in opts then [] else [BindClose]) + Reverse(FromOptions(opts))
      && errs == seq(closes, _ => JoinAll(Results(ran, env.result)))
    ensures !created && !NoneBad(opts) ==> ran == []
    ensures !created && NoneBad(opts) && GivesDevice(opts) ==>
      ran == FromOptions(opts) + (if OptionBind in opts then [] else [BindClose]) + [DeviceClose]
    ensures !created && NoneBad(opts) && !GivesDevice(opts) ==> ran == FromOptions(opts)
  {
    var journal := new Journal();
    var made := New(opts, env, journal);
    created, errs := made.Created?, [];
    match made {
      case Failed(_) =>
      case Created(wg) =>
        ReverseClosers(FromOptions(opts), if OptionBind in opts then [] else [BindClose]);
        if closes > 0 {
          errs := CloseAgain(wg, closes);
        }
    }
    ran := journal.ran;
  }

  lemma {:induction false} ReverseAppend(a: seq<Closer>, b: seq<Closer>)
    ensures Reverse(a + b) == Reverse(b) + Reverse(a)
  {
    forall i | 0 <= i < |a + b|
      ensures Reverse(a + b)[i] == (Reverse(b) + Reverse(a))[i]
    {
    }
  }

  lemma ReverseClosers(options: seq<Closer>, bind: seq<Closer>)
    requires |bind| <= 1
    ensures Reverse(options + bind + [DeviceClose, DeviceDown]) == [DeviceDown, DeviceClose] + bind + Reverse(options)
  {
    ReverseAppend(options + bind, [DeviceClose, DeviceDown]);
    ReverseAppend(options, bind);
    assert Reverse([DeviceClose, DeviceDown]) == [DeviceDown, DeviceClose];
    assert Reverse(bind) == bind;
  }

  // ---- When failure releases everything ----

  /**
   * A failing New has run every closer registered by then exactly if no option failed after one
   * that registers: options before the first failing one are not cleaned up.
   */
  method ReleasedExactlyIf(opts: seq<Opt>, env: Env, ghost n: nat) returns (failed: bool, ran: seq<Closer>)
    requires n <= |opts| && NoneBad(opts[..n]) && (n < |opts| ==> Bad(opts[n]))
    ensures n < |opts| ==> failed
    ensures var device := if OptionBind in opts then [DeviceClose] else [BindClose, DeviceClose];
      var registered := FromOptions(opts[..n]) + (if n == |opts| && GivesDevice(opts) then device else []);
      failed ==> (ran == registered <==> n == |opts| || forall i :: 0 <= i < n ==> !Registers(opts[i]))
  {
    assert opts[..|opts|] == opts;
    NothingRegistered(opts[..n]);
    assert forall i :: 0 <= i < n ==> opts[..n][i] == opts[i];
    assert FromOptions(opts[..n]) + [] == FromOptions(opts[..n]);
    var errs, created;
    created, ran, errs := Lifetime(opts, env, 0);
    failed := !created;
  }

  /** A device opened by one option is left open when the next option fails. */
  method OptionFailureLeavesOpen(env: Env) returns (failed: bool, ran: seq<Closer>)
    ensures failed && ran == []
    ensures FromOptions([OptionNetDevice(None)]) == [NetstackClose]
  {
    var opts := [OptionNetDevice(None), OptionErr(1)];
    assert opts[..1] == [OptionNetDevice(None)] && [OptionNetDevice(None)][..0] == [];
    assert Bad(opts[1]);
    var errs, created;
    created, ran, errs := Lifetime(opts, env, 0);
    failed := !created;
  }
}
