/** The batch commands (src/cmd.rs): which services a command acts on, and
    the order in which it queries and starts them.

    The discovered services are given as a parameter; reading the working
    directory is not part of this model.  Processes are spawned through one
    `Host`, so the trace records the order of every health check and script
    across the whole command. */
module Cmd {
  import opened Wrappers
  import opened Seqs
  import opened Manifest
  import opened Executor
  import opened Service

  /** The `(service, start result)` pairs that `start_all_services` returns. */
  type Started = (ServiceInformation, Result<StartResult, Error>)

  /** `arg_services.contains(&ele.name)` */
  function Named(names: seq<string>): ServiceInformation -> bool
  {
    (s: ServiceInformation) => s.name in names
  }

  /** The filter of `CMD::start`: `ele.status != ServiceStatus::Start`. */
  predicate NotStarted(s: ServiceInformation)
  {
    s.status != ServiceStatus.Start
  }

  /** A list with `front` before what `e` returned; a panic stays a panic. */
  function Prepend<T>(front: seq<T>, e: Effect<Run<seq<T>>>): (r: Effect<Run<seq<T>>>)
    ensures r.trace == e.trace && r.result.Returned? == e.result.Returned?
  {
    if e.result.Returned? then Effect(Returned(front + e.result.value), e.trace) else e
  }

  /** Prepending nothing changes nothing; prepending twice prepends the
      concatenation. */
  lemma PrependLaws<T>(a: seq<T>, b: seq<T>, e: Effect<Run<seq<T>>>)
    ensures Prepend([], e) == e
    ensures Prepend(a, Prepend(b, e)) == Prepend(a + b, e)
  {
    if e.result.Returned? {
      assert [] + e.result.value == e.result.value;
      assert a + (b + e.result.value) == (a + b) + e.result.value;
    }
  }

  // ---------------------------------------------------------------------
  // Selecting services
  // ---------------------------------------------------------------------

  /** `filt_services`: `retain` the services whose name was asked for. */
  method FiltServices(names: seq<string>, services: seq<ServiceInformation>) returns (r: seq<ServiceInformation>)
    ensures r == Keep(services, Named(names))
  {
    r := [];
    var i := 0;
    while i < |services|
      invariant 0 <= i <= |services|
      invariant Keep(services, Named(names)) == r + Keep(services[i..], Named(names))
    {
      KeepUnfold(services[i..], Named(names));
      assert services[i..][1..] == services[i + 1..];
      if services[i].name in names {
        assert Keep(services[i..], Named(names)) == [services[i]] + Keep(services[i + 1..], Named(names));
        r := r + [services[i]];
      } else {
        assert Keep(services[i..], Named(names)) == Keep(services[i + 1..], Named(names));
      }
      i := i + 1;
    }
    assert services[i..] == [];
  }

  /** No names select no service. */
  lemma {:induction false} NoNamesSelectNothing(services: seq<ServiceInformation>)
    ensures Keep(services, Named([])) == []
    decreases |services|
  {
    if services != [] {
      KeepUnfold(services, Named([]));
      NoNamesSelectNothing(services[1..]);
    }
  }

  /** `CMD::list`: every discovered service without a `services` argument,
      the selected ones with it. */
  method CmdList(args: Option<seq<string>>, discovered: seq<ServiceInformation>) returns (services: seq<ServiceInformation>)
    ensures args.None? ==> services == discovered
    ensures args.Some? ==> services == Keep(discovered, Named(args.value))
    ensures args == Some([]) ==> services == []
  {
    if args.None? {
      services := discovered;
    } else {
      services := FiltServices(args.value, discovered);
      NoNamesSelectNothing(discovered);
    }
  }

  // ---------------------------------------------------------------------
  // Querying a list of services
  // ---------------------------------------------------------------------

  /** The health check `update_status` spawns for `s`, if any. */
  function HealthCheck(s: ServiceInformation): seq<Invocation>
  {
    if s.manifest.enable == Some(true) then [ScriptInvocation(s.manifest.scripts.healthCheck)] else []
  }

  /** The health checks of `v`, in order. */
  function HealthChecks(v: seq<ServiceInformation>): seq<Invocation>
    decreases |v|
  {
    if v == [] then [] else HealthCheck(v[0]) + HealthChecks(v[1..])
  }

  /** `update_all_status`: `update_status` on each service in turn.  On
      return there is one refreshed service per input, and exactly the
      enabled services' health checks were spawned, in input order. */
  function UpdateAll(v: seq<ServiceInformation>, oracle: Oracle, trace: seq<Invocation>): (e: Effect<Run<seq<ServiceInformation>>>)
    ensures trace <= e.trace
    ensures e.result.Returned? ==> |e.result.value| == |v| && e.trace == trace + HealthChecks(v)
    decreases |v|
  {
    if v == [] then Effect(Returned([]), trace)
    else
      var u := UpdateStatusSpec(v[0], oracle, trace);
      if u.result.Panicked? then Effect(Panicked, u.trace)
      else
        var rest := UpdateAll(v[1..], oracle, u.trace);
        assert u.trace == trace + HealthCheck(v[0]);
        Prepend([u.result.value], rest)
  }

  /** Element `i` of `update_all_status` is `update_status` of input `i`, run
      after the health checks of the inputs before it. */
  lemma {:induction false} UpdateAllElement(v: seq<ServiceInformation>, oracle: Oracle, trace: seq<Invocation>, i: nat)
    requires UpdateAll(v, oracle, trace).result.Returned? && i < |v|
    ensures UpdateStatusSpec(v[i], oracle, trace + HealthChecks(v[..i])).result
      == Returned(UpdateAll(v, oracle, trace).result.value[i])
    decreases i
  {
    var u := UpdateStatusSpec(v[0], oracle, trace);
    UpdateAllUnfold(v, oracle, trace);
    if i == 0 {
      assert v[..0] == [];
      assert trace + HealthChecks(v[..0]) == trace;
    } else {
      UpdateAllElement(v[1..], oracle, u.trace, i - 1);
      HealthChecksShift(v, trace, i);
    }
  }

  /** The trace before service `i`, seen from the query of the rest. */
  lemma HealthChecksShift(v: seq<ServiceInformation>, trace: seq<Invocation>, i: nat)
    requires 0 < i < |v|
    ensures v[1..][i - 1] == v[i]
    ensures trace + HealthChecks(v[..i]) == (trace + HealthCheck(v[0])) + HealthChecks(v[1..][..i - 1])
  {
    HealthChecksPrefix(v, i);
    assert trace + (HealthCheck(v[0]) + HealthChecks(v[1..][..i - 1]))
      == (trace + HealthCheck(v[0])) + HealthChecks(v[1..][..i - 1]);
  }

  /** The query of service `i`, seen from the query of the rest. */
  lemma UpdateStatusShift(v: seq<ServiceInformation>, oracle: Oracle, trace: seq<Invocation>, i: nat)
    requires 0 < i < |v|
    ensures var u := UpdateStatusSpec(v[0], oracle, trace);
      UpdateStatusSpec(v[i], oracle, trace + HealthChecks(v[..i]))
        == UpdateStatusSpec(v[1..][i - 1], oracle, u.trace + HealthChecks(v[1..][..i - 1]))
  {
    var u := UpdateStatusSpec(v[0], oracle, trace);
    assert u.trace == trace + HealthCheck(v[0]);
    HealthChecksShift(v, trace, i);
  }

  /** Refreshed service `i` is input `i` with a known status. */
  lemma {:induction false} UpdateAllRefreshes(v: seq<ServiceInformation>, oracle: Oracle, trace: seq<Invocation>)
    requires UpdateAll(v, oracle, trace).result.Returned?
    ensures var after := UpdateAll(v, oracle, trace).result.value;
      forall i :: 0 <= i < |v| ==>
        after[i].name == v[i].name && after[i].manifest == v[i].manifest && after[i].status != Unknow
  {
    forall i | 0 <= i < |v| {
      UpdateAllElement(v, oracle, trace, i);
    }
  }

  /** The first step of a query that returns. */
  lemma UpdateAllUnfold(v: seq<ServiceInformation>, oracle: Oracle, trace: seq<Invocation>)
    requires v != [] && UpdateAll(v, oracle, trace).result.Returned?
    ensures var u := UpdateStatusSpec(v[0], oracle, trace);
      u.result.Returned? && u.trace == trace + HealthCheck(v[0]) &&
      UpdateAll(v[1..], oracle, u.trace).result.Returned? &&
      UpdateAll(v, oracle, trace).result.value == [u.result.value] + UpdateAll(v[1..], oracle, u.trace).result.value
  {
  }

  /** The health checks of the first `i` services: the first one's, then
      those of the next `i - 1`. */
  lemma HealthChecksPrefix(v: seq<ServiceInformation>, i: nat)
    requires 0 < i <= |v|
    ensures HealthChecks(v[..i]) == HealthCheck(v[0]) + HealthChecks(v[1..][..i - 1])
  {
    assert v[..i][1..] == v[1..][..i - 1];
    assert v[..i][0] == v[0];
  }

  /** The query of a list returns exactly when the query of each service
      returns, every one run after the health checks of those before it: only
      a panic stops the loop. */
  lemma {:induction false} UpdateAllReturns(v: seq<ServiceInformation>, oracle: Oracle, trace: seq<Invocation>)
    ensures UpdateAll(v, oracle, trace).result.Returned? <==>
      forall i :: 0 <= i < |v| ==> UpdateStatusSpec(v[i], oracle, trace + HealthChecks(v[..i])).result.Returned?
    decreases |v|
  {
    if v != [] {
      var u := UpdateStatusSpec(v[0], oracle, trace);
      assert v[..0] == [] && trace + HealthChecks(v[..0]) == trace;
      if u.result.Returned? {
        UpdateAllReturns(v[1..], oracle, u.trace);
        assert UpdateAll(v, oracle, trace).result.Returned? == UpdateAll(v[1..], oracle, u.trace).result.Returned?;
        forall i | 0 < i < |v|
          ensures UpdateStatusSpec(v[i], oracle, trace + HealthChecks(v[..i]))
            == UpdateStatusSpec(v[1..][i - 1], oracle, u.trace + HealthChecks(v[1..][..i - 1]))
        {
          UpdateStatusShift(v, oracle, trace, i);
        }
      }
    }
  }

  /** With no service enabled, nothing is spawned and every service is
      reported `Disable`. */
  lemma {:induction false} UpdateAllDisabled(v: seq<ServiceInformation>, oracle: Oracle, trace: seq<Invocation>)
    requires forall i :: 0 <= i < |v| ==> v[i].manifest.enable != Some(true)
    ensures var e := UpdateAll(v, oracle, trace);
      e.result.Returned? && e.trace == trace &&
      forall i :: 0 <= i < |v| ==> e.result.value[i] == v[i].(status := Disable)
    decreases |v|
  {
    if v != [] {
      assert forall i :: 0 <= i < |v[1..]| ==> v[1..][i] == v[i + 1];
      UpdateAllDisabled(v[1..], oracle, trace);
      assert UpdateStatusSpec(v[0], oracle, trace) == Effect(Returned(v[0].(status := Disable)), trace);
      var rest := UpdateAll(v[1..], oracle, trace);
      assert UpdateAll(v, oracle, trace) == Effect(Returned([v[0].(status := Disable)] + rest.result.value), trace);
    }
  }

  method UpdateAllStatus(v: seq<ServiceInformation>, host: Host) returns (r: Run<seq<ServiceInformation>>)
    modifies host
    ensures Effect(r, host.trace) == UpdateAll(v, host.oracle, old(host.trace))
  {
    ghost var start := host.trace;
    var refreshed: seq<ServiceInformation> := [];
    PrependLaws(refreshed, refreshed, UpdateAll(v, host.oracle, host.trace));
    assert v[0..] == v;
    var i := 0;
    while i < |v|
      invariant 0 <= i <= |v|
      invariant UpdateAll(v, host.oracle, start) == Prepend(refreshed, UpdateAll(v[i..], host.oracle, host.trace))
    {
      assert v[i..][1..] == v[i + 1..];
      var s := UpdateStatus(v[i], host);
      if s.Panicked? {
        return Panicked;
      }
      PrependLaws(refreshed, [s.value], UpdateAll(v[i + 1..], host.oracle, host.trace));
      refreshed := refreshed + [s.value];
      i := i + 1;
    }
    assert v[i..] == [];
    assert refreshed + [] == refreshed;
    return Returned(refreshed);
  }

  // ---------------------------------------------------------------------
  // Starting a list of services
  // ---------------------------------------------------------------------

  /** The index loop of `start_all_services`: each service paired with the
      result of starting it, in order. */
  function StartEach(v: seq<ServiceInformation>, oracle: Oracle, trace: seq<Invocation>): (e: Effect<Run<seq<Started>>>)
    ensures trace <= e.trace
    ensures e.result.Returned? ==> |e.result.value| == |v| && forall i :: 0 <= i < |v| ==> e.result.value[i].0 == v[i]
    decreases |v|
  {
    if v == [] then Effect(Returned([]), trace)
    else
      var st := StartSpec(v[0].manifest.scripts, oracle, trace);
      if st.result.Panicked? then Effect(Panicked, st.trace)
      else
        var rest := StartEach(v[1..], oracle, st.trace);
        assert rest.result.Returned? ==> forall i :: 1 <= i < |v| ==> rest.result.value[i - 1].0 == v[i] by {
          assert forall i :: 1 <= i < |v| ==> v[1..][i - 1] == v[i];
        }
        Prepend([(v[0], st.result.value)], rest)
  }

  /** Pair `i` holds the result of `start` on service `i`, run once the
      services before it have been started. */
  lemma {:induction false} StartEachElement(v: seq<ServiceInformation>, oracle: Oracle, trace: seq<Invocation>, i: nat)
    requires StartEach(v, oracle, trace).result.Returned? && i < |v|
    ensures StartSpec(v[i].manifest.scripts, oracle, StartEach(v[..i], oracle, trace).trace).result
      == Returned(StartEach(v, oracle, trace).result.value[i].1)
    decreases i
  {
    var st := StartSpec(v[0].manifest.scripts, oracle, trace);
    assert StartEach(v, oracle, trace) == Prepend([(v[0], st.result.value)], StartEach(v[1..], oracle, st.trace));
    if i == 0 {
      assert v[..0] == [];
    } else {
      StartEachElement(v[1..], oracle, st.trace, i - 1);
      StartEachPrefix(v, oracle, trace, i);
    }
  }

  /** Starting the first `i` services: the first one, then the next `i - 1`. */
  lemma StartEachPrefix(v: seq<ServiceInformation>, oracle: Oracle, trace: seq<Invocation>, i: nat)
    requires 0 < i <= |v|
    requires StartSpec(v[0].manifest.scripts, oracle, trace).result.Returned?
    ensures StartEach(v[..i], oracle, trace).trace
      == StartEach(v[1..][..i - 1], oracle, StartSpec(v[0].manifest.scripts, oracle, trace).trace).trace
  {
    assert v[..i][1..] == v[1..][..i - 1];
    assert v[..i][0] == v[0];
  }

  /** Starting a list returns exactly when starting each service returns,
      every one run after the services before it: an `Err` or a failure code
      is recorded and the loop goes on; only a panic stops it. */
  lemma {:induction false} StartEachReturns(v: seq<ServiceInformation>, oracle: Oracle, trace: seq<Invocation>)
    ensures StartEach(v, oracle, trace).result.Returned? <==>
      forall i :: 0 <= i < |v| ==>
        StartSpec(v[i].manifest.scripts, oracle, StartEach(v[..i], oracle, trace).trace).result.Returned?
    decreases |v|
  {
    if v != [] {
      var st := StartSpec(v[0].manifest.scripts, oracle, trace);
      assert v[..0] == [];
      if st.result.Returned? {
        StartEachReturns(v[1..], oracle, st.trace);
        assert StartEach(v, oracle, trace).result.Returned? == StartEach(v[1..], oracle, st.trace).result.Returned?;
        forall i | 0 < i < |v|
          ensures StartSpec(v[i].manifest.scripts, oracle, StartEach(v[..i], oracle, trace).trace)
            == StartSpec(v[1..][i - 1].manifest.scripts, oracle, StartEach(v[1..][..i - 1], oracle, st.trace).trace)
        {
          StartEachShift(v, oracle, trace, i);
        }
      }
    }
  }

  /** The start of service `i`, seen from the start of the rest. */
  lemma StartEachShift(v: seq<ServiceInformation>, oracle: Oracle, trace: seq<Invocation>, i: nat)
    requires 0 < i < |v|
    requires StartSpec(v[0].manifest.scripts, oracle, trace).result.Returned?
    ensures var st := StartSpec(v[0].manifest.scripts, oracle, trace);
      StartSpec(v[i].manifest.scripts, oracle, StartEach(v[..i], oracle, trace).trace)
        == StartSpec(v[1..][i - 1].manifest.scripts, oracle, StartEach(v[1..][..i - 1], oracle, st.trace).trace)
  {
    StartEachPrefix(v, oracle, trace, i);
    assert v[1..][i - 1] == v[i];
  }

  /** `start_all_services`: every service is queried again, then each
      refreshed service is started in turn. */
  function StartAll(v: seq<ServiceInformation>, oracle: Oracle, trace: seq<Invocation>): (e: Effect<Run<seq<Started>>>)
    ensures trace <= e.trace
    ensures e.result.Returned? ==> trace + HealthChecks(v) <= e.trace
    ensures e.result.Returned? ==> |e.result.value| == |v|
  {
    var after := UpdateAll(v, oracle, trace);
    if after.result.Panicked? then Effect(Panicked, after.trace)
    else StartEach(after.result.value, oracle, after.trace)
  }

  /** Pair `i` is `(after[i], after[i].start())`, where `after[i]` is input
      `i` queried again. */
  lemma StartAllElement(v: seq<ServiceInformation>, oracle: Oracle, trace: seq<Invocation>, i: nat)
    requires StartAll(v, oracle, trace).result.Returned? && i < |v|
    ensures var after := UpdateAll(v, oracle, trace);
      after.result.Returned? &&
      after.result.value[i].name == v[i].name && after.result.value[i].manifest == v[i].manifest &&
      after.result.value[i].status != Unknow &&
      StartAll(v, oracle, trace).result.value[i].0 == after.result.value[i] &&
      StartSpec(after.result.value[i].manifest.scripts, oracle,
                StartEach(after.result.value[..i], oracle, after.trace).trace).result
        == Returned(StartAll(v, oracle, trace).result.value[i].1)
  {
    var after := UpdateAll(v, oracle, trace);
    StartEachElement(after.result.value, oracle, after.trace, i);
    UpdateAllElement(v, oracle, trace, i);
  }

  /** `start_all_services` returns exactly when every re-query and then
      every start returns. */
  lemma StartAllReturns(v: seq<ServiceInformation>, oracle: Oracle, trace: seq<Invocation>)
    ensures StartAll(v, oracle, trace).result.Returned? <==>
      (forall i :: 0 <= i < |v| ==> UpdateStatusSpec(v[i], oracle, trace + HealthChecks(v[..i])).result.Returned?) &&
      var after := UpdateAll(v, oracle, trace);
      after.result.Returned? &&
      forall i :: 0 <= i < |v| ==>
        StartSpec(after.result.value[i].manifest.scripts, oracle,
                  StartEach(after.result.value[..i], oracle, after.trace).trace).result.Returned?
  {
    UpdateAllReturns(v, oracle, trace);
    var after := UpdateAll(v, oracle, trace);
    if after.result.Returned? {
      StartEachReturns(after.result.value, oracle, after.trace);
    }
  }

  // ---------------------------------------------------------------------
  // Only a missing exit code or a failed spawn in a query stops a batch
  // ---------------------------------------------------------------------

  /** Every process can be spawned and waited for and reports an exit code. */
  ghost predicate AlwaysExits(oracle: Oracle)
  {
    forall h: seq<Invocation>, inv: Invocation :: oracle(h, inv).Exited? && oracle(h, inv).code.Some?
  }

  /** No process ends without an exit code; spawns and waits may fail. */
  ghost predicate AlwaysCoded(oracle: Oracle)
  {
    forall h: seq<Invocation>, inv: Invocation :: oracle(h, inv) != Exited(None)
  }

  /** Querying never panics when every health check reports a code. */
  lemma UpdateAllCompletes(v: seq<ServiceInformation>, oracle: Oracle, trace: seq<Invocation>)
    requires AlwaysExits(oracle)
    ensures UpdateAll(v, oracle, trace).result.Returned?
  {
    UpdateAllReturns(v, oracle, trace);
    forall i | 0 <= i < |v| ensures UpdateStatusSpec(v[i], oracle, trace + HealthChecks(v[..i])).result.Returned? {
      var t := trace + HealthChecks(v[..i]);
      var inv := ScriptInvocation(v[i].manifest.scripts.healthCheck);
      assert oracle(t, inv).Exited? && oracle(t, inv).code.Some?;
    }
  }

  /** `start` panics only on a missing exit code: failed spawns and waits are
      errors it returns. */
  lemma StartCompletes(scripts: Scripts, oracle: Oracle, trace: seq<Invocation>)
    requires AlwaysCoded(oracle)
    ensures StartSpec(scripts, oracle, trace).result.Returned?
  {
    var st := ScriptInvocation(scripts.start);
    if scripts.preStart.Some? {
      var pre := ScriptInvocation(scripts.preStart.value);
      assert oracle(trace, pre) != Exited(None);
      assert oracle(trace + [pre], st) != Exited(None);
    } else {
      assert oracle(trace, st) != Exited(None);
    }
  }

  /** Starting a list never panics when every process reports a code: one
      service's error or failure code does not stop the others. */
  lemma StartEachCompletes(v: seq<ServiceInformation>, oracle: Oracle, trace: seq<Invocation>)
    requires AlwaysCoded(oracle)
    ensures StartEach(v, oracle, trace).result.Returned?
  {
    StartEachReturns(v, oracle, trace);
    forall i | 0 <= i < |v|
      ensures StartSpec(v[i].manifest.scripts, oracle, StartEach(v[..i], oracle, trace).trace).result.Returned?
    {
      StartCompletes(v[i].manifest.scripts, oracle, StartEach(v[..i], oracle, trace).trace);
    }
  }

  /** `CMD::start` reaches its rendering whenever every process reports an
      exit code, whatever codes they report. */
  lemma CmdStartCompletes(args: Option<seq<string>>, discovered: seq<ServiceInformation>, oracle: Oracle, trace: seq<Invocation>)
    requires AlwaysExits(oracle)
    ensures CmdStartSpec(args, discovered, oracle, trace).result.Returned?
  {
    var updated := UpdateAll(Selected(args, discovered), oracle, trace);
    UpdateAllCompletes(Selected(args, discovered), oracle, trace);
    var pending := Keep(updated.result.value, NotStarted);
    UpdateAllCompletes(pending, oracle, updated.trace);
    var after := UpdateAll(pending, oracle, updated.trace);
    assert AlwaysCoded(oracle) by {
      forall h: seq<Invocation>, inv: Invocation ensures oracle(h, inv) != Exited(None) {
        assert oracle(h, inv).code.Some?;
      }
    }
    StartEachCompletes(after.result.value, oracle, after.trace);
  }

  method StartAllServices(v: seq<ServiceInformation>, host: Host) returns (r: Run<seq<Started>>)
    modifies host
    ensures Effect(r, host.trace) == StartAll(v, host.oracle, old(host.trace))
  {
    var before := v;
    // `start_all_services` repeats the loop of `update_all_status` here.
    var refreshed := UpdateAllStatus(v, host);
    if refreshed.Panicked? {
      return Panicked;
    }
    var after := refreshed.value;
    ghost var started := host.trace;
    var pairs: seq<Started> := [];
    PrependLaws(pairs, pairs, StartEach(after, host.oracle, host.trace));
    assert after[0..] == after;
    var index := 0;
    while index < |before|
      invariant 0 <= index <= |after| == |before|
      invariant StartEach(after, host.oracle, started) == Prepend(pairs, StartEach(after[index..], host.oracle, host.trace))
    {
      assert after[index..][1..] == after[index + 1..];
      var result := StartService(after[index], host);
      if result.Panicked? {
        return Panicked;
      }
      PrependLaws(pairs, [(after[index], result.value)], StartEach(after[index + 1..], host.oracle, host.trace));
      pairs := pairs + [(after[index], result.value)];
      index := index + 1;
    }
    assert after[index..] == [];
    assert pairs + [] == pairs;
    return Returned(pairs);
  }

  // ---------------------------------------------------------------------
  // `CMD::start`
  // ---------------------------------------------------------------------

  /** The services named on the command line; none when the argument is
      absent. */
  function Selected(args: Option<seq<string>>, discovered: seq<ServiceInformation>): seq<ServiceInformation>
  {
    Keep(discovered, Named(args.GetOr([])))
  }

  /** What `CMD::start` computes before rendering: select, query, drop the
      running services, then query again and start the rest. */
  function CmdStartSpec(args: Option<seq<string>>, discovered: seq<ServiceInformation>, oracle: Oracle, trace: seq<Invocation>): (e: Effect<Run<seq<Started>>>)
    ensures trace <= e.trace
  {
    var updated := UpdateAll(Selected(args, discovered), oracle, trace);
    if updated.result.Panicked? then Effect(Panicked, updated.trace)
    else StartAll(Keep(updated.result.value, NotStarted), oracle, updated.trace)
  }

  method CmdStart(args: Option<seq<string>>, discovered: seq<ServiceInformation>, host: Host) returns (r: Run<seq<Started>>)
    modifies host
    ensures Effect(r, host.trace) == CmdStartSpec(args, discovered, host.oracle, old(host.trace))
  {
    var names := args.GetOr([]);
    var services := FiltServices(names, discovered);
    var updated := UpdateAllStatus(services, host);
    if updated.Panicked? {
      return Panicked;
    }
    var pending := Keep(updated.value, NotStarted);
    r := StartAllServices(pending, host);
  }

  /** Without a `services` argument, or with an empty one, `start` spawns
      nothing and starts nothing. */
  lemma CmdStartWithoutNames(args: Option<seq<string>>, discovered: seq<ServiceInformation>, oracle: Oracle, trace: seq<Invocation>)
    requires args.None? || args == Some([])
    ensures CmdStartSpec(args, discovered, oracle, trace) == Effect(Returned([]), trace)
  {
    NoNamesSelectNothing(discovered);
    assert Keep([], NotStarted) == [];
  }

  /** A service that survives the status filter was selected by name. */
  lemma PendingNamed(names: seq<string>, discovered: seq<ServiceInformation>, oracle: Oracle, trace: seq<Invocation>)
    requires UpdateAll(Keep(discovered, Named(names)), oracle, trace).result.Returned?
    ensures var pending := Keep(UpdateAll(Keep(discovered, Named(names)), oracle, trace).result.value, NotStarted);
      forall i :: 0 <= i < |pending| ==> NotStarted(pending[i]) && pending[i].name in names
  {
    var selected := Keep(discovered, Named(names));
    var updated := UpdateAll(selected, oracle, trace).result.value;
    var pending := Keep(updated, NotStarted);
    UpdateAllRefreshes(selected, oracle, trace);
    KeepMembers(discovered, Named(names));
    KeepMembers(updated, NotStarted);
    assert forall j :: 0 <= j < |selected| ==> selected[j].name in names by {
      forall j | 0 <= j < |selected| ensures selected[j].name in names {
        assert Named(names)(selected[j]);
      }
    }
    assert forall j :: 0 <= j < |updated| ==> updated[j].name in names by {
      forall j | 0 <= j < |updated| ensures updated[j].name in names {
        assert updated[j].name == selected[j].name;
      }
    }
    forall i | 0 <= i < |pending| ensures NotStarted(pending[i]) && pending[i].name in names {
      assert pending[i] in updated;
      var j :| 0 <= j < |updated| && updated[j] == pending[i];
    }
  }

  /** Every started service was named, was not running at the first query,
      and is started in the order of the discovered list; the health check of
      every enabled selected service runs once in the first query, and that
      of every enabled pending one again, before any start script. */
  lemma CmdStartShape(args: Option<seq<string>>, discovered: seq<ServiceInformation>, oracle: Oracle, trace: seq<Invocation>)
    requires CmdStartSpec(args, discovered, oracle, trace).result.Returned?
    ensures var selected := Selected(args, discovered);
      var updated := UpdateAll(selected, oracle, trace);
      var pending := Keep(updated.result.value, NotStarted);
      var e := CmdStartSpec(args, discovered, oracle, trace);
      updated.result.Returned? &&
      |e.result.value| == |pending| &&
      (forall i :: 0 <= i < |pending| ==>
        NotStarted(pending[i]) && pending[i].name in args.GetOr([]) &&
        e.result.value[i].0.name == pending[i].name) &&
      trace + HealthChecks(selected) + HealthChecks(pending) <= e.trace &&
      e == StartAll(pending, oracle, updated.trace)
  {
    var selected := Selected(args, discovered);
    var updated := UpdateAll(selected, oracle, trace);
    assert updated.result.Returned?;
    var pending := Keep(updated.result.value, NotStarted);
    var e := CmdStartSpec(args, discovered, oracle, trace);
    assert e == StartAll(pending, oracle, updated.trace);
    assert updated.trace == trace + HealthChecks(selected);
    PendingNamed(args.GetOr([]), discovered, oracle, trace);
    forall i | 0 <= i < |pending| ensures e.result.value[i].0.name == pending[i].name {
      StartAllElement(pending, oracle, updated.trace, i);
    }
  }
}
