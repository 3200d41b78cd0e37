/** The lifecycle of one service (src/service.rs): its status, derived from
    `enable` and the health check, and the start and stop script sequences.

    Each operation is a method over a `Host` (it spawns through an
    `Executor` built with `From`) and is proved equal to a function of the
    service, the oracle and the trace before the call.  The functions carry
    what the operations promise. */
module Service {
  import opened Wrappers
  import opened Manifest
  import opened Executor

  datatype ServiceStatus = Unknow | Start | Stop | Disable

  /** `ServiceStatus::default()`. */
  const DefaultStatus: ServiceStatus := Unknow

  datatype ServiceInformation = ServiceInformation(name: string, status: ServiceStatus, manifest: ManifestContent)

  datatype StartResult = Success | PreStartFailed(code: int) | StartFailed(code: int)

  datatype StopResult = Success | StopFailed(code: int) | PostStopFailed(code: int)

  /** A result together with the trace after it. */
  datatype Effect<T> = Effect(result: T, trace: seq<Invocation>)

  /** `ServiceInformation::new` once the file is read and parsed (`parsed`
      carries a read or parse error): the name is kept, the status is the
      default one, and the parsed manifest is dropped for the default one. */
  function NewService(parsed: Result<ManifestContent, Error>): (r: Result<ServiceInformation, Error>)
    ensures parsed.Err? ==> r == Err(parsed.error)
    ensures parsed.Ok? ==> r.Ok? && r.value.name == parsed.value.name
    ensures r.Ok? ==> r.value.status == Unknow && r.value.manifest.enable == None
    ensures r.Ok? ==> r.value.manifest == DefaultManifest
  {
    match parsed
    case Err(e) => Err(e)
    case Ok(m) => Ok(ServiceInformation(m.name, DefaultStatus, DefaultManifest))
  }

  /** What `Executor::from(script).exec()` spawns: the executor's working
      directory is never set, so it stays empty. */
  function ScriptInvocation(script: string): Invocation
  {
    ShellInvocation(CommandLine("", Split(script, ' ')), "")
  }

  /** A script reaches the shell as a space followed by the script itself. */
  lemma ScriptInvocationText(script: string)
    ensures ScriptInvocation(script) == Invocation("sh", ["-c", " " + script], "", true)
  {
    ScriptCommandLine(script);
  }

  // ---------------------------------------------------------------------
  // Status
  // ---------------------------------------------------------------------

  /** `update_status`: disabled without spawning anything unless `enable` is
      `Some(true)`; otherwise one health check, whose exit code 0 means
      `Start` and any other code `Stop`.  Failing to spawn, to wait or to get
      an exit code panics.  Only `status` changes, and never to `Unknow`. */
  function UpdateStatusSpec(s: ServiceInformation, oracle: Oracle, trace: seq<Invocation>): (e: Effect<Run<ServiceInformation>>)
    ensures e.result.Returned? ==>
      e.result.value.name == s.name && e.result.value.manifest == s.manifest && e.result.value.status != Unknow
    ensures s.manifest.enable != Some(true) ==> e == Effect(Returned(s.(status := Disable)), trace)
    ensures s.manifest.enable == Some(true) ==>
      var inv := ScriptInvocation(s.manifest.scripts.healthCheck);
      var o := oracle(trace, inv);
      e.trace == trace + [inv] &&
      (e.result == Returned(s.(status := ServiceStatus.Start)) <==> Succeeded(o)) &&
      (e.result == Returned(s.(status := ServiceStatus.Stop)) <==> o.Exited? && o.code.Some? && o.code.value != 0) &&
      (e.result == Panicked <==> !o.Exited? || o.code.None?)
  {
    if s.manifest.enable == Some(true) then
      var inv := ScriptInvocation(s.manifest.scripts.healthCheck);
      var status :=
        match oracle(trace, inv)
        case Exited(Some(c)) => Returned(if c == 0 then ServiceStatus.Start else ServiceStatus.Stop)
        case _ => Panicked;
      Effect(if status.Returned? then Returned(s.(status := status.value)) else Panicked, trace + [inv])
    else
      Effect(Returned(s.(status := Disable)), trace)
  }

  method UpdateStatus(s: ServiceInformation, host: Host) returns (r: Run<ServiceInformation>)
    modifies host
    ensures Effect(r, host.trace) == UpdateStatusSpec(s, host.oracle, old(host.trace))
  {
    var status := Disable;
    if s.manifest.enable.Some? {
      if s.manifest.enable.value {
        var child := new Executor.From(s.manifest.scripts.healthCheck);
        var o := child.Exec(host);
        // `expect` on the spawn, on the wait and on the exit code
        if !o.Exited? || o.code.None? {
          return Panicked;
        }
        status := if o.code.value == 0 then ServiceStatus.Start else ServiceStatus.Stop;
      }
    }
    return Returned(s.(status := status));
  }

  // ---------------------------------------------------------------------
  // Start and stop
  // ---------------------------------------------------------------------

  /** One script as `start` and `stop` see it: `?` turns a failed spawn or
      wait into an error, an unsuccessful exit is reported with its code,
      and `.code().expect(..)` panics when there is no code. */
  datatype ScriptRun = Passed | FailedWith(code: int) | Errored(error: Error) | Aborted

  function Judge(o: Outcome): ScriptRun
  {
    match o
    case SpawnFailed => Errored(SpawnError)
    case WaitFailed => Errored(WaitError)
    case Exited(None) => Aborted
    case Exited(Some(c)) => if c == 0 then Passed else FailedWith(c)
  }

  /** The scripts `start` may spawn, in order. */
  function StartScripts(scripts: Scripts): seq<Invocation>
  {
    (if scripts.preStart.Some? then [ScriptInvocation(scripts.preStart.value)] else []) +
    [ScriptInvocation(scripts.start)]
  }

  /** The scripts `stop` may spawn, in order. */
  function StopScripts(scripts: Scripts): seq<Invocation>
  {
    (if scripts.stop.Some? then [ScriptInvocation(scripts.stop.value)] else []) +
    (if scripts.postStop.Some? then [ScriptInvocation(scripts.postStop.value)] else [])
  }

  /** Run the last script of a sequence and report on it. */
  function Last<T>(inv: Invocation, oracle: Oracle, trace: seq<Invocation>, success: T, failed: int -> T): (e: Effect<Run<Result<T, Error>>>)
    ensures e.trace == trace + [inv] && Reports(e.result, oracle(trace, inv), success, failed)
  {
    var result :=
      match Judge(oracle(trace, inv))
      case Passed => Returned(Ok(success))
      case FailedWith(c) => Returned(Ok(failed(c)))
      case Errored(err) => Returned(Err(err))
      case Aborted => Panicked;
    Effect(result, trace + [inv])
  }

  /** How `start` and `stop` report the script that ran last, for every way
      it can end: a pass is `success`, a nonzero exit code is `failed(code)`,
      a failed spawn or wait is the matching error, and a missing code
      panics. */
  ghost predicate Reports<T>(r: Run<Result<T, Error>>, o: Outcome, success: T, failed: int -> T)
  {
    (Succeeded(o) ==> r == Returned(Ok(success))) &&
    (o.Exited? && o.code.Some? && o.code.value != 0 ==> r == Returned(Ok(failed(o.code.value)))) &&
    (o == SpawnFailed ==> r == Returned(Err(SpawnError))) &&
    (o == WaitFailed ==> r == Returned(Err(WaitError))) &&
    (o == Exited(None) ==> r == Panicked)
  }

  /** `start`: `pre_start` first when present; unless it passes, its outcome
      is reported (`PreStartFailed(code)` for a nonzero code) and `start` is
      never spawned.  Otherwise `start` is spawned and reported:
      `StartFailed(code)` or `Success`.  Only the scripts are consulted,
      never `enable` or `status`. */
  function StartSpec(scripts: Scripts, oracle: Oracle, trace: seq<Invocation>): (e: Effect<Run<Result<StartResult, Error>>>)
    ensures trace <= e.trace && e.trace[|trace|..] <= StartScripts(scripts)
    ensures scripts.preStart.None? ==>
      var st := ScriptInvocation(scripts.start);
      e.trace == trace + [st] &&
      Reports(e.result, oracle(trace, st), StartResult.Success, c => StartFailed(c))
    ensures scripts.preStart.Some? ==>
      var pre := ScriptInvocation(scripts.preStart.value);
      var o := oracle(trace, pre);
      if Succeeded(o) then
        var st := ScriptInvocation(scripts.start);
        e.trace == trace + [pre, st] &&
        Reports(e.result, oracle(trace + [pre], st), StartResult.Success, c => StartFailed(c))
      else
        e.trace == trace + [pre] &&
        Reports(e.result, o, StartResult.Success, c => PreStartFailed(c))
    ensures e.result == Returned(Ok(StartResult.Success)) <==>
      e.trace == trace + StartScripts(scripts) &&
      (scripts.preStart.None? || Succeeded(oracle(trace, ScriptInvocation(scripts.preStart.value)))) &&
      Succeeded(oracle(e.trace[..|e.trace| - 1], ScriptInvocation(scripts.start)))
  {
    match scripts.preStart
    case Some(script) =>
      var pre := ScriptInvocation(script);
      var after := trace + [pre];
      (match Judge(oracle(trace, pre))
       case Passed =>
         assert after + [ScriptInvocation(scripts.start)] == trace + StartScripts(scripts);
         Last(ScriptInvocation(scripts.start), oracle, after, StartResult.Success, c => StartFailed(c))
       case FailedWith(c) => Effect(Returned(Ok(PreStartFailed(c))), after)
       case Errored(err) => Effect(Returned(Err(err)), after)
       case Aborted => Effect(Panicked, after))
    case None =>
      Last(ScriptInvocation(scripts.start), oracle, trace, StartResult.Success, c => StartFailed(c))
  }

  /** `stop`: `stop` first when present; unless it passes, its outcome is
      reported (`StopFailed(code)` for a nonzero code) and `post_stop` is
      never spawned.  Otherwise the rest is `PostStop`; with neither script
      nothing is spawned. */
  function StopSpec(scripts: Scripts, oracle: Oracle, trace: seq<Invocation>): (e: Effect<Run<Result<StopResult, Error>>>)
    ensures trace <= e.trace && e.trace[|trace|..] <= StopScripts(scripts)
    ensures scripts.stop.None? ==> e == PostStop(scripts, oracle, trace)
    ensures scripts.stop.Some? ==>
      var stop := ScriptInvocation(scripts.stop.value);
      var o := oracle(trace, stop);
      if Succeeded(o) then
        e == PostStop(scripts, oracle, trace + [stop])
      else
        e.trace == trace + [stop] &&
        Reports(e.result, o, StopResult.Success, c => StopFailed(c))
    ensures e.result == Returned(Ok(StopResult.Success)) <==>
      e.trace == trace + StopScripts(scripts) &&
      (scripts.stop.None? || Succeeded(oracle(trace, ScriptInvocation(scripts.stop.value)))) &&
      (scripts.postStop.None? || Succeeded(oracle(e.trace[..|e.trace| - 1], ScriptInvocation(scripts.postStop.value))))
  {
    match scripts.stop
    case Some(script) =>
      var stop := ScriptInvocation(script);
      var after := trace + [stop];
      (match Judge(oracle(trace, stop))
       case Passed => PostStop(scripts, oracle, after)
       case FailedWith(c) => Effect(Returned(Ok(StopFailed(c))), after)
       case Errored(err) => Effect(Returned(Err(err)), after)
       case Aborted => Effect(Panicked, after))
    case None => PostStop(scripts, oracle, trace)
  }

  /** The `post_stop` half of `stop`, once `stop` has passed or is absent:
      `Success` without a `post_stop` script, and otherwise that script
      spawned once and reported, `PostStopFailed(code)` for a nonzero code. */
  function PostStop(scripts: Scripts, oracle: Oracle, trace: seq<Invocation>): (e: Effect<Run<Result<StopResult, Error>>>)
    ensures scripts.postStop.None? ==> e == Effect(Returned(Ok(StopResult.Success)), trace)
    ensures scripts.postStop.Some? ==>
      var post := ScriptInvocation(scripts.postStop.value);
      var o := oracle(trace, post);
      e.trace == trace + [post] &&
      (e.result == Returned(Ok(StopResult.Success)) <==> Succeeded(o)) &&
      Reports(e.result, o, StopResult.Success, c => PostStopFailed(c))
  {
    match scripts.postStop
    case Some(script) => Last(ScriptInvocation(script), oracle, trace, StopResult.Success, c => PostStopFailed(c))
    case None => Effect(Returned(Ok(StopResult.Success)), trace)
  }

  method StartService(s: ServiceInformation, host: Host) returns (r: Run<Result<StartResult, Error>>)
    modifies host
    ensures Effect(r, host.trace) == StartSpec(s.manifest.scripts, host.oracle, old(host.trace))
  {
    if s.manifest.scripts.preStart.Some? {
      var child := new Executor.From(s.manifest.scripts.preStart.value);
      // `start` waits twice on this child; the second wait returns the
      // status the first one collected.
      var o := child.Exec(host);
      match Judge(o)
      case Errored(err) => return Returned(Err(err));
      case Aborted => return Panicked;
      case FailedWith(c) => return Returned(Ok(PreStartFailed(c)));
      case Passed =>
    }
    var start := new Executor.From(s.manifest.scripts.start);
    var o := start.Exec(host);
    match Judge(o)
    case Errored(err) => return Returned(Err(err));
    case Aborted => return Panicked;
    case FailedWith(c) => return Returned(Ok(StartFailed(c)));
    case Passed => return Returned(Ok(StartResult.Success));
  }

  method StopService(s: ServiceInformation, host: Host) returns (r: Run<Result<StopResult, Error>>)
    modifies host
    ensures Effect(r, host.trace) == StopSpec(s.manifest.scripts, host.oracle, old(host.trace))
  {
    if s.manifest.scripts.stop.Some? {
      var stop := new Executor.From(s.manifest.scripts.stop.value);
      var o := stop.Exec(host);
      match Judge(o)
      case Errored(err) => return Returned(Err(err));
      case Aborted => return Panicked;
      case FailedWith(c) => return Returned(Ok(StopFailed(c)));
      case Passed =>
    }
    if s.manifest.scripts.postStop.Some? {
      var postStop := new Executor.From(s.manifest.scripts.postStop.value);
      var o := postStop.Exec(host);
      match Judge(o)
      case Errored(err) => return Returned(Err(err));
      case Aborted => return Panicked;
      case FailedWith(c) => return Returned(Ok(PostStopFailed(c)));
      case Passed =>
    }
    return Returned(Ok(StopResult.Success));
  }

  /** No script is given a working directory, so each is spawned in the
      directory `""`.  On a system that refuses to change into `""`, every
      spawn fails: an enabled service's status query panics, `start` fails
      on its first script, and `stop` fails unless it has nothing to run. */
  lemma EmptyDirectoryRefused(s: ServiceInformation, oracle: Oracle, trace: seq<Invocation>)
    requires forall h: seq<Invocation>, inv: Invocation :: inv.dir == "" ==> oracle(h, inv) == SpawnFailed
    ensures s.manifest.enable == Some(true) ==> UpdateStatusSpec(s, oracle, trace).result == Panicked
    ensures StartSpec(s.manifest.scripts, oracle, trace) ==
      Effect(Returned(Err(SpawnError)), trace + [StartScripts(s.manifest.scripts)[0]])
    ensures var scripts := s.manifest.scripts;
      scripts.stop.Some? || scripts.postStop.Some? ==>
        StopSpec(scripts, oracle, trace) == Effect(Returned(Err(SpawnError)), trace + [StopScripts(scripts)[0]])
  {
    var scripts := s.manifest.scripts;
    assert oracle(trace, ScriptInvocation(scripts.start)) == SpawnFailed;
    if scripts.preStart.Some? {
      assert oracle(trace, ScriptInvocation(scripts.preStart.value)) == SpawnFailed;
    }
    if scripts.stop.Some? {
      assert oracle(trace, ScriptInvocation(scripts.stop.value)) == SpawnFailed;
    } else if scripts.postStop.Some? {
      assert oracle(trace, ScriptInvocation(scripts.postStop.value)) == SpawnFailed;
    }
    if s.manifest.enable == Some(true) {
      assert oracle(trace, ScriptInvocation(s.manifest.scripts.healthCheck)) == SpawnFailed;
    }
  }

  // ---------------------------------------------------------------------
  // What follows for the services the program discovers
  // ---------------------------------------------------------------------

  /** Every service built by `new` carries the default manifest, so its
      status query reports `Disable` without spawning, and starting it asks to
      spawn the empty start script: the shell is to be given a single space. */
  lemma DiscoveredServiceBehaviour(parsed: Result<ManifestContent, Error>, oracle: Oracle, trace: seq<Invocation>)
    requires parsed.Ok?
    ensures var s := NewService(parsed).value;
      UpdateStatusSpec(s, oracle, trace) == Effect(Returned(s.(status := Disable)), trace) &&
      StartSpec(s.manifest.scripts, oracle, trace).trace == trace + [Invocation("sh", ["-c", " "], "", true)]
  {
    var s := NewService(parsed).value;
    ScriptInvocationText("");
    assert " " + "" == " ";
  }
}
