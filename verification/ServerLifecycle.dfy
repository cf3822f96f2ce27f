/**
 A managed server seen by one caller at a time: closing, backup, and the maintenance operations that stop
 the server, work on a temporary embedded runtime and start it again. What native calls and the file system
 answer is an input of each call.
 */
module ServerLifecycle {
  import opened Outcomes

  datatype Config = Config(path: string, text: string)

  /** What a started native server reports about itself. */
  datatype Info = Info(handle: nat, port: int, addr: string, persistPath: string, tls: bool)

  datatype StartOutcome = Started(info: Info) | StartFailed(message: string) {
    function Failure(): Option<string> {
      if StartFailed? then Some(message) else None
    }
  }

  datatype StopOutcome = Stopped | AlreadyStopped | StopFailed(message: string)

  /** WAL prune, compaction and rebuild are one driver with three names. */
  datatype Task = WalPrune | Compaction | Rebuild

  datatype Failure =
    | NotStarted
    | CloseFailed(message: string)
    | StopBeforeFailed(task: Task, message: string)
    | EmbeddedStartFailed(task: Task, message: string, restart: Option<string>)
    | RunFailed(message: string, close: Option<string>, restart: Option<string>)
    | EmbeddedCloseFailed(task: Task, message: string, restart: Option<string>)
    | RestartFailed(message: string)
    | PlanFailed(message: string)
    | BackupFailed(message: string, restart: Option<string>)

  datatype Event = Closed | StartedAs(info: Info, config: Config) | RestartFailure

  /** The most recent successful start. */
  ghost function LatestStart(log: seq<Event>): Option<(Info, Config)> {
    if log == [] then None
    else if log[|log| - 1].StartedAs? then Some((log[|log| - 1].info, log[|log| - 1].config))
    else LatestStart(log[..|log| - 1])
  }

  lemma LatestStartAppend(log: seq<Event>, event: Event)
    ensures LatestStart(log + [event]) == if event.StartedAs? then Some((event.info, event.config)) else LatestStart(log)
  {
    assert (log + [event])[..|log|] == log;
  }

  /** The events of a restart attempt. */
  function RestartEvents(outcome: StartOutcome, config: Config): seq<Event> {
    [if outcome.Started? then StartedAs(outcome.info, config) else RestartFailure]
  }

  /** The lifecycle events of a maintenance operation that could stop the server. */
  function MaintenanceEvents<R>(w: Work<R>, config: Config): seq<Event> {
    [Closed] + RestartEvents(w.restart, config)
  }

  // ---- What a driver reports ----

  datatype Work<R> = Work(
    embeddedStart: Option<string>, run: Result<R, string>, embeddedClose: Option<string>, restart: StartOutcome)

  /** Result and error of a maintenance operation, once the server was stopped. */
  function Report<R>(task: Task, w: Work<R>): (Option<R>, Option<Failure>) {
    var restart := w.restart.Failure();
    if w.embeddedStart.Some? then (None, Some(EmbeddedStartFailed(task, w.embeddedStart.value, restart)))
    else if w.run.Err? then (None, Some(RunFailed(w.run.error, w.embeddedClose, restart)))
    else if w.embeddedClose.Some? then (Some(w.run.value), Some(EmbeddedCloseFailed(task, w.embeddedClose.value, restart)))
    else if restart.Some? then (Some(w.run.value), Some(RestartFailed(restart.value)))
    else (Some(w.run.value), None)
  }

  // ---- What failed, and what the caller is told of it ----

  datatype Step = Stopping | StartingEmbedded | Running | ClosingEmbedded | Restarting | Planning | Copying

  function Failing(step: Step, message: Option<string>): map<Step, string> {
    if message.Some? then map[step := message.value] else map[]
  }

  /** The messages an error carries, by the step they come from. */
  function Told(error: Option<Failure>): map<Step, string> {
    if error.None? then map[] else
    match error.value
    case NotStarted => map[]
    case CloseFailed(message) => map[Stopping := message]
    case StopBeforeFailed(_, message) => map[Stopping := message]
    case EmbeddedStartFailed(_, message, restart) => map[StartingEmbedded := message] + Failing(Restarting, restart)
    case RunFailed(message, close, restart) =>
      map[Running := message] + Failing(ClosingEmbedded, close) + Failing(Restarting, restart)
    case EmbeddedCloseFailed(_, message, restart) => map[ClosingEmbedded := message] + Failing(Restarting, restart)
    case RestartFailed(message) => map[Restarting := message]
    case PlanFailed(message) => map[Planning := message]
    case BackupFailed(message, restart) => map[Copying := message] + Failing(Restarting, restart)
  }

  /** The steps of a maintenance operation that failed: without an embedded runtime nothing is run or closed. */
  function FailedSteps<R>(w: Work<R>): map<Step, string> {
    (if w.embeddedStart.Some? then map[StartingEmbedded := w.embeddedStart.value]
     else Failing(Running, if w.run.Err? then Some(w.run.error) else None) + Failing(ClosingEmbedded, w.embeddedClose))
    + Failing(Restarting, w.restart.Failure())
  }

  function TaskOf(failure: Failure): Option<Task> {
    match failure
    case StopBeforeFailed(task, _) => Some(task)
    case EmbeddedStartFailed(task, _, _) => Some(task)
    case EmbeddedCloseFailed(task, _, _) => Some(task)
    case _ => None
  }

  /** No failure is lost in a report and none is invented; a result goes with success of the operation. */
  lemma ReportTellsEveryFailure<R>(task: Task, w: Work<R>)
    ensures var (result, error) := Report(task, w);
            && Told(error) == FailedSteps(w)
            && (error.Some? && TaskOf(error.value).Some? ==> TaskOf(error.value).value == task)
            && (result.Some? <==> w.embeddedStart.None? && w.run.Ok?)
            && (error.None? <==> result.Some? && w.embeddedClose.None? && w.restart.Started?)
  {
  }

  lemma NothingElseIsTold(task: Task, message: string)
    ensures Told(Some(NotStarted)) == map[] && Told(Some(StopBeforeFailed(task, message))) == map[Stopping := message]
  {
  }

  class Server {
    var handle: Option<nat>
    var port: int
    var addr: string
    var config: Config
    var persistPath: string
    var tls: bool
    /** Every stop and every attempt to start, in order. */
    ghost var log: seq<Event>

    /**
     The server holds a handle exactly when its last lifecycle event was a successful start; what it reports
     belongs to the latest successful start, except the TLS flag, which belongs to the first. It is stopped
     only while running and started only while stopped.
     */
    ghost predicate Valid()
      reads this
    {
      && log != [] && log[0].StartedAs? && LatestStart(log).Some?
      && (handle.Some? <==> log[|log| - 1].StartedAs?)
      && (forall i | 0 < i < |log| :: log[i].Closed? <==> log[i - 1].StartedAs?)
      && tls == log[0].info.tls
      && (var (info, startConfig) := LatestStart(log).value;
          && (handle.Some? ==> handle.value == info.handle)
          && port == info.port && addr == info.addr && persistPath == info.persistPath
          && config == startConfig)
    }

    constructor (info: Info, config: Config)
      ensures Valid() && log == [StartedAs(info, config)]
    {
      handle := Some(info.handle);
      port, addr, persistPath, tls := info.port, info.addr, info.persistPath, info.tls;
      this.config := config;
      log := [StartedAs(info, config)];
    }

    /** Gives the handle up whatever stopping it answers. */
    method Close(stop: StopOutcome) returns (failure: Option<Failure>)
      requires Valid()
      modifies this
      ensures Valid() && handle.None? && config == old(config)
      ensures log == if old(handle).Some? then old(log) + [Closed] else old(log)
      ensures failure == if old(handle).Some? && stop.StopFailed? then Some(CloseFailed(stop.message)) else None
    {
      if handle.None? {
        return None;
      }
      handle := None;
      LatestStartAppend(log, Closed);
      log := log + [Closed];
      if stop.StopFailed? {
        return Some(CloseFailed(stop.message));
      }
      return None;
    }

    method RestartFromConfig(config: Config, start: StartOutcome) returns (failure: Option<string>)
      requires Valid() && handle.None?
      modifies this
      ensures Valid() && log == old(log) + RestartEvents(start, config)
      ensures tls == old(tls)  // not copied from the restarted server
      ensures failure == start.Failure() && handle == if start.Started? then Some(start.info.handle) else None
    {
      LatestStartAppend(log, RestartEvents(start, config)[0]);
      if start.StartFailed? {
        log := log + [RestartFailure];
        return Some(start.message);
      }
      port, addr, persistPath := start.info.port, start.info.addr, start.info.persistPath;
      this.config := config;
      handle := Some(start.info.handle);
      log := log + [StartedAs(start.info, config)];
      return None;
    }

    /** The driver of all three maintenance tasks. */
    method RunMaintenance<R>(task: Task, stop: StopOutcome, w: Work<R>)
      returns (result: Option<R>, error: Option<Failure>)
      requires Valid()
      modifies this
      ensures Valid()
      ensures if old(handle).None? then
                result == None && error == Some(NotStarted) && unchanged(this)
              else if stop.StopFailed? then
                result == None && error == Some(StopBeforeFailed(task, stop.message)) && log == old(log) + [Closed]
              else
                (result, error) == Report(task, w) && log == old(log) + MaintenanceEvents(w, old(config))
      // A result exactly when the operation itself ran and succeeded, no error exactly when all went well.
      ensures result.Some? <==> old(handle).Some? && !stop.StopFailed? && w.embeddedStart.None? && w.run.Ok?
      ensures error.None? <==> result.Some? && w.embeddedClose.None? && w.restart.Started?
      // The error carries the message of every step that failed, and of no other.
      ensures Told(error) == if old(handle).None? then map[]
                             else if stop.StopFailed? then map[Stopping := stop.message] else FailedSteps(w)
      ensures error.Some? && TaskOf(error.value).Some? ==> TaskOf(error.value).value == task
    {
      ReportTellsEveryFailure(task, w);
      NothingElseIsTold(task, if stop.StopFailed? then stop.message else "");
      hide Told, FailedSteps;
      if handle.None? {
        return None, Some(NotStarted);
      }
      var startConfig := config;
      var closeFailure := Close(stop);
      if closeFailure.Some? {
        return None, Some(StopBeforeFailed(task, closeFailure.value.message));
      }
      if w.embeddedStart.Some? {
        var restartErr := RestartFromConfig(startConfig, w.restart);
        return None, Some(EmbeddedStartFailed(task, w.embeddedStart.value, restartErr));
      }
      var runErr := if w.run.Err? then Some(w.run.error) else None;
      var closeErr := w.embeddedClose;
      var restartErr := RestartFromConfig(startConfig, w.restart);
      if runErr.Some? {
        return None, Some(RunFailed(runErr.value, closeErr, restartErr));
      }
      result := Some(w.run.value);
      if closeErr.Some? {
        error := Some(EmbeddedCloseFailed(task, closeErr.value, restartErr));
      } else if restartErr.Some? {
        error := Some(RestartFailed(restartErr.value));
      } else {
        error := None;
      }
    }

    /** `plan` stands for the checks on the destination, `copied` for the copy and the manifest it returns. */
    method Backup<M>(
      plan: Option<string>, stop: StopOutcome, copied: Result<M, string>, leaveStopped: bool, restart: StartOutcome)
      returns (manifest: Option<M>, error: Option<Failure>)
      requires Valid()
      modifies this
      ensures Valid()
      ensures if old(handle).None? then manifest == None && error == Some(NotStarted) && unchanged(this)
              else if plan.Some? then manifest == None && error == Some(PlanFailed(plan.value)) && unchanged(this)
              else if stop.StopFailed? then
                manifest == None && error == Some(CloseFailed(stop.message)) && log == old(log) + [Closed]
              else
                && log == old(log) + [Closed] + (if leaveStopped then [] else RestartEvents(restart, old(config)))
                && (manifest.Some? <==> copied.Ok?) && (copied.Ok? ==> manifest == Some(copied.value))
                && (error.None? <==> copied.Ok? && (leaveStopped || restart.Started?))
                && (copied.Err? ==> error == Some(BackupFailed(copied.error, if leaveStopped then None else restart.Failure())))
                && Told(error) == Failing(Copying, if copied.Err? then Some(copied.error) else None)
                                  + Failing(Restarting, if leaveStopped then None else restart.Failure())
    {
      if handle.None? {
        return None, Some(NotStarted);
      }
      var startConfig := config;
      if plan.Some? {
        return None, Some(PlanFailed(plan.value));
      }
      var closeFailure := Close(stop);
      if closeFailure.Some? {
        return None, closeFailure;
      }
      manifest := if copied.Ok? then Some(copied.value) else None;
      var backupErr := if copied.Err? then Some(copied.error) else None;
      if leaveStopped {
        return manifest, if backupErr.Some? then Some(BackupFailed(backupErr.value, None)) else None;
      }
      var restartErr := RestartFromConfig(startConfig, restart);
      if backupErr.Some? {
        return None, Some(BackupFailed(backupErr.value, restartErr));
      }
      if restartErr.Some? {
        return manifest, Some(RestartFailed(restartErr.value));
      }
      return manifest, None;
    }
  }

  // ---- The Java executor ----

  datatype JavaFailure =
    | StopFailure(message: string)
    | EmbeddedStartFailure(message: string)
    | OperationFailure(message: string, suppressedClose: Option<string>, restart: Option<string>)
    | EmbeddedCloseFailure(message: string, restart: Option<string>)
    | RestartOnlyFailure(message: string)

  datatype JavaOutcome<R> = Thrown(failure: JavaFailure) | Returned(result: R, session: Option<Info>, error: Option<JavaFailure>)

  /** Sessions that were started by the executor and not handed to its caller. */
  datatype JavaRun<R> = JavaRun(outcome: JavaOutcome<R>, restarted: Option<Info>) {
    predicate Orphans() {
      restarted.Some? && (outcome.Thrown? || outcome.session != restarted)
    }
  }

  /** What the executor does and returns, as a whole. */
  function JavaRunOf<R>(closeServer: Option<string>, w: Work<R>): JavaRun<R> {
    if closeServer.Some? then JavaRun(Thrown(StopFailure(closeServer.value)), None)
    else if w.embeddedStart.Some? then JavaRun(Thrown(EmbeddedStartFailure(w.embeddedStart.value)), None)
    else JavaRun(JavaReport(w), JavaSession(w))
  }

  method JavaExecute<R>(closeServer: Option<string>, w: Work<R>) returns (r: JavaRun<R>)
    ensures r == JavaRunOf(closeServer, w)
  {
    if closeServer.Some? {
      return JavaRun(Thrown(StopFailure(closeServer.value)), None);
    }
    if w.embeddedStart.Some? {
      return JavaRun(Thrown(EmbeddedStartFailure(w.embeddedStart.value)), None);
    }
    var opError := None;
    if w.run.Err? {
      opError := Some(w.run.error);
    }
    var closeError := w.embeddedClose;
    var newSession: Option<Info> := None;
    var restartError := None;
    if w.restart.Started? {
      newSession := Some(w.restart.info);
    } else {
      restartError := Some(w.restart.message);
    }
    if opError.Some? {
      return JavaRun(Thrown(OperationFailure(opError.value, closeError, restartError)), newSession);
    }
    var result := w.run.value;
    if closeError.Some? {
      if restartError.Some? {
        return JavaRun(Returned(result, None, Some(EmbeddedCloseFailure(closeError.value, restartError))), newSession);
      }
      return JavaRun(Returned(result, newSession, Some(EmbeddedCloseFailure(closeError.value, None))), newSession);
    }
    if restartError.Some? {
      return JavaRun(Returned(result, None, Some(RestartOnlyFailure(restartError.value))), newSession);
    }
    return JavaRun(Returned(result, newSession, None), newSession);
  }

  function JavaSession<R>(w: Work<R>): Option<Info> {
    if w.restart.Started? then Some(w.restart.info) else None
  }

  function JavaReport<R>(w: Work<R>): JavaOutcome<R> {
    var restart := w.restart.Failure();
    if w.run.Err? then Thrown(OperationFailure(w.run.error, w.embeddedClose, restart))
    else if w.embeddedClose.Some? then
      Returned(w.run.value, JavaSession(w), Some(EmbeddedCloseFailure(w.embeddedClose.value, restart)))
    else Returned(w.run.value, JavaSession(w), if restart.Some? then Some(RestartOnlyFailure(restart.value)) else None)
  }

  /** The Go failure that a Java failure stands for. */
  function AsGo(task: Task, failure: JavaFailure): Failure {
    match failure
    case StopFailure(message) => StopBeforeFailed(task, message)
    case EmbeddedStartFailure(message) => EmbeddedStartFailed(task, message, None)
    case OperationFailure(message, close, restart) => RunFailed(message, close, restart)
    case EmbeddedCloseFailure(message, restart) => EmbeddedCloseFailed(task, message, restart)
    case RestartOnlyFailure(message) => RestartFailed(message)
  }

  /**
   Once the temporary embedded runtime has started, the Java executor reports the same result and the same
   failure as the Go driver. It leaves a running server without an owner exactly when the operation failed
   and the restart succeeded.
   */
  lemma JavaAgreesOnceEmbeddedStarted<R>(task: Task, w: Work<R>)
    requires w.embeddedStart.None?
    ensures var (result, error) := Report(task, w);
            && JavaReport(w).Returned? == result.Some?
            && (JavaReport(w).Returned? ==>
                  && Some(JavaReport(w).result) == result
                  && (if JavaReport(w).error.Some? then Some(AsGo(task, JavaReport(w).error.value)) else None) == error)
            && (JavaReport(w).Thrown? ==> Some(AsGo(task, JavaReport(w).failure)) == error)
    ensures JavaRunOf(None, w).Orphans() <==> w.run.Err? && w.restart.Started?
  {
  }

  /**
   The two leave the server in the same state, started or not, exactly when the embedded runtime starts or
   the server would not: after a failed embedded start the Go driver restarts the server and the Java
   executor does not.
   */
  lemma JavaRestartsAsGoExactlyWhenEmbeddedStarted<R>(w: Work<R>, config: Config)
    ensures var java := JavaRunOf(None, w).restarted;
            var go := MaintenanceEvents(w, config);
            && (w.embeddedStart.Some? ==> java == None)
            && ((if java.Some? then Some(StartedAs(java.value, config)) else None)
                == (if go[|go| - 1].StartedAs? then Some(go[|go| - 1]) else None)
                <==> w.embeddedStart.None? || w.restart.StartFailed?)
  {
    assert MaintenanceEvents(w, config)[1] == RestartEvents(w.restart, config)[0];
  }
}
