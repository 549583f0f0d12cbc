/**
 The life of program runs as a step system. Any number of `RunProgram` calls, their waiter goroutines,
 `StopJobByName`, `Pause` and `Reload` interleave; one action is one section that no other can interrupt:
 a section under `mu`, one database statement, or one operating system call.
 */
module RunLifecycle {
  import opened Base

  type RunId = int
  type CallId = nat

  datatype Program = Program(id: int, name: string, restartOnExit: bool)

  /** What `cmd.Wait` reports: no error, an ExitError (never for code 0), or any other error. */
  datatype WaitResult = Succeeded | ExitError(code: int) | WaitFailed {
    predicate Possible() {
      ExitError? ==> code != 0
    }

    function Closing(): Outcome {
      match this
      case Succeeded => Outcome(0, true)
      case ExitError(code) => Outcome(code, false)
      case WaitFailed => Outcome(-1, false)
    }
  }

  /** The columns `UpdateProgramRun` fills. */
  datatype Outcome = Outcome(exitCode: int, success: bool)

  const NOT_STARTED := Outcome(-1, false)

  /** A row of `program_runs`. */
  datatype Row = Row(programId: Option<int>, outcome: Option<Outcome>)

  /** What an entry of `activeRuns` points to. */
  datatype RunInfo = RunInfo(programId: int, name: string, pid: int, cancelled: bool)

  /** The fields of the Scheduler object that calls share. */
  datatype Shared = Shared(
    running: set<int>,
    activeCmds: map<RunId, int>,
    activeRuns: map<RunId, RunInfo>,
    wg: int,
    cron: seq<Program>,
    cronOn: bool)

  /** Where a call of `RunProgram`, later its waiter goroutine, stands. */
  datatype Phase =
    | Called
    | Skipped
    | Reserved
    | CreateFailed
    | Abandoned
    | RowMade(run: RunId)
    | StartFailed(run: RunId)
    | Stuck(run: RunId)
    | Started(run: RunId, pid: int)
    | Counted(run: RunId, pid: int)
    | Registered(run: RunId)
    | Waiting(run: RunId)
    | Exited(run: RunId, result: WaitResult)
    | Closed(run: RunId, success: bool)
    | Decided(run: RunId, success: bool, cancelled: bool)
    | Restarting(run: RunId, child: CallId)
    | Leaving(run: RunId)
    | Cleared(run: RunId)
    | Finished(run: RunId)
  {
    function Run(): Option<RunId> {
      if Called? || Skipped? || Reserved? || CreateFailed? || Abandoned? then None else Some(run)
    }

    /** The call has set `running` for its program and has not deleted the entry. */
    predicate Holds() {
      !(Called? || Skipped? || Abandoned? || Cleared? || Finished?)
    }

    /** The run is in `activeCmds` and `activeRuns`. */
    predicate InMaps() {
      Registered? || Waiting? || Exited? || Closed? || Decided? || Restarting? || Leaving?
    }

    /** The run is in the wait group. */
    predicate InGroup() {
      Counted? || InMaps() || Cleared?
    }

    /** No `UpdateProgramRun` has been issued for the run. */
    predicate Unclosed() {
      RowMade? || StartFailed? || Started? || Counted? || Registered? || Waiting? || Exited?
    }

    /** The child process has been started and its end has not been noticed. */
    predicate Alive() {
      Started? || Counted? || Registered? || Waiting?
    }

    /** The waiter has taken its decision about a restart. */
    predicate PastDecision() {
      Restarting? || Leaving? || Cleared? || Finished?
    }

    /** `RunProgram` has returned to its caller. */
    predicate Returned() {
      Skipped? || Abandoned? || Stuck? || Waiting? || Exited? || Closed? || Decided? || Restarting? || Leaving?
          || Cleared? || Finished?
    }

    /** How far the call has come. */
    function Rank(): nat {
      match this
      case Called => 0
      case Reserved => 1
      case CreateFailed => 2
      case RowMade(_) => 2
      case StartFailed(_) => 3
      case Started(_, _) => 3
      case Counted(_, _) => 4
      case Registered(_) => 5
      case Waiting(_) => 6
      case Exited(_, _) => 7
      case Closed(_, _) => 8
      case Decided(_, _, _) => 9
      case Restarting(_, _) => 10
      case Leaving(_) => 11
      case Cleared(_) => 12
      case Skipped => 13
      case Abandoned => 13
      case Stuck(_) => 13
      case Finished(_) => 13
    }
  }

  /** A call; `parent` is the call whose waiter restarts the program. */
  datatype Call = Call(program: Program, parent: Option<CallId>, phase: Phase)

  /**
   `drawn` holds every run ID the database has ever given out, `closings` the `UpdateProgramRun` statements issued,
   `lostWrites` the runs whose statement the database refused, and `swept` the rows the startup cleanup found open,
   once it has been done.
   */
  datatype State = State(
    shared: Shared,
    rows: map<RunId, Row>,
    drawn: set<RunId>,
    closings: multiset<RunId>,
    lostWrites: set<RunId>,
    swept: Option<set<RunId>>,
    calls: seq<Call>)

  datatype Action =
    | Trigger(p: Program)
    | CronFires(p: Program)
    | TryReserve(c: CallId)
    | CreateRow(c: CallId, run: RunId)
    | CreateRowFails(c: CallId)
    | Release(c: CallId)
    | StartProcess(c: CallId, pid: int)
    | StartFails(c: CallId)
    | CloseUnstarted(c: CallId, stored: bool)
    | AddToGroup(c: CallId)
    | Register(c: CallId)
    | SpawnWaiter(c: CallId)
    | ProcessEnds(c: CallId, result: WaitResult)
    | CloseRow(c: CallId, stored: bool)
    | ReadFlag(c: CallId)
    | Decide(c: CallId)
    | RestartReturns(c: CallId)
    | Clear(c: CallId)
    | LeaveGroup(c: CallId)
    | StopJob(name: string, run: RunId)
    | StopCron
    | Reload(loaded: Option<seq<Program>>)
    | CleanUp
    | DeletePrograms(ids: set<int>)

  // ----- Sections under the mutex, on the shared fields alone

  /** scheduler.go:115-122. `None` is the skip branch. */
  function ReserveIn(sh: Shared, p: Program): Option<Shared> {
    if p.id > 0 && p.id in sh.running then None else Some(sh.(running := sh.running + {p.id}))
  }

  function ReleaseIn(sh: Shared, id: int): Shared {
    sh.(running := sh.running - {id})
  }

  function RegisterIn(sh: Shared, run: RunId, info: RunInfo): Shared {
    sh.(activeCmds := sh.activeCmds[run := info.pid], activeRuns := sh.activeRuns[run := info])
  }

  function ClearIn(sh: Shared, run: RunId, id: int): Shared {
    sh.(activeCmds := sh.activeCmds - {run}, activeRuns := sh.activeRuns - {run}, running := sh.running - {id})
  }

  function CancelledIn(sh: Shared, run: RunId): bool {
    run in sh.activeRuns && sh.activeRuns[run].cancelled
  }

  function CancelIn(sh: Shared, run: RunId): Shared
    requires run in sh.activeRuns
  {
    sh.(activeRuns := sh.activeRuns[run := sh.activeRuns[run].(cancelled := true)])
  }

  function ReloadIn(sh: Shared, loaded: Option<seq<Program>>): Shared {
    match loaded
    case None => sh.(cron := [], cronOn := false)
    case Some(programs) => sh.(cron := programs, cronOn := true)
  }

  // ----- Steps

  function PhaseOf(s: State, c: CallId): Phase
    requires c < |s.calls|
  {
    s.calls[c].phase
  }

  predicate Enabled(s: State, a: Action) {
    match a
    case Trigger(_) => true
    case CronFires(p) => s.shared.cronOn && p in s.shared.cron
    case TryReserve(c) => c < |s.calls| && PhaseOf(s, c).Called?
    case CreateRow(c, run) => c < |s.calls| && PhaseOf(s, c).Reserved? && run !in s.drawn
    case CreateRowFails(c) => c < |s.calls| && PhaseOf(s, c).Reserved?
    case Release(c) => c < |s.calls| && PhaseOf(s, c).CreateFailed?
    case StartProcess(c, _) => c < |s.calls| && PhaseOf(s, c).RowMade?
    case StartFails(c) => c < |s.calls| && PhaseOf(s, c).RowMade?
    case CloseUnstarted(c, _) => c < |s.calls| && PhaseOf(s, c).StartFailed?
    case AddToGroup(c) => c < |s.calls| && PhaseOf(s, c).Started?
    case Register(c) => c < |s.calls| && PhaseOf(s, c).Counted?
    case SpawnWaiter(c) => c < |s.calls| && PhaseOf(s, c).Registered?
    case ProcessEnds(c, result) => c < |s.calls| && PhaseOf(s, c).Waiting? && result.Possible()
    case CloseRow(c, _) => c < |s.calls| && PhaseOf(s, c).Exited?
    case ReadFlag(c) => c < |s.calls| && PhaseOf(s, c).Closed?
    case Decide(c) => c < |s.calls| && PhaseOf(s, c).Decided?
    case RestartReturns(c) =>
      && c < |s.calls| && PhaseOf(s, c).Restarting?
      && var child := PhaseOf(s, c).child;
         child < |s.calls| && PhaseOf(s, child).Returned()
    case Clear(c) => c < |s.calls| && PhaseOf(s, c).Leaving?
    case LeaveGroup(c) => c < |s.calls| && PhaseOf(s, c).Cleared?
    case StopJob(name, run) => run in s.shared.activeRuns && s.shared.activeRuns[run].name == name
    case StopCron => true
    case Reload(_) => true
    case CleanUp => s.swept.None?
    case DeletePrograms(_) => true
  }

  function Goto(s: State, c: CallId, phase: Phase): State
    requires c < |s.calls|
  {
    s.(calls := s.calls[c := s.calls[c].(phase := phase)])
  }

  function NewCall(s: State, p: Program, parent: Option<CallId>): State {
    s.(calls := s.calls + [Call(p, parent, Called)])
  }

  /**
   `UpdateProgramRun`; a statement the database refuses leaves the row open, and one for a row that is gone is no
   error.
   */
  function CloseIn(s: State, run: RunId, outcome: Outcome, stored: bool): State {
    var t := s.(closings := s.closings + multiset{run});
    if !stored then
      t.(lostWrites := t.lostWrites + {run})
    else if run in s.rows then
      t.(rows := t.rows[run := t.rows[run].(outcome := Some(outcome))])
    else
      t
  }

  /** The row `CreateProgramRun` inserts; an ID that is not positive is stored as NULL. */
  function NewRow(p: Program): Row {
    Row(if p.id <= 0 then None else Some(p.id), None)
  }

  function OpenRows(rows: map<RunId, Row>): set<RunId> {
    set run | run in rows && rows[run].outcome.None?
  }

  /**
   cmd/scheduler/main.go:279: every open row is closed as not started; it is done once, when the HTTP server is
   already up.
   */
  function CleanUpOrphans(rows: map<RunId, Row>): map<RunId, Row> {
    map run | run in rows :: if rows[run].outcome.None? then rows[run].(outcome := Some(NOT_STARTED)) else rows[run]
  }

  predicate OfPrograms(row: Row, ids: set<int>) {
    row.programId.Some? && row.programId.value in ids
  }

  /**
   Deleting programs, one by name (internal/http/server.go:468) or all of them in a restore
   (internal/db/db_backup.go:71), cascades to their runs, live or not.
   */
  function WithoutPrograms(rows: map<RunId, Row>, ids: set<int>): map<RunId, Row> {
    map run | run in rows && !OfPrograms(rows[run], ids) :: rows[run]
  }

  function Do(s: State, a: Action): State
    requires Enabled(s, a)
  {
    match a
    case Trigger(p) => NewCall(s, p, None)
    case CronFires(p) => NewCall(s, p, None)
    case TryReserve(c) =>
      (match ReserveIn(s.shared, s.calls[c].program)
       case None => Goto(s, c, Skipped)
       case Some(sh) => Goto(s, c, Reserved).(shared := sh))
    case CreateRow(c, run) =>
      Goto(s, c, RowMade(run)).(rows := s.rows[run := NewRow(s.calls[c].program)], drawn := s.drawn + {run})
    case CreateRowFails(c) => Goto(s, c, CreateFailed)
    case Release(c) => Goto(s, c, Abandoned).(shared := ReleaseIn(s.shared, s.calls[c].program.id))
    case StartProcess(c, pid) => Goto(s, c, Started(PhaseOf(s, c).run, pid))
    case StartFails(c) => Goto(s, c, StartFailed(PhaseOf(s, c).run))
    case CloseUnstarted(c, stored) =>
      var run := PhaseOf(s, c).run;
      CloseIn(Goto(s, c, Stuck(run)), run, NOT_STARTED, stored)
    case AddToGroup(c) =>
      Goto(s, c, Counted(PhaseOf(s, c).run, PhaseOf(s, c).pid)).(shared := s.shared.(wg := s.shared.wg + 1))
    case Register(c) =>
      var info := RunInfo(s.calls[c].program.id, s.calls[c].program.name, PhaseOf(s, c).pid, false);
      Goto(s, c, Registered(PhaseOf(s, c).run)).(shared := RegisterIn(s.shared, PhaseOf(s, c).run, info))
    case SpawnWaiter(c) => Goto(s, c, Waiting(PhaseOf(s, c).run))
    case ProcessEnds(c, result) => Goto(s, c, Exited(PhaseOf(s, c).run, result))
    case CloseRow(c, stored) =>
      var (run, outcome) := (PhaseOf(s, c).run, PhaseOf(s, c).result.Closing());
      CloseIn(Goto(s, c, Closed(run, outcome.success)), run, outcome, stored)
    case ReadFlag(c) =>
      var run := PhaseOf(s, c).run;
      Goto(s, c, Decided(run, PhaseOf(s, c).success, CancelledIn(s.shared, run)))
    case Decide(c) =>
      var phase := PhaseOf(s, c);
      if s.calls[c].program.restartOnExit && !phase.success && !phase.cancelled then
        NewCall(Goto(s, c, Restarting(phase.run, |s.calls|)), s.calls[c].program, Some(c))
      else
        Goto(s, c, Leaving(phase.run))
    case RestartReturns(c) => Goto(s, c, Leaving(PhaseOf(s, c).run))
    case Clear(c) =>
      Goto(s, c, Cleared(PhaseOf(s, c).run)).(shared := ClearIn(s.shared, PhaseOf(s, c).run, s.calls[c].program.id))
    case LeaveGroup(c) =>
      Goto(s, c, Finished(PhaseOf(s, c).run)).(shared := s.shared.(wg := s.shared.wg - 1))
    case StopJob(_, run) => s.(shared := CancelIn(s.shared, run))
    case StopCron => s.(shared := s.shared.(cronOn := false))
    case Reload(loaded) => s.(shared := ReloadIn(s.shared, loaded))
    case CleanUp => s.(rows := CleanUpOrphans(s.rows), swept := Some(OpenRows(s.rows)))
    case DeletePrograms(ids) => s.(rows := WithoutPrograms(s.rows, ids))
  }

  /** A fresh scheduler; an earlier process may have left rows behind, finished or open. */
  predicate Init(s: State) {
    && s.shared == Shared({}, map[], map[], 0, [], false)
    && s.calls == []
    && s.rows.Keys <= s.drawn
    && s.closings == multiset{}
    && s.lostWrites == {}
    && s.swept.None?
  }

  ghost predicate Next(s: State, t: State) {
    exists a :: Enabled(s, a) && t == Do(s, a)
  }

  /** A finite run of the system from a fresh scheduler, in any interleaving. */
  ghost predicate IsTrace(trace: seq<State>) {
    && trace != []
    && Init(trace[0])
    && forall i :: 0 <= i < |trace| - 1 ==> Next(trace[i], trace[i + 1])
  }
}
