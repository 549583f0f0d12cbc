/** The rows of `program_runs`: when they are closed, what the startup cleanup does to them, and when they vanish. */
module RunRows {
  import opened Base
  import opened RunLifecycle
  import opened RunInvariants
  import opened RunTheorems

  // ----- Closing

  /**
   For every run one closing statement is issued, by the path its call took. The row, while it is there, holds no
   outcome of its own until then; the startup cleanup can only fill the gap.
   */
  lemma RowClosedExactlyOnce(trace: seq<State>, i: nat, c: CallId, run: RunId)
    requires IsTrace(trace) && i < |trace| && Made(trace[i], c, run)
    ensures trace[i].closings[run] == if PhaseOf(trace[i], c).Unclosed() then 0 else 1
    ensures run in trace[i].rows ==>
            var (row, phase) := (trace[i].rows[run], PhaseOf(trace[i], c));
            && row.programId == (if trace[i].calls[c].program.id > 0 then Some(trace[i].calls[c].program.id) else None)
            && (phase.Unclosed() || run in trace[i].lostWrites ==>
                row.outcome == if Swept(trace[i], run) then Some(Outcome(-1, false)) else None)
            && (!phase.Unclosed() && run !in trace[i].lostWrites ==>
                  && row.outcome.Some?
                  && (row.outcome.value.success <==> row.outcome.value.exitCode == 0)
                  && (phase.Stuck? ==> row.outcome.value == Outcome(-1, false)))
  {
    InvAlways(trace, i);
    assert run in trace[i].rows ==> RowAgrees(trace[i], c, run);
  }

  /** Rows are those of an earlier process, which only the cleanup changes, and those of this process's runs. */
  ghost predicate RowsAccounted(s: State, earlier: map<RunId, Row>) {
    && earlier.Keys <= s.drawn
    && (forall run <- earlier :: forall c: CallId :: !Made(s, c, run))
    && (forall run <- s.rows ::
          if run in earlier then
            s.rows[run] == if s.swept.Some? then RowSwept(earlier[run], CleanUp) else earlier[run]
          else
            exists c: CallId :: Made(s, c, run))
  }

  lemma RowsAccountedAfter(s: State, a: Action, earlier: map<RunId, Row>)
    requires Inv(s) && Enabled(s, a) && RowsAccounted(s, earlier)
    ensures RowsAccounted(Do(s, a), earlier)
  {
    DrawnOfDo(s, a);
    if a.CreateRow? {
      NewRunUnclosed(s, a);
    }
    forall run <- earlier, c: CallId
      ensures !Made(Do(s, a), c, run)
    {
      MadeAfter(s, a, c, run);
    }
    forall run <- Do(s, a).rows
      ensures if run in earlier then
                Do(s, a).rows[run] == if Do(s, a).swept.Some? then RowSwept(earlier[run], CleanUp) else earlier[run]
              else
                exists c: CallId :: Made(Do(s, a), c, run)
    {
      RowKeysAfter(s, a, run);
      if run in earlier {
        EarlierRowAfter(s, a, earlier, run);
      } else if a.CreateRow? && run == a.run {
        MadeAfter(s, a, a.c, run);
      } else {
        var c: CallId :| Made(s, c, run);
        MadeAfter(s, a, c, run);
      }
    }
    hide Do, Inv, RowSwept, Enabled, Deletes;
  }

  lemma EarlierRowAfter(s: State, a: Action, earlier: map<RunId, Row>, run: RunId)
    requires Enabled(s, a) && RowsAccounted(s, earlier) && run in earlier && run in Do(s, a).rows
    ensures Do(s, a).rows[run] == if Do(s, a).swept.Some? then RowSwept(earlier[run], CleanUp) else earlier[run]
  {
    RowKeysAfter(s, a, run);
    if a.CreateRow? {
      NewRunUnclosed(s, a);
    }
    if Writes(s, a).Some? {
      WriterMade(s, a);
    }
    RowsAfter(s, a, run);
    SweptAfter(s, a, run);
    hide Do, Swept, Enabled, Deletes;
  }

  lemma RowsAlwaysAccounted(trace: seq<State>, i: nat)
    requires IsTrace(trace) && i < |trace|
    ensures RowsAccounted(trace[i], trace[0].rows)
  {
    var earlier := trace[0].rows;
    forall s, a | Inv(s) && Enabled(s, a) && RowsAccounted(s, earlier)
      ensures RowsAccounted(Do(s, a), earlier)
    {
      RowsAccountedAfter(s, a, earlier);
    }
    Persists(trace, 0, i, s => RowsAccounted(s, earlier));
  }

  /**
   If no closing statement was refused, a row is open exactly if it belongs to a launch under way or an unfinished
   run and the cleanup has not met it, or was left open by an earlier process and the cleanup has not been done.
   */
  lemma OpenRowsAreUnfinishedRuns(trace: seq<State>, i: nat, run: RunId)
    requires IsTrace(trace) && i < |trace| && run in trace[i].rows && trace[i].lostWrites == {}
    ensures trace[i].rows[run].outcome.None? <==>
            || (exists c: CallId :: Made(trace[i], c, run) && PhaseOf(trace[i], c).Unclosed() && !Swept(trace[i], run))
            || (trace[i].swept.None? && run in trace[0].rows && trace[0].rows[run].outcome.None?)
  {
    RowsAlwaysAccounted(trace, i);
    forall c: CallId | Made(trace[i], c, run)
      ensures trace[i].rows[run].outcome.None? <==> PhaseOf(trace[i], c).Unclosed() && !Swept(trace[i], run)
    {
      RowClosedExactlyOnce(trace, i, c, run);
    }
  }

  /** A cleanup that comes before the first call of RunProgram leaves no row open, and never meets a run. */
  lemma EarlyCleanupIsExact(trace: seq<State>, k: nat, i: nat, run: RunId)
    requires IsTrace(trace) && k + 1 <= i < |trace|
    requires trace[k].swept.None? && trace[k + 1].swept.Some? && trace[k].calls == []
    requires run in trace[i].rows && trace[i].lostWrites == {}
    ensures trace[i].rows[run].outcome.None? <==>
            exists c: CallId :: Made(trace[i], c, run) && PhaseOf(trace[i], c).Unclosed()
    ensures OpenRows(trace[k + 1].rows) == {}
  {
    assert Next(trace[k], trace[k + 1]);
    OnlyCleanUpSweeps(trace[k], trace[k + 1]);
    CleanupLeavesNoneOpen(trace[k].rows);
    SweptStays(trace, k + 1, i);
    RowsAlwaysAccounted(trace, k);
    RowsAlwaysAccounted(trace, i);
    assert forall d: CallId :: !Made(trace[k], d, run);
    assert run in trace[k].rows ==> run in trace[0].rows;
    assert (exists c: CallId :: Made(trace[i], c, run)) ==> !Swept(trace[i], run);
    OpenRowsAreUnfinishedRuns(trace, i, run);
    hide CleanUpOrphans, Next, Phase.Unclosed;
  }

  lemma OnlyCleanUpSweeps(s: State, t: State)
    requires Next(s, t) && s.swept.None? && t.swept.Some?
    ensures t.rows == CleanUpOrphans(s.rows) && t.swept.value == OpenRows(s.rows)
  {
    var a :| Enabled(s, a) && t == Do(s, a);
    RowsOfDo(s, a);
    hide Do, CleanUpOrphans, OpenRows;
  }

  lemma SweptStays(trace: seq<State>, i: nat, j: nat)
    requires IsTrace(trace) && i <= j < |trace| && trace[i].swept.Some?
    ensures trace[j].swept == trace[i].swept
  {
    var swept := trace[i].swept;
    forall s: State, a | Inv(s) && Enabled(s, a) && s.swept == swept
      ensures Do(s, a).swept == swept
    {
      RowsOfDo(s, a);
    }
    Persists(trace, i, j, (s: State) => s.swept == swept);
  }

  /** The cleanup leaves no row open, loses no row, and changes exactly the open ones. */
  lemma CleanupLeavesNoneOpen(rows: map<RunId, Row>)
    ensures OpenRows(CleanUpOrphans(rows)) == {} && CleanUpOrphans(rows).Keys == rows.Keys
    ensures forall run <- rows :: CleanUpOrphans(rows)[run] == rows[run] <==> rows[run].outcome.Some?
    ensures CleanUpOrphans(CleanUpOrphans(rows)) == CleanUpOrphans(rows)
  {
  }

  /** What it closes of this process's runs: exactly those that are unfinished, and those whose closing was refused. */
  lemma CleanupClosesUnfinishedRuns(trace: seq<State>, i: nat, c: CallId, run: RunId)
    requires IsTrace(trace) && i < |trace| && Enabled(trace[i], CleanUp) && Made(trace[i], c, run)
             && run in trace[i].rows
    ensures run in Do(trace[i], CleanUp).rows
    ensures Do(trace[i], CleanUp).rows[run] != trace[i].rows[run] <==>
            PhaseOf(trace[i], c).Unclosed() || run in trace[i].lostWrites
    ensures Do(trace[i], CleanUp).rows[run] != trace[i].rows[run] ==>
            Do(trace[i], CleanUp).rows[run].outcome == Some(Outcome(-1, false))
  {
    RowClosedExactlyOnce(trace, i, c, run);
  }

  /**
   Such a run can be there: a call made before the cleanup has its row closed as not started while its process is
   alive. The waiter's closing then replaces that outcome.
   */
  lemma CleanupMeetsALiveRun(p: Program) returns (trace: seq<State>, i: nat)
    ensures IsTrace(trace) && i + 2 == |trace| - 1
    ensures trace[i].calls == [Call(p, None, Waiting(1))] && PhaseOf(trace[i], 0).Alive()
    ensures 1 in trace[i].rows && trace[i].rows[1].outcome == Some(Outcome(-1, false))
    ensures 1 in trace[i + 2].rows && trace[i + 2].rows[1].outcome == Some(Outcome(0, true))
  {
    trace := CanWait(p);
    trace := Extend(trace, CleanUp);
    i := |trace| - 1;
    trace := Extend(trace, ProcessEnds(0, Succeeded));
    trace := Extend(trace, CloseRow(0, true));
  }

  // ----- Deleting programs

  /** The trace with the actions that make it. */
  ghost predicate IsTraceBy(trace: seq<State>, actions: seq<Action>) {
    && trace != []
    && Init(trace[0])
    && |actions| == |trace| - 1
    && forall i :: 0 <= i < |actions| ==> Enabled(trace[i], actions[i]) && trace[i + 1] == Do(trace[i], actions[i])
  }

  /** Every trace has actions that make it. */
  lemma {:induction false} ActionsOf(trace: seq<State>) returns (actions: seq<Action>)
    requires IsTrace(trace)
    ensures IsTraceBy(trace, actions)
  {
    hide Do, Enabled, Init;
    actions := [];
    for n := 0 to |trace| - 1
      invariant |actions| == n
      invariant forall i :: 0 <= i < n ==> Enabled(trace[i], actions[i]) && trace[i + 1] == Do(trace[i], actions[i])
    {
      assert Next(trace[n], trace[n + 1]);
      var a :| Enabled(trace[n], a) && trace[n + 1] == Do(trace[n], a);
      actions := actions + [a];
    }
  }

  lemma TraceByIsTrace(trace: seq<State>, actions: seq<Action>)
    requires IsTraceBy(trace, actions)
    ensures IsTrace(trace)
  {
    hide Do, Enabled, Init;
    forall i | 0 <= i < |trace| - 1
      ensures Next(trace[i], trace[i + 1])
    {
      assert Enabled(trace[i], actions[i]);
    }
  }

  /** Between its creation by `c` and state `j` the program of `run` was deleted. */
  ghost predicate DeletedSince(trace: seq<State>, actions: seq<Action>, j: nat, c: CallId, run: RunId)
    requires |actions| == |trace| - 1 && j < |trace| && c < |trace[j].calls|
  {
    var id := trace[j].calls[c].program.id;
    exists i :: 0 <= i < j && Made(trace[i], c, run) && DeletesProgram(actions[i], id)
  }

  predicate DeletesProgram(a: Action, id: int) {
    a.DeletePrograms? && id > 0 && id in a.ids
  }

  lemma MadeStays(trace: seq<State>, i: nat, j: nat, c: CallId, run: RunId)
    requires IsTrace(trace) && i <= j < |trace| && Made(trace[i], c, run)
    ensures Made(trace[j], c, run)
  {
    forall s, a | Inv(s) && Enabled(s, a) && Made(s, c, run)
      ensures Made(Do(s, a), c, run)
    {
      MadeAfter(s, a, c, run);
    }
    Persists(trace, i, j, s => Made(s, c, run));
  }

  lemma RowThereAfter(s: State, a: Action, c: CallId, run: RunId)
    requires Inv(s) && Enabled(s, a) && Made(s, c, run)
    ensures run in Do(s, a).rows <==> run in s.rows && !DeletesProgram(a, s.calls[c].program.id)
  {
    RowKeysAfter(s, a, run);
    if a.CreateRow? {
      NewRunUnclosed(s, a);
    }
    assert run in s.rows ==> RowAgrees(s, c, run);
    hide Do, Enabled, Ownership, MapsExact, RestartsSkip;
  }

  lemma DeletedByNow(trace: seq<State>, actions: seq<Action>, j: nat, c: CallId, run: RunId)
    requires |actions| == |trace| - 1 && 0 < j < |trace| && Made(trace[j - 1], c, run)
    requires c < |trace[j].calls| && trace[j].calls[c].program == trace[j - 1].calls[c].program
    ensures DeletedSince(trace, actions, j, c, run) <==>
            DeletedSince(trace, actions, j - 1, c, run) || DeletesProgram(actions[j - 1], trace[j].calls[c].program.id)
  {
    hide Made, DeletesProgram;
  }

  /** A run that has just been made was not there before. */
  lemma NotMadeBefore(trace: seq<State>, actions: seq<Action>, j: nat, c: CallId, run: RunId)
    requires IsTrace(trace) && |actions| == |trace| - 1 && 0 < j < |trace|
    requires !Made(trace[j - 1], c, run) && c < |trace[j].calls|
    ensures !DeletedSince(trace, actions, j, c, run)
  {
    hide IsTrace, DeletesProgram;
    forall i | 0 <= i < j
      ensures !Made(trace[i], c, run)
    {
      if Made(trace[i], c, run) {
        MadeStays(trace, i, j - 1, c, run);
      }
    }
    hide Made;
  }

  lemma RowStep(s: State, a: Action, c: CallId, run: RunId)
    requires Inv(s) && Enabled(s, a) && Made(Do(s, a), c, run)
    ensures c < |Do(s, a).calls| && (Made(s, c, run) ==> Do(s, a).calls[c].program == s.calls[c].program)
    ensures if Made(s, c, run) then run in Do(s, a).rows <==> run in s.rows && !DeletesProgram(a, s.calls[c].program.id)
            else run in Do(s, a).rows
  {
    MadeAfter(s, a, c, run);
    OthersUntouched(s, a);
    if Made(s, c, run) {
      RowThereAfter(s, a, c, run);
    } else {
      NewRowAfter(s, a);
    }
    hide Do, Enabled, Inv, NextPhase, DeletesProgram, Phase.Run;
  }

  /** A run's row is there exactly if its program has not been deleted since; runs without a program keep theirs. */
  lemma {:induction false} RowIsThereUnlessDeleted(trace: seq<State>, actions: seq<Action>, j: nat, c: CallId,
      run: RunId)
    requires IsTraceBy(trace, actions) && j < |trace| && Made(trace[j], c, run)
    ensures run in trace[j].rows <==> !DeletedSince(trace, actions, j, c, run)
  {
    hide Do, Enabled, Inv, Init, IsTrace, Made, DeletedSince, DeletesProgram;
    TraceByIsTrace(trace, actions);
    NothingMadeAtFirst(trace, c, run);
    var (s, a) := (trace[j - 1], actions[j - 1]);
    assert Enabled(s, a) && trace[j - 1 + 1] == Do(s, a);
    InvAlways(trace, j - 1);
    RowStep(s, a, c, run);
    if Made(s, c, run) {
      RowIsThereUnlessDeleted(trace, actions, j - 1, c, run);
      DeletedByNow(trace, actions, j, c, run);
    } else {
      NotMadeBefore(trace, actions, j, c, run);
    }
  }

  lemma NothingMadeAtFirst(trace: seq<State>, c: CallId, run: RunId)
    requires IsTrace(trace)
    ensures !Made(trace[0], c, run)
  {
  }

  /** The row of an earlier process is there exactly if its program has not been deleted. */
  lemma {:induction false} EarlierRowIsThereUnlessDeleted(trace: seq<State>, actions: seq<Action>, j: nat, run: RunId)
    requires IsTraceBy(trace, actions) && j < |trace| && run in trace[0].rows
    ensures run in trace[j].rows <==>
            forall i :: 0 <= i < j && actions[i].DeletePrograms? ==>
              trace[0].rows[run].programId.None? || trace[0].rows[run].programId.value !in actions[i].ids
  {
    hide Do, Enabled, Inv, Init, IsTrace, RowsAccounted;
    if j > 0 {
      EarlierRowIsThereUnlessDeleted(trace, actions, j - 1, run);
      TraceByIsTrace(trace, actions);
      var (s, a) := (trace[j - 1], actions[j - 1]);
      assert Enabled(s, a) && trace[j - 1 + 1] == Do(s, a);
      EarlierRowStep(trace, j - 1, a, run);
    }
  }

  lemma EarlierRowStep(trace: seq<State>, i: nat, a: Action, run: RunId)
    requires IsTrace(trace) && i < |trace| && Enabled(trace[i], a) && run in trace[0].rows
    ensures run in Do(trace[i], a).rows <==>
            run in trace[i].rows
            && !(a.DeletePrograms? && trace[0].rows[run].programId.Some?
                 && trace[0].rows[run].programId.value in a.ids)
  {
    RowsAlwaysAccounted(trace, i);
    RowKeysAfter(trace[i], a, run);
    if a.CreateRow? {
      NewRunUnclosed(trace[i], a);
    }
    hide Do, Enabled, IsTrace;
  }

  /** A run whose row has gone never gets it back, so what its waiter writes then is stored nowhere. */
  lemma DeletedForGood(trace: seq<State>, i: nat, j: nat, run: RunId)
    requires IsTrace(trace) && i <= j < |trace| && run in trace[i].drawn && run !in trace[i].rows
    ensures run !in trace[j].rows
  {
    var gone := (s: State) => run in s.drawn && run !in s.rows;
    forall s, a | Inv(s) && Enabled(s, a) && gone(s)
      ensures gone(Do(s, a))
    {
      RowKeysAfter(s, a, run);
      DrawnOfDo(s, a);
      if a.CreateRow? {
        NewRunUnclosed(s, a);
      }
    }
    Persists(trace, i, j, gone);
  }

  /**
   Such a run can be live: its program is deleted while the process runs. The process then fails, its waiter closes
   the run without an error, and no row says so.
   */
  lemma LiveRunLosesItsRow(p: Program) returns (trace: seq<State>, i: nat)
    requires p.id > 0
    ensures IsTrace(trace) && i + 2 == |trace| - 1
    ensures trace[i].calls == [Call(p, None, Waiting(1))] && PhaseOf(trace[i], 0).Alive() && trace[i].rows == map[]
    ensures trace[i + 2].calls == [Call(p, None, Closed(1, false))] && trace[i + 2].lostWrites == {}
    ensures trace[i + 2].closings[1] == 1 && trace[i + 2].rows == map[]
  {
    trace := CanWait(p);
    trace := Extend(trace, DeletePrograms({p.id}));
    i := |trace| - 1;
    trace := Extend(trace, ProcessEnds(0, ExitError(7)));
    trace := Extend(trace, CloseRow(0, true));
  }
}
