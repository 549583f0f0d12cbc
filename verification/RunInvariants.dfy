/** What every reachable state of the run life cycle satisfies. */
module RunInvariants {
  import opened Base
  import opened RunLifecycle

  // ----- The invariant

  /** Call `c` holds the reservation of program `id`. */
  predicate Owns(s: State, c: CallId, id: int) {
    c < |s.calls| && PhaseOf(s, c).Holds() && s.calls[c].program.id == id
  }

  ghost predicate Ownership(s: State) {
    && (forall id | id in s.shared.running && id > 0 :: exists c: CallId :: Owns(s, c, id))
    && (forall c: CallId, id | Owns(s, c, id) && id > 0 :: id in s.shared.running)
    && (forall c: CallId, d: CallId, id | Owns(s, c, id) && Owns(s, d, id) && id > 0 :: c == d)
  }

  /** `run` was created by call `c`. */
  predicate Made(s: State, c: CallId, run: RunId) {
    c < |s.calls| && PhaseOf(s, c).Run() == Some(run)
  }

  ghost predicate RunsDistinct(s: State) {
    && s.rows.Keys <= s.drawn
    && (forall c: CallId, run | Made(s, c, run) :: run in s.drawn)
    && (forall c: CallId, d: CallId, run | Made(s, c, run) && Made(s, d, run) :: c == d)
  }

  /** Call `c` has `run` registered. */
  predicate Listed(s: State, c: CallId, run: RunId) {
    Made(s, c, run) && PhaseOf(s, c).InMaps()
  }

  /** Call `c` and the entry of `run` in the map agree. */
  predicate EntryAgrees(s: State, c: CallId, run: RunId) {
    && c < |s.calls|
    && run in s.shared.activeRuns
    && s.shared.activeRuns[run].programId == s.calls[c].program.id
    && s.shared.activeRuns[run].name == s.calls[c].program.name
    && run in s.shared.activeCmds
    && s.shared.activeCmds[run] == s.shared.activeRuns[run].pid
  }

  ghost predicate MapsExact(s: State) {
    && s.shared.activeCmds.Keys == s.shared.activeRuns.Keys
    && (forall c: CallId, run | Listed(s, c, run) :: EntryAgrees(s, c, run))
    && (forall run | run in s.shared.activeRuns :: exists c: CallId :: Listed(s, c, run))
  }

  function GroupSize(calls: seq<Call>): nat {
    if calls == [] then
      0
    else
      GroupSize(calls[..|calls| - 1]) + if calls[|calls| - 1].phase.InGroup() then 1 else 0
  }

  predicate Swept(s: State, run: RunId) {
    s.swept.Some? && run in s.swept.value
  }

  /** What a row holds while no closing of its own is stored. */
  function Unstored(swept: bool): Option<Outcome> {
    if swept then Some(NOT_STARTED) else None
  }

  /** A row of program `id` whose call stands at `phase`. */
  predicate RowFits(row: Row, id: int, phase: Phase, swept: bool, lost: bool) {
    && row.programId == (if id > 0 then Some(id) else None)
    && if phase.Unclosed() then
      row.outcome == Unstored(swept) && !lost
    else if lost then
      row.outcome == Unstored(swept)
    else
      && row.outcome.Some?
      && (row.outcome.value.success <==> row.outcome.value.exitCode == 0)
      && (phase.Stuck? ==> row.outcome.value == NOT_STARTED)
  }

  /** The row of a run agrees with where its call stands. */
  predicate RowAgrees(s: State, c: CallId, run: RunId)
    requires Made(s, c, run) && run in s.rows
  {
    RowFits(s.rows[run], s.calls[c].program.id, PhaseOf(s, c), Swept(s, run), run in s.lostWrites)
  }

  /** One closing statement is issued for each run, and only one can be refused. */
  ghost predicate ClosedOnce(s: State) {
    && (forall run | run in s.closings :: run in s.drawn)
    && (forall run | run in s.lostWrites :: run in s.closings)
    && (forall c: CallId, run | Made(s, c, run) :: s.closings[run] == if PhaseOf(s, c).Unclosed() then 0 else 1)
  }

  ghost predicate RowsMatch(s: State) {
    forall c: CallId, run | Made(s, c, run) && run in s.rows :: RowAgrees(s, c, run)
  }

  /** Rows that are open after the cleanup, and lost closings, are those of runs; the cleanup met rows only. */
  ghost predicate RowsOwned(s: State) {
    && (forall run | run in s.rows && s.rows[run].outcome.None? && s.swept.Some? :: exists c: CallId :: Made(s, c, run))
    && (forall run | Swept(s, run) :: run in s.drawn)
    && (forall run | run in s.lostWrites :: exists c: CallId :: Made(s, c, run))
  }

  ghost predicate ExitsPossible(s: State) {
    forall c: CallId | c < |s.calls| && PhaseOf(s, c).Exited? :: PhaseOf(s, c).result.Possible()
  }

  ghost predicate RowsAgree(s: State) {
    ClosedOnce(s) && RowsMatch(s) && RowsOwned(s) && ExitsPossible(s)
  }

  /** The parent of a restart is a run of the same program, past its restart branch. */
  predicate HasParent(s: State, c: CallId)
    requires c < |s.calls| && s.calls[c].parent.Some?
  {
    var p := s.calls[c].parent.value;
    && p < |s.calls|
    && PhaseOf(s, p).PastDecision()
    && s.calls[p].program == s.calls[c].program
  }

  /** A restart that has not returned has just called, or has been skipped. */
  ghost predicate RestartsSkip(s: State) {
    && (forall c: CallId | c < |s.calls| && s.calls[c].parent.Some? && s.calls[c].program.id > 0 ::
          PhaseOf(s, c).Called? || PhaseOf(s, c).Skipped?)
    && (forall c: CallId | c < |s.calls| && s.calls[c].parent.Some? :: HasParent(s, c))
    && (forall c: CallId | c < |s.calls| && s.calls[c].parent.Some? && PhaseOf(s, c).Called? ::
          var p := s.calls[c].parent.value;
          && p < |s.calls|
          && PhaseOf(s, p).Restarting? && PhaseOf(s, p).child == c
          && s.calls[p].program == s.calls[c].program)
  }

  ghost predicate Inv(s: State) {
    && Ownership(s)
    && RunsDistinct(s)
    && MapsExact(s)
    && s.shared.wg == GroupSize(s.calls)
    && RowsAgree(s)
    && RestartsSkip(s)
  }

  // ----- Preservation

  /** The call an action belongs to, if any. */
  function Actor(a: Action): Option<CallId> {
    match a
    case Trigger(_) => None
    case CronFires(_) => None
    case StopJob(_, _) => None
    case StopCron => None
    case Reload(_) => None
    case CleanUp => None
    case DeletePrograms(_) => None
    case _ => Some(a.c)
  }

  /** Where the acting call stands after an action. */
  function NextPhase(s: State, a: Action): Phase
    requires Enabled(s, a) && Actor(a).Some?
  {
    var phase := PhaseOf(s, a.c);
    match a
    case TryReserve(c) => if ReserveIn(s.shared, s.calls[c].program).None? then Skipped else Reserved
    case CreateRow(_, run) => RowMade(run)
    case CreateRowFails(_) => CreateFailed
    case Release(_) => Abandoned
    case StartProcess(_, pid) => Started(phase.run, pid)
    case StartFails(_) => StartFailed(phase.run)
    case CloseUnstarted(_, _) => Stuck(phase.run)
    case AddToGroup(_) => Counted(phase.run, phase.pid)
    case Register(_) => Registered(phase.run)
    case SpawnWaiter(_) => Waiting(phase.run)
    case ProcessEnds(_, result) => Exited(phase.run, result)
    case CloseRow(_, _) => Closed(phase.run, phase.result.Closing().success)
    case ReadFlag(_) => Decided(phase.run, phase.success, CancelledIn(s.shared, phase.run))
    case Decide(_) => if Restarts(s, a) then Restarting(phase.run, |s.calls|) else Leaving(phase.run)
    case RestartReturns(_) => Leaving(phase.run)
    case Clear(_) => Cleared(phase.run)
    case LeaveGroup(_) => Finished(phase.run)
  }

  /** The action takes the restart branch. */
  predicate Restarts(s: State, a: Action)
    requires Enabled(s, a)
  {
    a.Decide? && s.calls[a.c].program.restartOnExit && !PhaseOf(s, a.c).success && !PhaseOf(s, a.c).cancelled
  }

  function CallsAfter(s: State, a: Action): seq<Call>
    requires Enabled(s, a)
  {
    match Actor(a)
    case None => if a.Trigger? || a.CronFires? then s.calls + [Call(a.p, None, Called)] else s.calls
    case Some(c) =>
      var moved := s.calls[c := s.calls[c].(phase := NextPhase(s, a))];
      if Restarts(s, a) then moved + [Call(s.calls[c].program, Some(c), Called)] else moved
  }

  /** The outcome an action writes into the row of its run. */
  function Writes(s: State, a: Action): Option<Outcome>
    requires Enabled(s, a)
  {
    match a
    case CloseUnstarted(_, _) => Some(NOT_STARTED)
    case CloseRow(c, _) => Some(PhaseOf(s, c).result.Closing())
    case _ => None
  }

  lemma CallsOfDo(s: State, a: Action)
    requires Enabled(s, a)
    ensures Do(s, a).calls == CallsAfter(s, a)
  {
  }

  lemma RowsOfDo(s: State, a: Action)
    requires Enabled(s, a)
    ensures a.CreateRow? ==> Do(s, a).rows == s.rows[a.run := NewRow(s.calls[a.c].program)]
    ensures Writes(s, a).Some? ==> Do(s, a).rows == CloseIn(s, PhaseOf(s, a.c).run, Writes(s, a).value, a.stored).rows
    ensures a.CleanUp? ==> Do(s, a).rows == CleanUpOrphans(s.rows)
    ensures a.DeletePrograms? ==> Do(s, a).rows == WithoutPrograms(s.rows, a.ids)
    ensures !a.CreateRow? && !a.CleanUp? && !a.DeletePrograms? && Writes(s, a).None? ==> Do(s, a).rows == s.rows
    ensures Do(s, a).swept == if a.CleanUp? then Some(OpenRows(s.rows)) else s.swept
  {
  }

  lemma DrawnOfDo(s: State, a: Action)
    requires Enabled(s, a)
    ensures Do(s, a).drawn == s.drawn + if a.CreateRow? then {a.run} else {}
  {
  }

  lemma ClosingsOfDo(s: State, a: Action)
    requires Enabled(s, a)
    ensures Do(s, a).closings == s.closings + if Writes(s, a).Some? then multiset{PhaseOf(s, a.c).run} else multiset{}
  {
  }

  lemma LostOfDo(s: State, a: Action)
    requires Enabled(s, a)
    ensures Do(s, a).lostWrites ==
            s.lostWrites + if Writes(s, a).Some? && !a.stored then {PhaseOf(s, a.c).run} else {}
  {
  }

  lemma SharedOfDo(s: State, a: Action)
    requires Enabled(s, a)
    ensures Do(s, a).shared ==
            match a
            case TryReserve(c) =>
                (var r := ReserveIn(s.shared, s.calls[c].program); if r.None? then s.shared else r.value)
            case Release(c) => ReleaseIn(s.shared, s.calls[c].program.id)
            case AddToGroup(_) => s.shared.(wg := s.shared.wg + 1)
            case Register(c) =>
              RegisterIn(s.shared, PhaseOf(s, c).run,
                  RunInfo(s.calls[c].program.id, s.calls[c].program.name, PhaseOf(s, c).pid, false))
            case Clear(c) => ClearIn(s.shared, PhaseOf(s, c).run, s.calls[c].program.id)
            case LeaveGroup(_) => s.shared.(wg := s.shared.wg - 1)
            case StopJob(_, run) => CancelIn(s.shared, run)
            case StopCron => s.shared.(cronOn := false)
            case Reload(loaded) => ReloadIn(s.shared, loaded)
            case _ => s.shared
  {
  }

  /** The acting call moves on; every other call is untouched; at most one call is added. */
  lemma OthersUntouched(s: State, a: Action)
    requires Enabled(s, a)
    ensures var t := Do(s, a);
            && |s.calls| <= |t.calls| <= |s.calls| + 1
            && (forall d :: 0 <= d < |s.calls| && Actor(a) != Some(d) ==> t.calls[d] == s.calls[d])
            && (forall d :: 0 <= d < |s.calls| ==>
                t.calls[d].program == s.calls[d].program && t.calls[d].parent == s.calls[d].parent)
            && (|t.calls| > |s.calls| ==> t.calls[|s.calls|].phase == Called)
            && (Actor(a).Some? ==> a.c < |s.calls| && PhaseOf(t, a.c) == NextPhase(s, a))
  {
    CallsOfDo(s, a);
    hide Do, NextPhase;
  }

  /** The program ID an action puts into `running`, and the one it deletes. */
  function Takes(s: State, a: Action): set<int>
    requires Enabled(s, a)
  {
    if a.TryReserve? && ReserveIn(s.shared, s.calls[a.c].program).Some? then {s.calls[a.c].program.id} else {}
  }

  function Drops(s: State, a: Action): set<int>
    requires Enabled(s, a)
  {
    if a.Release? || a.Clear? then {s.calls[a.c].program.id} else {}
  }

  /** What an action does to each thing a phase stands for. */
  lemma PhaseShape(s: State, a: Action)
    requires Enabled(s, a) && Actor(a).Some?
    ensures var (p, q) := (PhaseOf(s, a.c), NextPhase(s, a));
            && q.Run() == (if a.CreateRow? then Some(a.run) else p.Run())
            && (a.CreateRow? ==> p.Run().None?)
            && (a.Register? || a.Clear? ==> p.Run() == Some(p.run))
            && (q.InMaps() <==> (p.InMaps() && !a.Clear?) || a.Register?)
            && (q.InGroup() <==> (p.InGroup() || a.AddToGroup?) && !a.LeaveGroup?)
            && (a.AddToGroup? ==> !p.InGroup()) && (a.LeaveGroup? ==> p.InGroup())
  {
    match a {
      case TryReserve(_) =>
      case CreateRow(_, _) =>
      case CreateRowFails(_) =>
      case Release(_) =>
      case StartProcess(_, _) =>
      case StartFails(_) =>
      case CloseUnstarted(_, _) =>
      case AddToGroup(_) =>
      case Register(_) =>
      case SpawnWaiter(_) =>
      case ProcessEnds(_, _) =>
      case CloseRow(_, _) =>
      case ReadFlag(_) =>
      case Decide(_) =>
      case RestartReturns(_) =>
      case Clear(_) =>
      case LeaveGroup(_) =>
    }
  }

  /** Once past the decision a call stays there; the row is written while it is unclosed, and then no more. */
  lemma ProgressShape(s: State, a: Action)
    requires Enabled(s, a) && Actor(a).Some?
    ensures var (p, q) := (PhaseOf(s, a.c), NextPhase(s, a));
            && (p.PastDecision() ==> q.PastDecision())
            && (Restarts(s, a) ==> q.PastDecision())
            && (a.CreateRow? ==> q.Unclosed())
            && (p.Run().Some? ==> (q.Unclosed() <==> p.Unclosed() && Writes(s, a).None?))
            && (Writes(s, a).Some? ==>
                p.Unclosed() && p.Run() == Some(p.run) && (q.Stuck? ==> Writes(s, a).value == NOT_STARTED))
            && (Writes(s, a).None? ==> (q.Stuck? <==> p.Stuck?))
  {
    match a {
      case TryReserve(_) =>
      case CreateRow(_, _) =>
      case CreateRowFails(_) =>
      case Release(_) =>
      case StartProcess(_, _) =>
      case StartFails(_) =>
      case CloseUnstarted(_, _) =>
      case AddToGroup(_) =>
      case Register(_) =>
      case SpawnWaiter(_) =>
      case ProcessEnds(_, _) =>
      case CloseRow(_, _) =>
      case ReadFlag(_) =>
      case Decide(_) =>
      case RestartReturns(_) =>
      case Clear(_) =>
      case LeaveGroup(_) =>
    }
  }

  lemma HoldsShape(s: State, a: Action)
    requires Enabled(s, a) && Actor(a).Some?
    ensures var (p, q) := (PhaseOf(s, a.c), NextPhase(s, a));
            && (q.Holds() <==> (p.Holds() || Takes(s, a) != {}) && Drops(s, a) == {})
            && (Takes(s, a) != {} ==> !p.Holds())
            && (Drops(s, a) != {} ==> p.Holds())
  {
    match a {
      case TryReserve(_) =>
      case CreateRow(_, _) =>
      case CreateRowFails(_) =>
      case Release(_) =>
      case StartProcess(_, _) =>
      case StartFails(_) =>
      case CloseUnstarted(_, _) =>
      case Clear(_) =>
      case _ =>
    }
  }

  lemma RunningAfter(s: State, a: Action)
    requires Enabled(s, a)
    ensures Do(s, a).shared.running == s.shared.running + Takes(s, a) - Drops(s, a)
  {
    SharedOfDo(s, a);
    hide Do;
  }

  lemma OwnershipShape(s: State, a: Action)
    requires Enabled(s, a)
    ensures Do(s, a).shared.running == s.shared.running + Takes(s, a) - Drops(s, a)
    ensures Actor(a).Some? ==> var c := Actor(a).value;
              && c < |s.calls|
              && (PhaseOf(Do(s, a), c).Holds() <==> (PhaseOf(s, c).Holds() || Takes(s, a) != {}) && Drops(s, a) == {})
              && (Takes(s, a) != {} ==> !PhaseOf(s, c).Holds() && Takes(s, a) == {s.calls[c].program.id})
              && (Drops(s, a) != {} ==> PhaseOf(s, c).Holds() && Drops(s, a) == {s.calls[c].program.id})
    ensures Actor(a).None? ==> Takes(s, a) == Drops(s, a) == {}
  {
    RunningAfter(s, a);
    OthersUntouched(s, a);
    if Actor(a).Some? {
      HoldsShape(s, a);
    }
    hide Do, NextPhase, Phase.Holds;
  }

  /** Who holds which program after an action. */
  lemma OwnsAfter(s: State, a: Action, c: CallId, id: int)
    requires Enabled(s, a)
    ensures Owns(Do(s, a), c, id) <==>
            || (Owns(s, c, id) && !(Actor(a) == Some(c) && Drops(s, a) != {}))
            || (Actor(a) == Some(c) && Takes(s, a) == {id})
  {
    CalledHasNothing();
    if Actor(a) == Some(c) {
      OthersUntouched(s, a);
      OwnershipShape(s, a);
    } else {
      Bystander(s, a, c);
    }
    hide Do, Enabled, NextPhase, Phase.Holds, Takes, Drops;
  }

  lemma OwnershipPreserved(s: State, a: Action)
    requires Ownership(s) && Enabled(s, a)
    ensures Ownership(Do(s, a))
  {
    var t := Do(s, a);
    OwnershipShape(s, a);
    forall c: CallId, id
      ensures Owns(t, c, id) <==>
              || (Owns(s, c, id) && !(Actor(a) == Some(c) && Drops(s, a) != {}))
              || (Actor(a) == Some(c) && Takes(s, a) == {id})
    {
      OwnsAfter(s, a, c, id);
    }
    OwnershipFromShape(s, t, Actor(a), Takes(s, a), Drops(s, a));
  }

  lemma OwnershipFromShape(s: State, t: State, actor: Option<CallId>, takes: set<int>, drops: set<int>)
    requires Ownership(s)
    requires t.shared.running == s.shared.running + takes - drops
    requires actor.None? ==> takes == drops == {}
    requires takes == {} || (drops == {} && exists id :: takes == {id} && (id > 0 ==> id !in s.shared.running))
    requires drops == {} || exists id :: drops == {id} && Owns(s, actor.value, id)
    requires forall c: CallId, id :: Owns(t, c, id) <==>
               (Owns(s, c, id) && !(actor == Some(c) && drops != {})) || (actor == Some(c) && takes == {id})
    ensures Ownership(t)
  {
    forall id | id in t.shared.running && id > 0
      ensures exists c: CallId :: Owns(t, c, id)
    {
      if id in s.shared.running {
        var c: CallId :| Owns(s, c, id);
        assert Owns(t, c, id);
      } else {
        assert id in takes;
        assert Owns(t, actor.value, id);
      }
    }
  }

  // ----- Runs and the two maps

  /** What of a call is the same after an action of another call. */
  lemma Bystander(s: State, a: Action, c: CallId)
    requires Enabled(s, a) && Actor(a) != Some(c)
    ensures c < |s.calls| ==> c < |Do(s, a).calls| && Do(s, a).calls[c] == s.calls[c]
    ensures |s.calls| <= c < |Do(s, a).calls| ==> Do(s, a).calls[c].phase == Called
  {
    OthersUntouched(s, a);
    hide Do, NextPhase, Enabled;
  }

  lemma MadeAfter(s: State, a: Action, c: CallId, run: RunId)
    requires Enabled(s, a)
    ensures Made(Do(s, a), c, run) <==> Made(s, c, run) || a == CreateRow(c, run)
  {
    if Actor(a) == Some(c) {
      OthersUntouched(s, a);
      PhaseShape(s, a);
    } else {
      Bystander(s, a, c);
    }
    hide Do, NextPhase, Phase.Run, Enabled;
    assert Called.Run() == None by {
      CalledHasNothing();
    }
  }

  lemma CalledHasNothing()
    ensures Called.Run() == None && !Called.InMaps() && !Called.Holds() && !Called.InGroup()
  {
  }

  /** The action removes the row by cascade. */
  predicate Deletes(a: Action, row: Row) {
    a.DeletePrograms? && OfPrograms(row, a.ids)
  }

  lemma RowKeysAfter(s: State, a: Action, run: RunId)
    requires Enabled(s, a)
    ensures run in Do(s, a).rows <==>
            (run in s.rows && !Deletes(a, s.rows[run])) || (a.CreateRow? && run == a.run)
  {
    RowsOfDo(s, a);
    hide Do;
  }

  lemma RunsDistinctPreserved(s: State, a: Action)
    requires RunsDistinct(s) && Enabled(s, a)
    ensures RunsDistinct(Do(s, a))
  {
    var t := Do(s, a);
    DrawnOfDo(s, a);
    forall run | run in t.rows
      ensures run in t.drawn
    {
      RowKeysAfter(s, a, run);
    }
    hide Do;
    forall c: CallId, run
      ensures Made(t, c, run) <==> Made(s, c, run) || a == CreateRow(c, run)
    {
      MadeAfter(s, a, c, run);
    }
    forall c: CallId, d: CallId, run | Made(t, c, run) && Made(t, d, run)
      ensures c == d
    {
      if a == CreateRow(c, run) || a == CreateRow(d, run) {
        assert run !in s.drawn;
      }
    }
  }

  lemma ListedAfter(s: State, a: Action, c: CallId, run: RunId)
    requires Enabled(s, a)
    ensures Listed(Do(s, a), c, run) <==>
            (Listed(s, c, run) && a != Clear(c)) || (a == Register(c) && PhaseOf(s, c).run == run)
  {
    MadeAfter(s, a, c, run);
    CalledHasNothing();
    if Actor(a) == Some(c) {
      OthersUntouched(s, a);
      PhaseShape(s, a);
    } else {
      Bystander(s, a, c);
    }
    hide Do, NextPhase, Phase.Run, Phase.InMaps, Enabled;
  }

  lemma MapsAfter(s: State, a: Action)
    requires Enabled(s, a)
    ensures var (sh, sh') := (s.shared, Do(s, a).shared);
            if a.Register? then
              var (run, c) := (PhaseOf(s, a.c).run, s.calls[a.c]);
              sh' == RegisterIn(sh, run, RunInfo(c.program.id, c.program.name, PhaseOf(s, a.c).pid, false))
            else if a.Clear? then
              sh'.activeCmds == sh.activeCmds - {PhaseOf(s, a.c).run}
                  && sh'.activeRuns == sh.activeRuns - {PhaseOf(s, a.c).run}
            else if a.StopJob? then
              sh' == CancelIn(sh, a.run)
            else
              sh'.activeCmds == sh.activeCmds && sh'.activeRuns == sh.activeRuns
  {
    SharedOfDo(s, a);
    hide Do;
  }

  lemma EntryAgreesAfter(s: State, a: Action, c: CallId, run: RunId)
    requires MapsExact(s) && RunsDistinct(s) && Enabled(s, a) && Listed(Do(s, a), c, run)
    ensures EntryAgrees(Do(s, a), c, run)
  {
    ListedAfter(s, a, c, run);
    OthersUntouched(s, a);
    hide Do, NextPhase, Phase.Run, Phase.InMaps, Enabled;
    if a.Register? {
      MapsAfter(s, a);
    }
    if !Listed(s, c, run) {
      assert a == Register(c) && PhaseOf(s, c).run == run;
    } else {
      if a.Register? || a.Clear? {
        RunOfOther(s, a, c, run);
      }
      EntryKept(s, a, run);
    }
  }

  /** An entry that is not registered or cleared keeps all but its flag. */
  lemma EntryKept(s: State, a: Action, run: RunId)
    requires Enabled(s, a) && (a.Register? || a.Clear? ==> PhaseOf(s, a.c).run != run)
    requires run in s.shared.activeRuns && run in s.shared.activeCmds
    ensures var (sh, sh') := (s.shared, Do(s, a).shared);
            && run in sh'.activeRuns && run in sh'.activeCmds && sh'.activeCmds[run] == sh.activeCmds[run]
            && sh'.activeRuns[run].pid == sh.activeRuns[run].pid && sh'.activeRuns[run].name == sh.activeRuns[run].name
            && sh'.activeRuns[run].programId == sh.activeRuns[run].programId
  {
    MapsAfter(s, a);
    hide Do, Enabled;
  }

  /** A registration or cleanup by another call is about another run. */
  lemma RunOfOther(s: State, a: Action, c: CallId, run: RunId)
    requires RunsDistinct(s) && Enabled(s, a) && (a.Register? || a.Clear?) && Made(s, c, run)
    ensures PhaseOf(s, a.c).run == run ==> a.c == c
  {
    PhaseShape(s, a);
    assert Made(s, a.c, PhaseOf(s, a.c).run);
  }

  lemma EntryHasCallAfter(s: State, a: Action, run: RunId)
    requires MapsExact(s) && RunsDistinct(s) && Enabled(s, a) && run in Do(s, a).shared.activeRuns
    ensures exists c: CallId :: Listed(Do(s, a), c, run)
  {
    MapsAfter(s, a);
    hide Do, NextPhase, Phase.Run, Phase.InMaps;
    if a.Register? && run == PhaseOf(s, a.c).run {
      ListedAfter(s, a, a.c, run);
    } else {
      var c: CallId :| Listed(s, c, run);
      ListedAfter(s, a, c, run);
    }
  }

  lemma MapsExactPreserved(s: State, a: Action)
    requires MapsExact(s) && RunsDistinct(s) && Enabled(s, a)
    ensures MapsExact(Do(s, a))
  {
    var t := Do(s, a);
    MapsAfter(s, a);
    hide Do, NextPhase, Phase.Run, Phase.InMaps, Enabled;
    forall c: CallId, run | Listed(t, c, run)
      ensures EntryAgrees(t, c, run)
    {
      EntryAgreesAfter(s, a, c, run);
    }
    forall run | run in t.shared.activeRuns
      ensures exists c: CallId :: Listed(t, c, run)
    {
      EntryHasCallAfter(s, a, run);
    }
  }

  // ----- The wait group

  lemma {:induction false} GroupSizeUpdate(calls: seq<Call>, c: CallId, call: Call)
    requires c < |calls|
    ensures GroupSize(calls[c := call]) + (if calls[c].phase.InGroup() then 1 else 0)
            == GroupSize(calls) + if call.phase.InGroup() then 1 else 0
  {
    var n := |calls| - 1;
    if c == n {
      assert calls[c := call][..n] == calls[..n];
    } else {
      assert calls[c := call][..n] == calls[..n][c := call];
      GroupSizeUpdate(calls[..n], c, call);
    }
  }

  lemma GroupSizeAppend(calls: seq<Call>, call: Call)
    ensures GroupSize(calls + [call]) == GroupSize(calls) + if call.phase.InGroup() then 1 else 0
  {
    assert (calls + [call])[..|calls|] == calls;
  }

  lemma GroupAfter(s: State, a: Action)
    requires Enabled(s, a)
    ensures var d := if a.AddToGroup? then 1 else if a.LeaveGroup? then -1 else 0;
            && Do(s, a).shared.wg == s.shared.wg + d
            && (Actor(a).Some? ==>
                  (if PhaseOf(Do(s, a), Actor(a).value).InGroup() then 1 else 0)
                  == d + if PhaseOf(s, Actor(a).value).InGroup() then 1 else 0)
            && (Actor(a).None? ==> d == 0)
  {
    SharedOfDo(s, a);
    OthersUntouched(s, a);
    if Actor(a).Some? {
      PhaseShape(s, a);
    }
    hide Do, NextPhase, Phase.InGroup, Phase.Run, Phase.InMaps;
  }

  lemma GroupPreserved(s: State, a: Action)
    requires s.shared.wg == GroupSize(s.calls) && Enabled(s, a)
    ensures Do(s, a).shared.wg == GroupSize(Do(s, a).calls)
  {
    CalledHasNothing();
    hide Do, Enabled, NextPhase, Phase.InGroup, GroupSize, Restarts, PhaseOf;
    GroupAfter(s, a);
    OthersUntouched(s, a);
    CallsOfDo(s, a);
    if Actor(a).Some? {
      MovedCallsGroup(s, a);
    } else if a.Trigger? || a.CronFires? {
      GroupSizeAppend(s.calls, Call(a.p, None, Called));
    }
  }

  lemma MovedCallsGroup(s: State, a: Action)
    requires Enabled(s, a) && Actor(a).Some?
    ensures a.c < |s.calls|
    ensures GroupSize(CallsAfter(s, a)) + (if PhaseOf(s, a.c).InGroup() then 1 else 0)
            == GroupSize(s.calls) + if NextPhase(s, a).InGroup() then 1 else 0
  {
    CalledHasNothing();
    OthersUntouched(s, a);
    hide Do, Enabled, NextPhase, Phase.InGroup, GroupSize, Restarts;
    var call := s.calls[a.c];
    var moved := s.calls[a.c := call.(phase := NextPhase(s, a))];
    GroupSizeUpdate(s.calls, a.c, moved[a.c]);
    GroupSizeAppend(moved, Call(call.program, Some(a.c), Called));
  }

  // ----- The rows

  function RowSwept(row: Row, a: Action): Row {
    if a.CleanUp? && row.outcome.None? then row.(outcome := Some(NOT_STARTED)) else row
  }

  lemma SweptAfter(s: State, a: Action, run: RunId)
    requires Enabled(s, a)
    ensures Swept(Do(s, a), run) <==> Swept(s, run) || (a.CleanUp? && run in s.rows && s.rows[run].outcome.None?)
    ensures Do(s, a).swept.Some? <==> s.swept.Some? || a.CleanUp?
    ensures a.CleanUp? ==> !Swept(s, run)
  {
    RowsOfDo(s, a);
    hide Do;
  }

  /** A row that is not deleted changes by the writes of its own run and by the cleanup. */
  lemma RowsAfter(s: State, a: Action, run: RunId)
    requires Enabled(s, a) && run in s.rows && !Deletes(a, s.rows[run]) && (a.CreateRow? ==> run != a.run)
    ensures var t := Do(s, a);
            run in t.rows &&
            t.rows[run] ==
            if Writes(s, a).Some? && PhaseOf(s, a.c).run == run then
              if a.stored then s.rows[run].(outcome := Writes(s, a)) else s.rows[run]
            else
              RowSwept(s.rows[run], a)
  {
    RowsOfDo(s, a);
    hide Do;
  }

  lemma ClosedOncePreserved(s: State, a: Action)
    requires ClosedOnce(s) && RunsDistinct(s) && Enabled(s, a)
    ensures ClosedOnce(Do(s, a))
  {
    var t := Do(s, a);
    DrawnOfDo(s, a);
    ClosingsOfDo(s, a);
    LostOfDo(s, a);
    if Writes(s, a).Some? {
      WriterMade(s, a);
    }
    hide Do, Writes, Enabled, NextPhase;
    forall c: CallId, run | Made(t, c, run)
      ensures t.closings[run] == if PhaseOf(t, c).Unclosed() then 0 else 1
    {
      ClosingsAfter(s, a, c, run);
    }
  }

  lemma WriterMade(s: State, a: Action)
    requires Enabled(s, a) && Writes(s, a).Some?
    ensures a.c < |s.calls| && Made(s, a.c, PhaseOf(s, a.c).run)
  {
  }

  lemma ClosingsAfter(s: State, a: Action, c: CallId, run: RunId)
    requires ClosedOnce(s) && RunsDistinct(s) && Enabled(s, a) && Made(Do(s, a), c, run)
    ensures Do(s, a).closings[run] == if PhaseOf(Do(s, a), c).Unclosed() then 0 else 1
  {
    ClosingsOfDo(s, a);
    MadeAfter(s, a, c, run);
    if Writes(s, a).Some? {
      WriterMade(s, a);
    }
    if a == CreateRow(c, run) {
      NewRunUnclosed(s, a);
      assert run !in s.closings;
    } else {
      UnclosedAfter(s, a, c, run);
    }
    hide Do, Writes, Enabled, Phase.Unclosed;
  }

  lemma NewRunUnclosed(s: State, a: Action)
    requires Enabled(s, a) && a.CreateRow?
    ensures a.c < |Do(s, a).calls| && PhaseOf(Do(s, a), a.c).Unclosed() && Writes(s, a).None? && a.run !in s.drawn
  {
  }

  lemma UnclosedAfter(s: State, a: Action, c: CallId, run: RunId)
    requires Enabled(s, a) && Made(s, c, run)
    ensures PhaseOf(Do(s, a), c).Unclosed() <==> PhaseOf(s, c).Unclosed() && !(Writes(s, a).Some? && a.c == c)
    ensures Writes(s, a).Some? && a.c == c ==>
            PhaseOf(s, c).Unclosed() && (PhaseOf(Do(s, a), c).Stuck? ==> Writes(s, a).value == NOT_STARTED)
    ensures !(Writes(s, a).Some? && a.c == c) ==> (PhaseOf(Do(s, a), c).Stuck? <==> PhaseOf(s, c).Stuck?)
  {
    OthersUntouched(s, a);
    if Actor(a).Some? {
      ProgressShape(s, a);
    }
    hide Do, NextPhase, Enabled, Phase.Unclosed, Phase.Run;
  }

  lemma WrittenOutcomeIsConsistent(s: State, a: Action)
    requires RowsAgree(s) && Enabled(s, a) && Writes(s, a).Some?
    ensures Writes(s, a).value.success <==> Writes(s, a).value.exitCode == 0
  {
  }

  lemma RowAgreesAfter(s: State, a: Action, c: CallId, run: RunId)
    requires RowsAgree(s) && RunsDistinct(s) && Enabled(s, a)
    requires Made(Do(s, a), c, run) && run in Do(s, a).rows
    ensures RowAgrees(Do(s, a), c, run)
  {
    MadeAfter(s, a, c, run);
    RowKeysAfter(s, a, run);
    if a == CreateRow(c, run) {
      NewRowAgrees(s, a);
    } else {
      OldRowAgrees(s, a, c, run);
    }
    hide Do, NextPhase, Enabled, RowFits, RowsAgree, Deletes, Phase.Run;
  }

  lemma NewRowAgrees(s: State, a: Action)
    requires RowsAgree(s) && RunsDistinct(s) && Enabled(s, a) && a.CreateRow?
    requires Made(Do(s, a), a.c, a.run) && a.run in Do(s, a).rows
    ensures RowAgrees(Do(s, a), a.c, a.run)
  {
    SweptAfter(s, a, a.run);
    LostOfDo(s, a);
    NewRunUnclosed(s, a);
    NewRowAfter(s, a);
    assert a.run !in s.lostWrites && !Swept(s, a.run);
    hide Do, Swept, Enabled, Phase.Unclosed, Phase.Run, Writes;
  }

  lemma OldRowAgrees(s: State, a: Action, c: CallId, run: RunId)
    requires RowsAgree(s) && RunsDistinct(s) && Enabled(s, a)
    requires Made(s, c, run) && run in s.rows && !Deletes(a, s.rows[run]) && Made(Do(s, a), c, run)
    ensures run in Do(s, a).rows && RowAgrees(Do(s, a), c, run)
  {
    assert RowAgrees(s, c, run);
    OthersUntouched(s, a);
    UnclosedAfter(s, a, c, run);
    var (row, id, phase, lost) := (s.rows[run], s.calls[c].program.id, PhaseOf(s, c), run in s.lostWrites);
    var next := PhaseOf(Do(s, a), c);
    if Writes(s, a).Some? && a.c == c {
      WrittenRow(s, a, c, run);
      FitsWritten(row, id, phase, Swept(s, run), lost, next, Writes(s, a).value, a.stored);
    } else {
      UnwrittenRow(s, a, c, run);
      FitsUnwritten(row, id, phase, Swept(s, run), lost, next, a);
    }
    hide RowFits, RowsAgree, Do, NextPhase, Swept, Enabled, Deletes, Phase.Unclosed, Phase.Run, Writes, RowSwept;
  }

  lemma FitsWritten(row: Row, id: int, phase: Phase, swept: bool, lost: bool, next: Phase, w: Outcome, stored: bool)
    requires RowFits(row, id, phase, swept, lost) && phase.Unclosed() && !next.Unclosed()
    requires (w.success <==> w.exitCode == 0) && (next.Stuck? ==> w == NOT_STARTED)
    ensures RowFits(if stored then row.(outcome := Some(w)) else row, id, next, swept, !stored || lost)
  {
  }

  lemma FitsUnwritten(row: Row, id: int, phase: Phase, swept: bool, lost: bool, next: Phase, a: Action)
    requires RowFits(row, id, phase, swept, lost) && (a.CleanUp? ==> !swept)
    requires (next.Unclosed() <==> phase.Unclosed()) && (next.Stuck? <==> phase.Stuck?)
    ensures RowFits(RowSwept(row, a), id, next, swept || (a.CleanUp? && row.outcome.None?), lost)
  {
  }

  lemma WrittenRow(s: State, a: Action, c: CallId, run: RunId)
    requires RowsAgree(s) && Enabled(s, a) && Made(s, c, run) && run in s.rows
    requires Writes(s, a).Some? && a.c == c
    ensures var (t, w) := (Do(s, a), Writes(s, a));
            && run in t.rows
            && t.rows[run] == (if a.stored then s.rows[run].(outcome := w) else s.rows[run])
            && (Swept(t, run) <==> Swept(s, run))
            && (run in t.lostWrites <==> !a.stored || run in s.lostWrites)
            && (w.value.success <==> w.value.exitCode == 0)
  {
    RowsAfter(s, a, run);
    SweptAfter(s, a, run);
    LostOfDo(s, a);
    WrittenOutcomeIsConsistent(s, a);
    WriterMade(s, a);
    hide RowsAgree, Do, Swept, Enabled;
  }

  lemma UnwrittenRow(s: State, a: Action, c: CallId, run: RunId)
    requires RunsDistinct(s) && Enabled(s, a) && Made(s, c, run) && run in s.rows && !Deletes(a, s.rows[run])
    requires !(Writes(s, a).Some? && a.c == c)
    ensures var t := Do(s, a);
            && run in t.rows
            && t.rows[run] == RowSwept(s.rows[run], a)
            && (Swept(t, run) <==> Swept(s, run) || (a.CleanUp? && s.rows[run].outcome.None?))
            && (a.CleanUp? ==> !Swept(s, run))
            && (run in t.lostWrites <==> run in s.lostWrites)
  {
    RowsAfter(s, a, run);
    SweptAfter(s, a, run);
    LostOfDo(s, a);
    if Writes(s, a).Some? {
      WriterMade(s, a);
    }
    hide Do, Swept, RowSwept, Enabled, Deletes;
  }

  lemma NewRowAfter(s: State, a: Action)
    requires Enabled(s, a) && a.CreateRow?
    ensures var t := Do(s, a);
            a.c < |t.calls| && a.run in t.rows && t.rows[a.run] == NewRow(t.calls[a.c].program)
  {
  }

  lemma RowsOwnedPreserved(s: State, a: Action)
    requires RowsOwned(s) && RunsDistinct(s) && Enabled(s, a)
    ensures RowsOwned(Do(s, a))
  {
    var t := Do(s, a);
    DrawnOfDo(s, a);
    LostOfDo(s, a);
    if Writes(s, a).Some? {
      WriterMade(s, a);
    }
    hide Do, Enabled, NextPhase, Writes;
    forall run | Swept(t, run)
      ensures run in t.drawn
    {
      SweptAfter(s, a, run);
    }
    forall run | run in t.rows && t.rows[run].outcome.None? && t.swept.Some?
      ensures exists c: CallId :: Made(t, c, run)
    {
      OpenRowHasRun(s, a, run);
    }
    forall run | run in t.lostWrites
      ensures exists c: CallId :: Made(t, c, run)
    {
      var c: CallId :| Made(s, c, run);
      MadeAfter(s, a, c, run);
    }
  }

  lemma OpenRowHasRun(s: State, a: Action, run: RunId)
    requires RowsOwned(s) && Enabled(s, a)
    requires run in Do(s, a).rows && Do(s, a).rows[run].outcome.None? && Do(s, a).swept.Some?
    ensures exists c: CallId :: Made(Do(s, a), c, run)
  {
    SweptAfter(s, a, run);
    RowKeysAfter(s, a, run);
    if a.CreateRow? && run == a.run {
      MadeAfter(s, a, a.c, run);
    } else {
      RowsAfter(s, a, run);
      OpenBefore(s, a, run);
      var c: CallId :| Made(s, c, run);
      MadeAfter(s, a, c, run);
    }
    hide Do, Enabled, NextPhase, Writes;
  }

  /** A row that is open after an action was open before, and the action was no cleanup. */
  lemma OpenBefore(s: State, a: Action, run: RunId)
    requires Enabled(s, a) && run in s.rows && !(a.CreateRow? && run == a.run)
    requires run in Do(s, a).rows && Do(s, a).rows[run].outcome.None?
    ensures s.rows[run].outcome.None? && !a.CleanUp?
  {
    RowsOfDo(s, a);
    hide Do;
  }

  lemma RowsAgreePreserved(s: State, a: Action)
    requires RowsAgree(s) && RunsDistinct(s) && Enabled(s, a)
    ensures RowsAgree(Do(s, a))
  {
    var t := Do(s, a);
    ClosedOncePreserved(s, a);
    RowsOwnedPreserved(s, a);
    OthersUntouched(s, a);
    hide Do, Enabled, NextPhase, Writes, RowsOwned, ClosedOnce;
    forall c: CallId, run | Made(t, c, run) && run in t.rows
      ensures RowAgrees(t, c, run)
    {
      RowAgreesAfter(s, a, c, run);
    }
    forall c: CallId | c < |t.calls| && PhaseOf(t, c).Exited?
      ensures PhaseOf(t, c).result.Possible()
    {
      ResultPossible(s, a, c);
    }
  }

  lemma NextPhaseExited(s: State, a: Action)
    requires Enabled(s, a)
    ensures Actor(a).Some? && NextPhase(s, a).Exited? ==>
            a.ProcessEnds? && NextPhase(s, a).result == a.result && a.result.Possible()
  {
  }

  lemma ResultPossible(s: State, a: Action, c: CallId)
    requires ExitsPossible(s) && Enabled(s, a) && c < |Do(s, a).calls| && PhaseOf(Do(s, a), c).Exited?
    ensures PhaseOf(Do(s, a), c).result.Possible()
  {
    OthersUntouched(s, a);
    NextPhaseExited(s, a);
    hide Do, NextPhase, Enabled;
    if a != ProcessEnds(c, PhaseOf(Do(s, a), c).result) {
      assert PhaseOf(s, c) == PhaseOf(Do(s, a), c);
    }
  }

  // ----- Restarts

  /** A restart that has not been decided yet, while its parent waits for it. */
  predicate PendingRestart(s: State, c: CallId) {
    && c < |s.calls|
    && s.calls[c].parent.Some?
    && var p := s.calls[c].parent.value;
       && p < |s.calls|
       && PhaseOf(s, p).Restarting? && PhaseOf(s, p).child == c
       && s.calls[p].program == s.calls[c].program
  }

  lemma RestartIsSkipped(s: State, c: CallId)
    requires Ownership(s) && PendingRestart(s, c) && s.calls[c].program.id > 0
    ensures ReserveIn(s.shared, s.calls[c].program).None?
  {
    assert Owns(s, s.calls[c].parent.value, s.calls[c].program.id);
  }

  lemma PendingRestartAfter(s: State, a: Action, c: CallId)
    requires Enabled(s, a) && PendingRestart(s, c) && PhaseOf(s, c).Called? && PhaseOf(Do(s, a), c).Called?
    ensures PendingRestart(Do(s, a), c)
  {
    OthersUntouched(s, a);
    hide Do;
    var p := s.calls[c].parent.value;
    if Actor(a) == Some(p) {
      assert false;
    }
  }

  lemma HasParentAfter(s: State, a: Action, c: CallId)
    requires RestartsSkip(s) && Enabled(s, a) && c < |Do(s, a).calls| && Do(s, a).calls[c].parent.Some?
    ensures HasParent(Do(s, a), c)
  {
    OthersUntouched(s, a);
    CallsOfDo(s, a);
    if Actor(a).Some? {
      ProgressShape(s, a);
    }
    hide Do, NextPhase, Enabled, Phase.PastDecision;
    var p := Do(s, a).calls[c].parent.value;
    if c < |s.calls| {
      assert HasParent(s, c);
    }
  }

  lemma RestartsSkipPreserved(s: State, a: Action)
    requires RestartsSkip(s) && Ownership(s) && Enabled(s, a)
    ensures RestartsSkip(Do(s, a))
  {
    var t := Do(s, a);
    OthersUntouched(s, a);
    CallsOfDo(s, a);
    hide Do;
    forall c: CallId | c < |t.calls| && t.calls[c].parent.Some?
      ensures HasParent(t, c)
    {
      HasParentAfter(s, a, c);
    }
    forall c: CallId | c < |t.calls| && t.calls[c].parent.Some? && PhaseOf(t, c).Called?
      ensures PendingRestart(t, c)
    {
      if c < |s.calls| {
        CalledBefore(s, a, c);
        PendingRestartAfter(s, a, c);
      }
    }
    forall c: CallId | c < |t.calls| && t.calls[c].parent.Some? && t.calls[c].program.id > 0
      ensures PhaseOf(t, c).Called? || PhaseOf(t, c).Skipped?
    {
      if c < |s.calls| && Actor(a) == Some(c) {
        assert PendingRestart(s, c);
        RestartIsSkipped(s, c);
      }
    }
  }

  lemma CalledBefore(s: State, a: Action, c: CallId)
    requires Enabled(s, a) && c < |s.calls| && PhaseOf(Do(s, a), c).Called?
    ensures PhaseOf(s, c).Called?
  {
    OthersUntouched(s, a);
    hide Do;
  }

  // ----- Every reachable state

  lemma InvInit(s: State)
    requires Init(s)
    ensures Inv(s)
  {
  }

  lemma InvPreserved(s: State, a: Action)
    requires Inv(s) && Enabled(s, a)
    ensures Inv(Do(s, a))
  {
    OwnershipPreserved(s, a);
    RunsDistinctPreserved(s, a);
    MapsExactPreserved(s, a);
    GroupPreserved(s, a);
    RowsAgreePreserved(s, a);
    RestartsSkipPreserved(s, a);
  }

  /** The invariant holds in every state of every interleaving. */
  lemma {:induction false} InvAlways(trace: seq<State>, i: nat)
    requires IsTrace(trace) && i < |trace|
    ensures Inv(trace[i])
  {
    if i == 0 {
      InvInit(trace[0]);
    } else {
      InvAlways(trace, i - 1);
      assert Next(trace[i - 1], trace[i - 1 + 1]);
      var a :| Enabled(trace[i - 1], a) && trace[i] == Do(trace[i - 1], a);
      InvPreserved(trace[i - 1], a);
    }
  }
}
