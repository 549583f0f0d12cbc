/** What the steps of a run achieve: who is let through, who is restarted, who can fire, and that nobody gets stuck. */
module RunSteps {
  import opened Base
  import opened RunLifecycle
  import opened RunInvariants
  import opened RunTheorems
  import opened RunRows
  import opened RunOutcomes

  /** Step `i` of the trace is the action `a`. */
  ghost predicate Performs(trace: seq<State>, i: nat, a: Action) {
    i + 1 < |trace| && Enabled(trace[i], a) && trace[i + 1] == Do(trace[i], a)
  }

  // ----- Who is let through

  /**
   A call is let through exactly if its program has no positive ID or no other call holds that ID; otherwise it is
   skipped. Calls of other programs and of immediate jobs never make it skip.
   */
  lemma ReservedIffFree(trace: seq<State>, i: nat, c: CallId)
    requires IsTrace(trace) && Performs(trace, i, TryReserve(c))
    ensures c < |trace[i].calls| == |trace[i + 1].calls| && PhaseOf(trace[i], c).Called?
    ensures var id := trace[i].calls[c].program.id;
            PhaseOf(trace[i + 1], c) ==
            if id <= 0 || (forall d: CallId :: d != c ==> !Owns(trace[i], d, id)) then Reserved else Skipped
    ensures forall d: CallId | d < |trace[i].calls| && d != c :: trace[i + 1].calls[d] == trace[i].calls[d]
  {
    InvAlways(trace, i);
    OthersUntouched(trace[i], TryReserve(c));
    CallsOfDo(trace[i], TryReserve(c));
    var id := trace[i].calls[c].program.id;
    assert !Owns(trace[i], c, id);
    hide Do;
  }

  /** A program fires or is triggered as one more call, of that program and of no parent. */
  lemma FiringMakesACall(s: State, p: Program)
    ensures Enabled(s, Trigger(p))
    ensures Do(s, Trigger(p)) == s.(calls := s.calls + [Call(p, None, Called)])
    ensures Enabled(s, CronFires(p)) ==> Do(s, CronFires(p)) == Do(s, Trigger(p))
  {
  }

  /** The last reload or stop of cron before state `j` was a reload that loaded `p`. */
  ghost predicate LoadedLast(actions: seq<Action>, j: nat, p: Program)
    requires j <= |actions|
  {
    exists i, programs :: 0 <= i < j && actions[i] == Reload(Some(programs)) && p in programs
                          && forall k :: i < k < j ==> !actions[k].Reload? && !actions[k].StopCron?
  }

  lemma LoadedLastNext(actions: seq<Action>, j: nat, p: Program)
    requires 0 < j <= |actions|
    ensures LoadedLast(actions, j, p) <==>
            match actions[j - 1]
            case Reload(loaded) => loaded.Some? && p in loaded.value
            case StopCron => false
            case _ => LoadedLast(actions, j - 1, p)
  {
    if LoadedLast(actions, j, p) {
      var i, programs :| 0 <= i < j && actions[i] == Reload(Some(programs)) && p in programs
                         && forall k :: i < k < j ==> !actions[k].Reload? && !actions[k].StopCron?;
      assert i < j - 1 ==> !actions[j - 1].Reload? && !actions[j - 1].StopCron?;
    }
    if actions[j - 1].Reload? && actions[j - 1].loaded.Some? && p in actions[j - 1].loaded.value {
      assert actions[j - 1] == Reload(Some(actions[j - 1].loaded.value));
    }
  }

  /**
   Cron fires exactly the programs of the last reload, and none at all before the first one, after a reload that could
   not load them, or once `Pause` or `Stop` has stopped it.
   */
  lemma {:induction false} OnlyLoadedProgramsFire(trace: seq<State>, actions: seq<Action>, j: nat, p: Program)
    requires IsTraceBy(trace, actions) && j < |trace|
    ensures Enabled(trace[j], CronFires(p)) <==> LoadedLast(actions, j, p)
  {
    hide Do, LoadedLast, Init;
    if j == 0 {
      NothingLoadedAtFirst(trace, actions, p);
    } else {
      var (s, a) := (trace[j - 1], actions[j - 1]);
      assert Enabled(s, a) && trace[j - 1 + 1] == Do(s, a);
      OnlyLoadedProgramsFire(trace, actions, j - 1, p);
      LoadedLastNext(actions, j, p);
      SharedOfDo(s, a);
    }
  }

  lemma NothingLoadedAtFirst(trace: seq<State>, actions: seq<Action>, p: Program)
    requires IsTraceBy(trace, actions)
    ensures !Enabled(trace[0], CronFires(p)) && !LoadedLast(actions, 0, p)
  {
  }

  // ----- The process of a run

  /** A call that has a process under way has started it with that process ID. */
  lemma {:induction false} StartedAs(trace: seq<State>, i: nat, c: CallId) returns (m: nat)
    requires IsTrace(trace) && i < |trace| && c < |trace[i].calls|
    requires PhaseOf(trace[i], c).Started? || PhaseOf(trace[i], c).Counted?
    ensures m < i && Performs(trace, m, StartProcess(c, PhaseOf(trace[i], c).pid))
  {
    hide Do, Enabled, Performs;
    assert i > 0;
    assert Next(trace[i - 1], trace[i - 1 + 1]);
    var a :| Enabled(trace[i - 1], a) && trace[i] == Do(trace[i - 1], a);
    StartedBefore(trace[i - 1], a, c);
    if a == StartProcess(c, PhaseOf(trace[i], c).pid) {
      m := i - 1;
      assert Performs(trace, m, a) by {
        PerformsStep(trace, m, a);
      }
    } else {
      m := StartedAs(trace, i - 1, c);
    }
  }

  lemma PerformsStep(trace: seq<State>, i: nat, a: Action)
    requires i + 1 < |trace| && Enabled(trace[i], a) && trace[i + 1] == Do(trace[i], a)
    ensures Performs(trace, i, a)
  {
  }

  lemma StartedBefore(s: State, a: Action, c: CallId)
    requires Enabled(s, a) && c < |Do(s, a).calls|
    requires PhaseOf(Do(s, a), c).Started? || PhaseOf(Do(s, a), c).Counted?
    ensures var q := PhaseOf(Do(s, a), c);
            || a == StartProcess(c, q.pid)
            || (c < |s.calls| && (PhaseOf(s, c).Started? || PhaseOf(s, c).Counted?) && PhaseOf(s, c).pid == q.pid)
  {
    if Actor(a) == Some(c) {
      OthersUntouched(s, a);
      StartedNext(s, a);
    } else {
      Bystander(s, a, c);
    }
    hide Do, NextPhase, Enabled, Actor;
  }

  lemma StartedNext(s: State, a: Action)
    requires Enabled(s, a) && Actor(a).Some?
    ensures var (p, q) := (PhaseOf(s, a.c), NextPhase(s, a));
            q.Started? || q.Counted? ==>
              a == StartProcess(a.c, q.pid) || ((p.Started? || p.Counted?) && p.pid == q.pid)
  {
  }

  /** What is known of the entry of a registered run. */
  ghost predicate EntryIs(s: State, run: RunId, pid: int) {
    run in s.shared.activeRuns && run in s.shared.activeCmds
        && s.shared.activeRuns[run].pid == s.shared.activeCmds[run] == pid
  }

  lemma EntryBefore(s: State, a: Action, c: CallId, run: RunId, pid: int)
    requires Inv(s) && Enabled(s, a) && Listed(Do(s, a), c, run) && EntryIs(Do(s, a), run, pid)
    ensures if a == Register(c) then c < |s.calls| && PhaseOf(s, c) == Counted(run, pid)
            else Listed(s, c, run) && EntryIs(s, run, pid)
  {
    ListedAfter(s, a, c, run);
    MapsAfter(s, a);
    if a == Register(c) {
      assert PhaseOf(s, c).run == run || Listed(s, c, run);
      PhaseShape(s, a);
    } else {
      assert EntryAgrees(s, c, run);
      if a.Register? || a.Clear? {
        RunOfOther(s, a, c, run);
      }
      EntryKept(s, a, run);
    }
    hide Do, NextPhase, Ownership, RowsAgree, RestartsSkip;
  }

  /** Both maps name the process that the run's own call has started. */
  lemma {:induction false} EntriesNameTheProcess(trace: seq<State>, i: nat, c: CallId, run: RunId) returns (m: nat)
    requires IsTrace(trace) && i < |trace| && Listed(trace[i], c, run)
    ensures run in trace[i].shared.activeRuns && run in trace[i].shared.activeCmds
    ensures m < i && Performs(trace, m, StartProcess(c, trace[i].shared.activeCmds[run]))
    ensures trace[i].shared.activeRuns[run].pid == trace[i].shared.activeCmds[run]
  {
    hide Do, Enabled, Performs, Inv;
    InvAlways(trace, i);
    ListedHasEntry(trace[i], c, run);
    var pid := trace[i].shared.activeCmds[run];
    NothingListedAtFirst(trace, c, run);
    assert Next(trace[i - 1], trace[i - 1 + 1]);
    var a :| Enabled(trace[i - 1], a) && trace[i] == Do(trace[i - 1], a);
    InvAlways(trace, i - 1);
    EntryBefore(trace[i - 1], a, c, run, pid);
    if a == Register(c) {
      m := StartedAs(trace, i - 1, c);
    } else {
      m := EntriesNameTheProcess(trace, i - 1, c, run);
    }
  }

  lemma ListedHasEntry(s: State, c: CallId, run: RunId)
    requires Inv(s) && Listed(s, c, run)
    ensures run in s.shared.activeRuns && run in s.shared.activeCmds
    ensures s.shared.activeRuns[run].pid == s.shared.activeCmds[run]
  {
    assert EntryAgrees(s, c, run);
  }

  lemma NothingListedAtFirst(trace: seq<State>, c: CallId, run: RunId)
    requires IsTrace(trace)
    ensures !Listed(trace[0], c, run)
  {
  }

  // ----- Stopping and restarting

  /** `StopJobByName` picks any registered run of that name, marks it, and changes nothing else at all. */
  lemma StopJobMarksItsRun(s: State, name: string, run: RunId)
    requires run in s.shared.activeRuns && s.shared.activeRuns[run].name == name
    ensures Enabled(s, StopJob(name, run))
    ensures var t := Do(s, StopJob(name, run));
            && t.shared.activeRuns.Keys == s.shared.activeRuns.Keys
            && t.shared.activeRuns[run] == s.shared.activeRuns[run].(cancelled := true)
            && (forall other <- s.shared.activeRuns :: other != run ==>
                t.shared.activeRuns[other] == s.shared.activeRuns[other])
            && t == s.(shared := s.shared.(activeRuns := t.shared.activeRuns))
  {
  }

  /** A run is marked only because `StopJobByName` has picked it. */
  lemma {:induction false} OnlyStopJobMarks(trace: seq<State>, i: nat, run: RunId) returns (m: nat)
    requires IsTrace(trace) && i < |trace|
    requires run in trace[i].shared.activeRuns && trace[i].shared.activeRuns[run].cancelled
    ensures m < i && Performs(trace, m, StopJob(trace[i].shared.activeRuns[run].name, run))
  {
    hide Do, Enabled;
    assert i > 0;
    assert Next(trace[i - 1], trace[i - 1 + 1]);
    var a :| Enabled(trace[i - 1], a) && trace[i] == Do(trace[i - 1], a);
    MarkedBefore(trace[i - 1], a, run);
    if run in trace[i - 1].shared.activeRuns && trace[i - 1].shared.activeRuns[run].cancelled {
      m := OnlyStopJobMarks(trace, i - 1, run);
    } else {
      m := i - 1;
    }
  }

  lemma MarkedBefore(s: State, a: Action, run: RunId)
    requires Enabled(s, a) && run in Do(s, a).shared.activeRuns && Do(s, a).shared.activeRuns[run].cancelled
    ensures var name := Do(s, a).shared.activeRuns[run].name;
            if run in s.shared.activeRuns && s.shared.activeRuns[run].cancelled then
              s.shared.activeRuns[run].name == name
            else
              a == StopJob(name, run)
  {
    MapsAfter(s, a);
    hide Do;
  }

  /** A run that `StopJobByName` picks before its waiter reads the flag is never restarted. */
  lemma StopJobPreventsRestart(trace: seq<State>, i: nat, j: nat, name: string, run: RunId, c: CallId)
    requires IsTrace(trace) && Performs(trace, i, StopJob(name, run)) && i < j < |trace|
    requires Made(trace[i], c, run) && PhaseOf(trace[i], c).Rank() <= 8
    ensures c < |trace[j].calls| && !PhaseOf(trace[j], c).Restarting?
    ensures forall d: CallId | d < |trace[j].calls| :: trace[j].calls[d].parent != Some(c)
  {
    StopJobMarksItsRun(trace[i], name, run);
    MadeAfter(trace[i], StopJob(name, run), c, run);
    OthersUntouched(trace[i], StopJob(name, run));
    hide Do;
    StoppedRunIsNotRestarted(trace, i + 1, j, c, run);
  }

  /** What the waiter of `c` has decided on is what it has read. */
  lemma {:induction false} ReadBefore(trace: seq<State>, i: nat, c: CallId) returns (m: nat)
    requires IsTrace(trace) && i < |trace| && c < |trace[i].calls| && PhaseOf(trace[i], c).Decided?
    ensures m < i && Performs(trace, m, ReadFlag(c)) && c < |trace[m].calls|
    ensures var (run, success) := (PhaseOf(trace[i], c).run, PhaseOf(trace[i], c).success);
            && PhaseOf(trace[m], c) == Closed(run, success)
            && (PhaseOf(trace[i], c).cancelled <==>
                run in trace[m].shared.activeRuns && trace[m].shared.activeRuns[run].cancelled)
  {
    hide Do, Enabled;
    assert i > 0;
    assert Next(trace[i - 1], trace[i - 1 + 1]);
    var a :| Enabled(trace[i - 1], a) && trace[i] == Do(trace[i - 1], a);
    DecidedBefore(trace[i - 1], a, c);
    if a == ReadFlag(c) {
      m := i - 1;
    } else {
      m := ReadBefore(trace, i - 1, c);
    }
  }

  lemma DecidedBefore(s: State, a: Action, c: CallId)
    requires Enabled(s, a) && c < |Do(s, a).calls| && PhaseOf(Do(s, a), c).Decided?
    ensures c < |s.calls|
    ensures var q := PhaseOf(Do(s, a), c);
            if a == ReadFlag(c) then
              && PhaseOf(s, c) == Closed(q.run, q.success)
              && (q.cancelled <==> q.run in s.shared.activeRuns && s.shared.activeRuns[q.run].cancelled)
            else PhaseOf(s, c) == q
  {
    if Actor(a) == Some(c) {
      OthersUntouched(s, a);
      DecidedNext(s, a);
    } else {
      Bystander(s, a, c);
    }
    hide Do, NextPhase, Enabled, Actor;
  }

  lemma DecidedNext(s: State, a: Action)
    requires Enabled(s, a) && Actor(a).Some?
    ensures var (p, q) := (PhaseOf(s, a.c), NextPhase(s, a));
            q.Decided? ==>
              && a == ReadFlag(a.c) && p == Closed(q.run, q.success)
              && (q.cancelled <==> q.run in s.shared.activeRuns && s.shared.activeRuns[q.run].cancelled)
  {
  }

  /**
   A run is restarted exactly if its program asks for restarts, its process has ended without success, and the flag of
   the run was not set when the waiter looked. The restart is one call, of the same program.
   */
  lemma RestartedIff(trace: seq<State>, i: nat, c: CallId) returns (k: nat, m: nat)
    requires IsTrace(trace) && Performs(trace, i, Decide(c))
    ensures k < m < i && c < |trace[k].calls| && PhaseOf(trace[k], c).Exited?
    ensures Performs(trace, m, ReadFlag(c)) && c < |trace[m].calls| && PhaseOf(trace[m], c).Closed?
    ensures var run := PhaseOf(trace[m], c).run;
            var stopped := run in trace[m].shared.activeRuns && trace[m].shared.activeRuns[run].cancelled;
            c < |trace[i].calls| && var p := trace[i].calls[c].program;
            if p.restartOnExit && !PhaseOf(trace[k], c).result.Succeeded? && !stopped then
              && trace[i + 1].calls[c].phase == Restarting(run, |trace[i].calls|)
              && trace[i + 1].calls[|trace[i].calls|..] == [Call(p, Some(c), Called)]
            else
              && trace[i + 1].calls[c].phase == Leaving(run)
              && |trace[i + 1].calls| == |trace[i].calls|
  {
    m := ReadBefore(trace, i, c);
    k := RememberedEnd(trace, m, c, PhaseOf(trace[m], c).success);
    CallsOfDo(trace[i], Decide(c));
    hide Do;
  }

  // ----- Nobody gets stuck

  /** Nothing is left to do for the call and its waiter. */
  predicate Over(phase: Phase) {
    phase.Skipped? || phase.Abandoned? || phase.Stuck? || phase.Finished?
  }

  /** The restart that a waiter waits for is there. */
  ghost predicate ChildrenExist(s: State) {
    forall c: CallId | c < |s.calls| && PhaseOf(s, c).Restarting? :: PhaseOf(s, c).child < |s.calls|
  }

  lemma ChildrenExistAfter(s: State, a: Action)
    requires Enabled(s, a) && ChildrenExist(s)
    ensures ChildrenExist(Do(s, a))
  {
    hide Do, Enabled;
    forall c: CallId | c < |Do(s, a).calls| && PhaseOf(Do(s, a), c).Restarting?
      ensures PhaseOf(Do(s, a), c).child < |Do(s, a).calls|
    {
      ChildExistsAfter(s, a, c);
    }
  }

  lemma ChildExistsAfter(s: State, a: Action, c: CallId)
    requires Enabled(s, a) && ChildrenExist(s) && c < |Do(s, a).calls| && PhaseOf(Do(s, a), c).Restarting?
    ensures PhaseOf(Do(s, a), c).child < |Do(s, a).calls|
  {
    OthersUntouched(s, a);
    if Actor(a) == Some(c) {
      RestartingNext(s, a);
    } else {
      Bystander(s, a, c);
      assert c < |s.calls| ==> PhaseOf(s, c) == PhaseOf(Do(s, a), c);
    }
    hide Do, NextPhase, Enabled;
  }

  lemma RestartingNext(s: State, a: Action)
    requires Enabled(s, a) && Actor(a).Some? && NextPhase(s, a).Restarting?
    ensures NextPhase(s, a).child < |Do(s, a).calls|
  {
    CallsOfDo(s, a);
    hide Do;
  }

  lemma ChildrenAlwaysExist(trace: seq<State>, i: nat)
    requires IsTrace(trace) && i < |trace|
    ensures ChildrenExist(trace[i])
  {
    forall s, a | Inv(s) && Enabled(s, a) && ChildrenExist(s)
      ensures ChildrenExist(Do(s, a))
    {
      ChildrenExistAfter(s, a);
    }
    Persists(trace, 0, i, s => ChildrenExist(s));
  }

  /** What the outside world may make of a call that is let through: each outcome is possible at its point. */
  lemma EveryOutcomeIsPossible(s: State, c: CallId)
    requires c < |s.calls|
    ensures PhaseOf(s, c).Called? ==> Enabled(s, TryReserve(c))
    ensures PhaseOf(s, c).Reserved? ==>
              Enabled(s, CreateRowFails(c)) && forall run :: run !in s.drawn ==> Enabled(s, CreateRow(c, run))
    ensures PhaseOf(s, c).RowMade? ==> Enabled(s, StartFails(c)) && forall pid :: Enabled(s, StartProcess(c, pid))
    ensures PhaseOf(s, c).Waiting? ==> forall result :: result != ExitError(0) ==> Enabled(s, ProcessEnds(c, result))
    ensures PhaseOf(s, c).StartFailed? ==> forall stored :: Enabled(s, CloseUnstarted(c, stored))
    ensures PhaseOf(s, c).Exited? ==> forall stored :: Enabled(s, CloseRow(c, stored))
  {
  }

  /**
   In every reachable state each call that is not over can take a step, or waits for its restart, and then that can
   take one or has returned.
   */
  lemma EveryCallCanGoOn(trace: seq<State>, i: nat, c: CallId) returns (a: Action)
    requires IsTrace(trace) && i < |trace| && c < |trace[i].calls| && !Over(PhaseOf(trace[i], c))
    ensures Enabled(trace[i], a) && Actor(a).Some?
    ensures a.c == c || (PhaseOf(trace[i], c).Restarting? && a.c == PhaseOf(trace[i], c).child)
  {
    ChildrenAlwaysExist(trace, i);
    var phase := PhaseOf(trace[i], c);
    if phase.Restarting? && !PhaseOf(trace[i], phase.child).Returned() {
      a := OwnAction(trace[i], phase.child);
    } else {
      a := OwnAction(trace[i], c);
    }
  }

  lemma OwnAction(s: State, c: CallId) returns (a: Action)
    requires c < |s.calls| && !Over(PhaseOf(s, c))
    requires PhaseOf(s, c).Restarting? ==>
               PhaseOf(s, c).child < |s.calls| && PhaseOf(s, PhaseOf(s, c).child).Returned()
    ensures Enabled(s, a) && Actor(a) == Some(c)
  {
    match PhaseOf(s, c)
    case Called => a := TryReserve(c);
    case Reserved => a := CreateRowFails(c);
    case CreateFailed => a := Release(c);
    case RowMade(_) => a := StartFails(c);
    case StartFailed(_) => a := CloseUnstarted(c, true);
    case Started(_, _) => a := AddToGroup(c);
    case Counted(_, _) => a := Register(c);
    case Registered(_) => a := SpawnWaiter(c);
    case Waiting(_) => a := ProcessEnds(c, Succeeded);
    case Exited(_, _) => a := CloseRow(c, true);
    case Closed(_, _) => a := ReadFlag(c);
    case Decided(_, _, _) => a := Decide(c);
    case Restarting(_, _) => a := RestartReturns(c);
    case Leaving(_) => a := Clear(c);
    case Cleared(_) => a := LeaveGroup(c);
    case _ => assert false;
  }

  /** How much the restart that call `c` waits for has left to do. */
  ghost function ChildLeft(s: State, c: CallId): nat
    requires c < |s.calls|
  {
    var phase := PhaseOf(s, c);
    if phase.Restarting? && phase.child < |s.calls| && PhaseOf(s, phase.child).Rank() <= 13 then
      13 - PhaseOf(s, phase.child).Rank()
    else 0
  }

  lemma LessLeft(s: State, a: Action, c: CallId)
    requires Enabled(s, a) && Actor(a).Some? && c < |s.calls|
    requires a.c == c || (PhaseOf(s, c).Restarting? && a.c == PhaseOf(s, c).child)
    ensures c < |Do(s, a).calls|
    ensures var t := Do(s, a);
            || PhaseOf(t, c).Rank() > PhaseOf(s, c).Rank()
            || (PhaseOf(t, c) == PhaseOf(s, c) && ChildLeft(t, c) < ChildLeft(s, c))
  {
    RankGrows(s, a);
    OthersUntouched(s, a);
    RankBound(PhaseOf(s, a.c));
    RankBound(PhaseOf(Do(s, a), a.c));
    hide Do, NextPhase, Phase.Rank, Enabled;
  }

  /** So from every reachable state there is a way on which the call and its waiter come to their end. */
  lemma {:induction false} EveryCallCanEnd(trace: seq<State>, c: CallId) returns (longer: seq<State>)
    requires IsTrace(trace) && c < |trace[|trace| - 1].calls|
    ensures IsTrace(longer) && trace <= longer
    ensures c < |longer[|longer| - 1].calls| && Over(PhaseOf(longer[|longer| - 1], c))
    decreases 13 - PhaseOf(trace[|trace| - 1], c).Rank(), ChildLeft(trace[|trace| - 1], c)
  {
    hide Do, Enabled, Init, Next, ChildLeft, Phase.Rank;
    var s := trace[|trace| - 1];
    longer := trace;
    if !Over(PhaseOf(s, c)) {
      var a := EveryCallCanGoOn(trace, |trace| - 1, c);
      longer := Extend(trace, a);
      LessLeft(s, a, c);
      RankBound(PhaseOf(Do(s, a), c));
      longer := EveryCallCanEnd(longer, c);
    }
  }
}
