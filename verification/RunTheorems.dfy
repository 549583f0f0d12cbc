/** What the invariant means: guarantees over whole interleavings, and where the code misses its intent. */
module RunTheorems {
  import opened Base
  import opened RunLifecycle
  import opened RunInvariants

  // ----- Reasoning along a trace

  /** What every action keeps, every later state has. */
  lemma {:induction false} Persists(trace: seq<State>, i: nat, j: nat, p: State -> bool)
    requires IsTrace(trace) && i <= j < |trace| && p(trace[i])
    requires forall s, a :: Inv(s) && Enabled(s, a) && p(s) ==> p(Do(s, a))
    ensures p(trace[j])
    decreases j
  {
    hide Do, Enabled, Inv, Init;
    if i < j {
      Persists(trace, i, j - 1, p);
      InvAlways(trace, j - 1);
      var s := trace[j - 1];
      assert Next(s, trace[j - 1 + 1]);
      var a :| Enabled(s, a) && trace[j] == Do(s, a);
      assert p(Do(s, a));
    }
  }

  // ----- Calls end

  /** Every action of a call raises its rank. */
  lemma RankGrows(s: State, a: Action)
    requires Enabled(s, a) && Actor(a).Some?
    ensures a.c < |s.calls| && a.c < |Do(s, a).calls|
    ensures PhaseOf(Do(s, a), a.c).Rank() > PhaseOf(s, a.c).Rank()
  {
    OthersUntouched(s, a);
    NextRank(s, a);
    hide Do, NextPhase, Phase.Rank;
  }

  lemma NextRank(s: State, a: Action)
    requires Enabled(s, a) && Actor(a).Some?
    ensures NextPhase(s, a).Rank() > PhaseOf(s, a.c).Rank()
  {
  }

  /** How many steps of the trace are actions of call `c`. */
  ghost function Moves(trace: seq<State>, c: CallId): nat {
    if |trace| < 2 then
      0
    else
      var n := |trace| - 1;
      Moves(trace[..n], c)
          + if c < |trace[n - 1].calls| && c < |trace[n].calls| && trace[n].calls[c] != trace[n - 1].calls[c] then 1
            else 0
  }

  lemma OneMove(s: State, t: State, c: CallId)
    requires Next(s, t) && c < |s.calls|
    ensures c < |t.calls|
    ensures t.calls[c] == s.calls[c] || PhaseOf(t, c).Rank() > PhaseOf(s, c).Rank()
  {
    var a :| Enabled(s, a) && t == Do(s, a);
    OthersUntouched(s, a);
    if Actor(a) == Some(c) {
      RankGrows(s, a);
    }
    hide Do, NextPhase, Phase.Rank, Enabled;
  }

  lemma PrefixIsTrace(trace: seq<State>, n: nat)
    requires IsTrace(trace) && 0 < n <= |trace|
    ensures IsTrace(trace[..n])
  {
    forall i | 0 <= i < n - 1
      ensures Next(trace[..n][i], trace[..n][i + 1])
    {
      assert Next(trace[i], trace[i + 1]);
    }
  }

  /** In any interleaving a call takes at most 13 actions, and no more than its rank says. */
  lemma {:induction false} CallsEnd(trace: seq<State>, c: CallId)
    requires IsTrace(trace) && c < |trace[|trace| - 1].calls|
    ensures Moves(trace, c) <= PhaseOf(trace[|trace| - 1], c).Rank() <= 13
  {
    var n := |trace| - 1;
    RankBound(PhaseOf(trace[n], c));
    if n > 0 {
      PrefixIsTrace(trace, n);
      assert Next(trace[n - 1], trace[n - 1 + 1]);
      if c < |trace[n - 1].calls| {
        CallsEnd(trace[..n], c);
        OneMove(trace[n - 1], trace[n], c);
      } else {
        NoMovesYet(trace[..n], c);
      }
    }
    hide Phase.Rank, Next, Init;
  }

  lemma RankBound(phase: Phase)
    ensures phase.Rank() <= 13
  {
  }

  lemma {:induction false} NoMovesYet(trace: seq<State>, c: CallId)
    requires IsTrace(trace) && c >= |trace[|trace| - 1].calls|
    ensures Moves(trace, c) == 0
  {
    var n := |trace| - 1;
    if n > 0 {
      PrefixIsTrace(trace, n);
      assert Next(trace[n - 1], trace[n - 1 + 1]);
      if c < |trace[n - 1].calls| {
        OneMove(trace[n - 1], trace[n], c);
      } else {
        NoMovesYet(trace[..n], c);
      }
    }
    hide Next, Init;
  }

  // ----- One run per program

  /** Two calls that both hold the reservation of a program with a positive ID are one call. */
  lemma AtMostOneRun(trace: seq<State>, i: nat, c: CallId, d: CallId)
    requires IsTrace(trace) && i < |trace| && c < |trace[i].calls| && d < |trace[i].calls|
    requires PhaseOf(trace[i], c).Holds() && PhaseOf(trace[i], d).Holds()
    requires trace[i].calls[c].program.id == trace[i].calls[d].program.id > 0
    ensures c == d
  {
    InvAlways(trace, i);
    var id := trace[i].calls[c].program.id;
    assert Owns(trace[i], c, id) && Owns(trace[i], d, id);
  }

  /** `running` holds a positive ID exactly while it is being launched, runs, or once failed to start. */
  lemma RunningIsExact(trace: seq<State>, i: nat, id: int)
    requires IsTrace(trace) && i < |trace| && id > 0
    ensures id in trace[i].shared.running <==>
            exists c: CallId :: Owns(trace[i], c, id)
    ensures forall c: CallId :: Owns(trace[i], c, id) ==>
              var phase := PhaseOf(trace[i], c);
              phase.Reserved? || phase.CreateFailed? || phase.Unclosed() || phase.InMaps() || phase.Stuck?
  {
    InvAlways(trace, i);
  }

  /** An entry of `running` disappears only by an action of the call that holds it. */
  lemma OnlyTheOwnerDeletes(trace: seq<State>, i: nat, id: int)
    requires IsTrace(trace) && i + 1 < |trace| && id > 0
    requires id in trace[i].shared.running && id !in trace[i + 1].shared.running
    ensures exists a :: Enabled(trace[i], a) && trace[i + 1] == Do(trace[i], a) && Actor(a).Some?
              && Owns(trace[i], Actor(a).value, id)
  {
    InvAlways(trace, i);
    assert Next(trace[i], trace[i + 1]);
    var a :| Enabled(trace[i], a) && trace[i + 1] == Do(trace[i], a);
    OwnershipShape(trace[i], a);
  }

  /** scheduler.go:169-174: once `cmd.Start` has failed, no later call of the same program gets past the check. */
  lemma FailedStartBlocksForever(trace: seq<State>, i: nat, j: nat, c: CallId)
    requires IsTrace(trace) && i <= j < |trace| && c < |trace[i].calls|
    requires PhaseOf(trace[i], c).Stuck? && trace[i].calls[c].program.id > 0
    ensures ReserveIn(trace[j].shared, trace[i].calls[c].program).None?
    ensures forall d: CallId |
              d < |trace[j].calls| && PhaseOf(trace[j], d).Called?
              && trace[j].calls[d].program.id == trace[i].calls[c].program.id ::
              PhaseOf(Do(trace[j], TryReserve(d)), d).Skipped?
  {
    var p := trace[i].calls[c].program;
    var stuck := (s: State) => c < |s.calls| && PhaseOf(s, c).Stuck? && s.calls[c].program == p;
    forall s, a | Inv(s) && Enabled(s, a) && stuck(s)
      ensures stuck(Do(s, a))
    {
      OthersUntouched(s, a);
    }
    Persists(trace, i, j, stuck);
    InvAlways(trace, j);
    assert Owns(trace[j], c, p.id);
  }

  // ----- Pausing

  /** The runs that calls have in the maps. */
  ghost predicate Covered(calls: seq<Call>, runs: set<RunId>) {
    forall r <- runs ::
      exists c: CallId :: c < |calls| && calls[c].phase.Run() == Some(r) && calls[c].phase.InMaps()
  }

  lemma CoveredWithoutLast(calls: seq<Call>, runs: set<RunId>)
    requires calls != [] && Covered(calls, runs)
    ensures var (n, last) := (|calls| - 1, calls[|calls| - 1].phase);
            && (last.InMaps() ==> last.Run().Some?)
            && Covered(calls[..n], if last.InMaps() then runs - {last.Run().value} else runs)
  {
    var n := |calls| - 1;
    var last := calls[n].phase;
    var others := if last.InMaps() then runs - {last.Run().value} else runs;
    hide Phase.Run, Phase.InMaps;
    forall r <- others
      ensures exists c: CallId :: c < n && calls[..n][c].phase.Run() == Some(r) && calls[..n][c].phase.InMaps()
    {
      var c: CallId :| c < |calls| && calls[c].phase.Run() == Some(r) && calls[c].phase.InMaps();
      assert c != n;
      assert calls[..n][c] == calls[c];
    }
  }

  lemma {:induction false} GroupCoversRuns(calls: seq<Call>, runs: set<RunId>)
    requires Covered(calls, runs)
    ensures |runs| <= GroupSize(calls)
  {
    if calls == [] {
      assert forall r <- runs :: false;
    } else {
      var n := |calls| - 1;
      var last := calls[n].phase;
      CoveredWithoutLast(calls, runs);
      var others := if last.InMaps() then runs - {last.Run().value} else runs;
      GroupCoversRuns(calls[..n], others);
      hide Covered, Phase.Run;
      if last.InMaps() {
        assert runs <= others + {last.Run().value};
        SubsetSize(runs, others, last.Run().value);
      }
    }
  }

  lemma SubsetSize(a: set<RunId>, b: set<RunId>, r: RunId)
    requires b == a - {r}
    ensures |a| <= |b| + 1
  {
    if r in a {
      assert a == b + {r};
    } else {
      assert a == b;
    }
  }

  /** The wait group counts every registered run. */
  lemma GroupCountsRegisteredRuns(trace: seq<State>, i: nat)
    requires IsTrace(trace) && i < |trace|
    ensures |trace[i].shared.activeRuns| <= trace[i].shared.wg
  {
    InvAlways(trace, i);
    var s := trace[i];
    forall r <- s.shared.activeRuns.Keys
      ensures exists c: CallId :: c < |s.calls| && s.calls[c].phase.Run() == Some(r) && s.calls[c].phase.InMaps()
    {
      var c: CallId :| Listed(s, c, r);
    }
    GroupCoversRuns(s.calls, s.shared.activeRuns.Keys);
    assert |s.shared.activeRuns.Keys| == |s.shared.activeRuns|;
  }

  lemma {:induction false} EmptyGroup(calls: seq<Call>, c: CallId)
    requires GroupSize(calls) == 0 && c < |calls|
    ensures !calls[c].phase.InGroup()
  {
    var n := |calls| - 1;
    if c < n {
      EmptyGroup(calls[..n], c);
    }
  }

  /** `run` has been registered by `c` and may have left since. */
  predicate HasRegistered(s: State, c: CallId, run: RunId) {
    Made(s, c, run) && (PhaseOf(s, c).InMaps() || PhaseOf(s, c).Cleared? || PhaseOf(s, c).Finished?)
  }

  lemma HasRegisteredAfter(s: State, a: Action, c: CallId, run: RunId)
    requires Enabled(s, a) && HasRegistered(s, c, run)
    ensures HasRegistered(Do(s, a), c, run)
  {
    OthersUntouched(s, a);
    MadeAfter(s, a, c, run);
  }

  lemma HasRegisteredPersists(trace: seq<State>, i: nat, j: nat, c: CallId, run: RunId)
    requires IsTrace(trace) && i <= j < |trace| && HasRegistered(trace[i], c, run)
    ensures HasRegistered(trace[j], c, run)
  {
    forall s, a | Inv(s) && Enabled(s, a) && HasRegistered(s, c, run)
      ensures HasRegistered(Do(s, a), c, run)
    {
      HasRegisteredAfter(s, a, c, run);
    }
    Persists(trace, i, j, s => HasRegistered(s, c, run));
  }

  /**
   A run registered when `Pause` began has issued its closing statement and left both maps when the wait is over,
   and both maps are empty then. Whatever happens until `Pause` returns, or later, it does not come back.
   */
  lemma PauseWaitsForRegisteredRuns(trace: seq<State>, i: nat, j: nat, k: nat, run: RunId)
    requires IsTrace(trace) && i <= j <= k < |trace|
    requires run in trace[i].shared.activeRuns && trace[j].shared.wg == 0
    ensures trace[j].shared.activeRuns == map[] && trace[j].shared.activeCmds == map[]
    ensures run !in trace[k].shared.activeRuns && run !in trace[k].shared.activeCmds
    ensures trace[k].closings[run] == 1
    ensures exists c: CallId :: Made(trace[k], c, run) && PhaseOf(trace[k], c).Finished?
  {
    InvAlways(trace, i);
    var c: CallId :| Listed(trace[i], c, run);
    HasRegisteredPersists(trace, i, j, c, run);
    EmptyGroupInState(trace, j, c);
    GroupCountsRegisteredRuns(trace, j);
    InvAlways(trace, j);
    assert trace[j].shared.activeCmds.Keys == trace[j].shared.activeRuns.Keys;
    FinishedStays(trace, j, k, c, run);
    MapsAreExact(trace, k, run);
    InvAlways(trace, k);
    assert forall d: CallId | Made(trace[k], d, run) :: d == c;
  }

  lemma FinishedStays(trace: seq<State>, j: nat, k: nat, c: CallId, run: RunId)
    requires IsTrace(trace) && j <= k < |trace| && Made(trace[j], c, run) && PhaseOf(trace[j], c).Finished?
    ensures Made(trace[k], c, run) && PhaseOf(trace[k], c).Finished?
  {
    var done := (s: State) => Made(s, c, run) && PhaseOf(s, c).Finished?;
    forall s, a | Inv(s) && Enabled(s, a) && done(s)
      ensures done(Do(s, a))
    {
      MadeAfter(s, a, c, run);
      OthersUntouched(s, a);
    }
    Persists(trace, j, k, done);
  }

  lemma EmptyGroupInState(trace: seq<State>, j: nat, c: CallId)
    requires IsTrace(trace) && j < |trace| && trace[j].shared.wg == 0 && c < |trace[j].calls|
    ensures !PhaseOf(trace[j], c).InGroup()
  {
    InvAlways(trace, j);
    EmptyGroup(trace[j].calls, c);
  }

  /** Both maps hold exactly the runs between registration and cleanup, each with its program and one process. */
  lemma MapsAreExact(trace: seq<State>, i: nat, run: RunId)
    requires IsTrace(trace) && i < |trace|
    ensures var sh := trace[i].shared;
            && (run in sh.activeRuns <==> run in sh.activeCmds)
            && (run in sh.activeRuns <==> exists c: CallId :: Made(trace[i], c, run) && PhaseOf(trace[i], c).InMaps())
            && (run in sh.activeRuns ==> sh.activeRuns[run].pid == sh.activeCmds[run])
            && forall c: CallId :: Made(trace[i], c, run) && run in sh.activeRuns ==>
                 sh.activeRuns[run].programId == trace[i].calls[c].program.id
                     && sh.activeRuns[run].name == trace[i].calls[c].program.name
  {
    InvAlways(trace, i);
    var s := trace[i];
    forall c: CallId | Made(s, c, run) && PhaseOf(s, c).InMaps()
      ensures EntryAgrees(s, c, run)
    {
      assert Listed(s, c, run);
    }
    if run in s.shared.activeRuns {
      var d: CallId :| Listed(s, d, run);
      forall c: CallId | Made(s, c, run)
        ensures Listed(s, c, run)
      {
        assert c == d;
      }
    }
  }

  /**
   What the wait does not cover: with an empty group, a process lives exactly if it is started but not yet counted.
   */
  lemma AliveAfterPause(trace: seq<State>, j: nat, c: CallId)
    requires IsTrace(trace) && j < |trace| && trace[j].shared.wg == 0 && c < |trace[j].calls|
    ensures PhaseOf(trace[j], c).Alive() <==> PhaseOf(trace[j], c).Started?
  {
    EmptyGroupInState(trace, j, c);
  }

  /** A scheduler that starts with an empty table of runs. */
  function FreshState(): State {
    State(Shared({}, map[], map[], 0, [], false), map[], {}, multiset{}, {}, None, [])
  }

  /** Such a process exists: a call that was under way when cron stopped starts one, and the group is still empty. */
  lemma PauseCanMissAProcess(p: Program) returns (trace: seq<State>)
    ensures IsTrace(trace) && |trace| == 6
    ensures !trace[2].shared.cronOn && trace[5].shared.wg == 0 && trace[5].calls != [] && PhaseOf(trace[5], 0).Alive()
  {
    trace := [FreshState()];
    trace := Extend(trace, Trigger(p));
    trace := Extend(trace, StopCron);
    trace := Extend(trace, TryReserve(0));
    trace := Extend(trace, CreateRow(0, 1));
    trace := Extend(trace, StartProcess(0, 42));
  }

  // ----- Restarting and stopping

  /** scheduler.go:233-237: a restart of a program with a positive ID meets its own reservation and is skipped. */
  lemma RestartAlwaysSkips(trace: seq<State>, i: nat, c: CallId)
    requires IsTrace(trace) && i < |trace| && c < |trace[i].calls|
    requires trace[i].calls[c].parent.Some? && trace[i].calls[c].program.id > 0
    ensures PhaseOf(trace[i], c).Called? || PhaseOf(trace[i], c).Skipped?
    ensures PhaseOf(trace[i], c).Called? ==> PhaseOf(Do(trace[i], TryReserve(c)), c).Skipped?
    ensures forall run :: !Made(trace[i], c, run)
    ensures trace[i].calls[c].parent.value < |trace[i].calls|
            && trace[i].calls[trace[i].calls[c].parent.value].parent.None?
  {
    InvAlways(trace, i);
    assert HasParent(trace[i], c);
    if PhaseOf(trace[i], c).Called? {
      RestartIsSkipped(trace[i], c);
    }
  }

  /** One more action at the end of a trace. */
  lemma Extend(trace: seq<State>, a: Action) returns (longer: seq<State>)
    requires IsTrace(trace) && Enabled(trace[|trace| - 1], a)
    ensures IsTrace(longer) && longer == trace + [Do(trace[|trace| - 1], a)]
  {
    longer := trace + [Do(trace[|trace| - 1], a)];
    forall i | 0 <= i < |longer| - 1
      ensures Next(longer[i], longer[i + 1])
    {
      if i < |trace| - 1 {
        assert Next(trace[i], trace[i + 1]);
      }
    }
  }

  /** From a fresh scheduler, program `p` is launched. */
  lemma CanStart(p: Program) returns (trace: seq<State>)
    ensures IsTrace(trace)
    ensures var s := trace[|trace| - 1];
            && s.calls == [Call(p, None, Started(1, 42))]
            && s.shared.running == {p.id}
            && s.shared.activeRuns == map[]
            && s.rows == map[1 := NewRow(p)] && s.drawn == {1} && s.closings == multiset{} && s.lostWrites == {}
                && s.swept.None?
  {
    trace := [FreshState()];
    trace := Extend(trace, Trigger(p));
    trace := Extend(trace, TryReserve(0));
    trace := Extend(trace, CreateRow(0, 1));
    trace := Extend(trace, StartProcess(0, 42));
  }

  /** It goes on until its waiter waits. */
  lemma CanWait(p: Program) returns (trace: seq<State>)
    ensures IsTrace(trace)
    ensures var s := trace[|trace| - 1];
            && s.calls == [Call(p, None, Waiting(1))]
            && s.shared.running == {p.id}
            && s.shared.activeRuns == map[1 := RunInfo(p.id, p.name, 42, false)]
            && s.rows == map[1 := NewRow(p)] && s.drawn == {1} && s.closings == multiset{} && s.lostWrites == {}
                && s.swept.None?
  {
    trace := CanStart(p);
    trace := Extend(trace, AddToGroup(0));
    trace := Extend(trace, Register(0));
    trace := Extend(trace, SpawnWaiter(0));
  }

  /** A start can fail, and then blocks the program. */
  lemma StartCanFail(p: Program) returns (trace: seq<State>)
    requires p.id > 0
    ensures IsTrace(trace)
    ensures var s := trace[|trace| - 1]; s.calls == [Call(p, None, Stuck(1))] && ReserveIn(s.shared, p).None?
  {
    trace := [FreshState()];
    trace := Extend(trace, Trigger(p));
    trace := Extend(trace, TryReserve(0));
    trace := Extend(trace, CreateRow(0, 1));
    trace := Extend(trace, StartFails(0));
    trace := Extend(trace, CloseUnstarted(0, true));
  }

  /** The restart branch is reached, so a failed run of a restartable program ends with a call that does nothing. */
  lemma RestartBranchIsReached(p: Program) returns (trace: seq<State>)
    requires p.id > 0 && p.restartOnExit
    ensures IsTrace(trace)
    ensures trace[|trace| - 1].calls == [Call(p, None, Restarting(1, 1)), Call(p, Some(0), Skipped)]
  {
    trace := CanWait(p);
    trace := Extend(trace, ProcessEnds(0, WaitFailed));
    trace := Extend(trace, CloseRow(0, true));
    trace := Extend(trace, ReadFlag(0));
    trace := Extend(trace, Decide(0));
    trace := Extend(trace, TryReserve(1));
  }

  /** `Cancelled` is set, or the run has left the map. */
  predicate Marked(s: State, c: CallId, run: RunId) {
    HasRegistered(s, c, run) && (run in s.shared.activeRuns ==> s.shared.activeRuns[run].cancelled)
  }

  lemma MarkedAfter(s: State, a: Action, c: CallId, run: RunId)
    requires RunsDistinct(s) && Enabled(s, a) && Marked(s, c, run)
    ensures Marked(Do(s, a), c, run)
  {
    HasRegisteredAfter(s, a, c, run);
    MapsAfter(s, a);
    if a.Register? {
      assert Made(s, a.c, PhaseOf(s, a.c).run);
    }
  }

  /** `Cancelled` never goes back to false while the run is registered. */
  lemma CancelledIsSticky(trace: seq<State>, i: nat, j: nat, run: RunId)
    requires IsTrace(trace) && i <= j < |trace|
    requires CancelledIn(trace[i].shared, run)
    ensures run in trace[j].shared.activeRuns ==> trace[j].shared.activeRuns[run].cancelled
  {
    InvAlways(trace, i);
    var c: CallId :| Listed(trace[i], c, run);
    forall s, a | Inv(s) && Enabled(s, a) && Marked(s, c, run)
      ensures Marked(Do(s, a), c, run)
    {
      MarkedAfter(s, a, c, run);
    }
    Persists(trace, i, j, s => Marked(s, c, run));
  }

  /** The waiter of `c` will see, or has seen, that the run was stopped. */
  ghost predicate WillNotRestart(s: State, c: CallId, run: RunId) {
    && Made(s, c, run)
    && (forall d: CallId | d < |s.calls| :: s.calls[d].parent != Some(c))
    && PhaseWillNotRestart(PhaseOf(s, c), CancelledIn(s.shared, run))
  }

  predicate PhaseWillNotRestart(phase: Phase, cancelled: bool) {
    match phase
    case Decided(_, _, seen) => seen
    case _ => phase.Leaving? || phase.Cleared? || phase.Finished? || (phase.InMaps() && !phase.Restarting? && cancelled)
  }

  lemma WillNotRestartAfter(s: State, a: Action, c: CallId, run: RunId)
    requires Inv(s) && Enabled(s, a) && WillNotRestart(s, c, run)
    ensures WillNotRestart(Do(s, a), c, run)
  {
    MadeAfter(s, a, c, run);
    StoppedPhaseAfter(s, a, c, run);
    NoChildAfter(s, a, c);
    hide Do, Enabled, Inv, PhaseWillNotRestart;
  }

  lemma StoppedPhaseAfter(s: State, a: Action, c: CallId, run: RunId)
    requires Inv(s) && Enabled(s, a) && Made(s, c, run)
             && PhaseWillNotRestart(PhaseOf(s, c), CancelledIn(s.shared, run))
    ensures c < |Do(s, a).calls| && PhaseWillNotRestart(PhaseOf(Do(s, a), c), CancelledIn(Do(s, a).shared, run))
  {
    OthersUntouched(s, a);
    if CancelledIn(s.shared, run) {
      CancelledAfter(s, a, c, run);
    }
    if Actor(a) == Some(c) {
      StoppedPhaseMoves(s, a, run);
      ClearedPhase(s, a);
    }
    MoreCancelled(PhaseOf(Do(s, a), c));
    hide Do, NextPhase, Enabled, Inv, CancelledIn, PhaseWillNotRestart, Made;
  }

  lemma MoreCancelled(phase: Phase)
    ensures PhaseWillNotRestart(phase, false) ==> PhaseWillNotRestart(phase, true)
    ensures phase.Cleared? ==> PhaseWillNotRestart(phase, false)
  {
  }

  lemma ClearedPhase(s: State, a: Action)
    requires Enabled(s, a) && Actor(a).Some?
    ensures a.Clear? ==> NextPhase(s, a).Cleared?
  {
  }

  lemma StoppedPhaseMoves(s: State, a: Action, run: RunId)
    requires Enabled(s, a) && Actor(a).Some? && Made(s, a.c, run)
    requires PhaseWillNotRestart(PhaseOf(s, a.c), CancelledIn(s.shared, run))
    ensures PhaseWillNotRestart(NextPhase(s, a), CancelledIn(s.shared, run))
  {
  }

  lemma CancelledAfter(s: State, a: Action, c: CallId, run: RunId)
    requires RunsDistinct(s) && MapsExact(s) && Enabled(s, a) && Made(s, c, run) && CancelledIn(s.shared, run)
    ensures a == Clear(c) || CancelledIn(Do(s, a).shared, run)
  {
    MapsAfter(s, a);
    var d: CallId :| Listed(s, d, run);
    if a.Register? || a.Clear? {
      assert Made(s, a.c, PhaseOf(s, a.c).run);
    }
  }

  lemma NoChildAfter(s: State, a: Action, c: CallId)
    requires Enabled(s, a) && c < |s.calls| && (PhaseOf(s, c).Decided? ==> PhaseOf(s, c).cancelled)
    requires forall d: CallId | d < |s.calls| :: s.calls[d].parent != Some(c)
    ensures forall d: CallId | d < |Do(s, a).calls| :: Do(s, a).calls[d].parent != Some(c)
  {
    OthersUntouched(s, a);
    CallsOfDo(s, a);
    if a == Decide(c) {
      assert |Do(s, a).calls| == |s.calls|;
    }
    if |Do(s, a).calls| > |s.calls| {
      assert a.Trigger? || a.CronFires? || a.Decide?;
    }
  }

  /** Before its waiter reads the flag, a registered run has no restart. */
  lemma NoChildBeforeDecision(trace: seq<State>, i: nat, c: CallId)
    requires IsTrace(trace) && i < |trace| && c < |trace[i].calls| && PhaseOf(trace[i], c).Rank() <= 8
    ensures forall d: CallId | d < |trace[i].calls| :: trace[i].calls[d].parent != Some(c)
  {
    InvAlways(trace, i);
    forall d: CallId | d < |trace[i].calls| && trace[i].calls[d].parent.Some?
      ensures HasParent(trace[i], d)
    {}
  }

  /** A run marked before its waiter reads the flag never reaches the restart branch. */
  lemma StoppedRunIsNotRestarted(trace: seq<State>, i: nat, j: nat, c: CallId, run: RunId)
    requires IsTrace(trace) && i <= j < |trace|
    requires Made(trace[i], c, run) && CancelledIn(trace[i].shared, run)
    requires PhaseOf(trace[i], c).Rank() <= Closed(run, false).Rank()
    ensures c < |trace[j].calls| && !PhaseOf(trace[j], c).Restarting?
    ensures forall d: CallId | d < |trace[j].calls| :: trace[j].calls[d].parent != Some(c)
  {
    InvAlways(trace, i);
    NoChildBeforeDecision(trace, i, c);
    var d: CallId :| Listed(trace[i], d, run);
    assert c == d;
    forall s, a | Inv(s) && Enabled(s, a) && WillNotRestart(s, c, run)
      ensures WillNotRestart(Do(s, a), c, run)
    {
      WillNotRestartAfter(s, a, c, run);
    }
    Persists(trace, i, j, s => WillNotRestart(s, c, run));
  }
}
