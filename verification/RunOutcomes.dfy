/** What the rows of finished runs say, and which runs are restarted. */
module RunOutcomes {
  import opened Base
  import opened RunLifecycle
  import opened RunInvariants
  import opened RunTheorems
  import opened RunRows

  /**
   The row of `run`, if it is there, says how its process ended, unless that has not been written or the writing was
   refused.
   */
  predicate RowTells(s: State, c: CallId, run: RunId, result: WaitResult) {
    && Made(s, c, run)
    && if PhaseOf(s, c).Exited? then
         PhaseOf(s, c).result == result
       else
         !PhaseOf(s, c).Unclosed()
             && (run in s.rows && run !in s.lostWrites ==> s.rows[run].outcome == Some(result.Closing()))
  }

  lemma RowTellsAfter(s: State, a: Action, c: CallId, run: RunId, result: WaitResult)
    requires Inv(s) && Enabled(s, a) && RowTells(s, c, run, result)
    ensures RowTells(Do(s, a), c, run, result)
  {
    MadeAfter(s, a, c, run);
    UnclosedAfter(s, a, c, run);
    ExitedAfter(s, a, c, run);
    RowThereAfter(s, a, c, run);
    if run in s.rows && run in Do(s, a).rows {
      if Writes(s, a).Some? && a.c == c {
        WrittenRow(s, a, c, run);
      } else {
        RowKeysAfter(s, a, run);
        UndeletedRow(s, a, run);
        UnwrittenRow(s, a, c, run);
      }
    }
    hide Do, Inv, Enabled, Writes, WaitResult.Closing, Phase.Unclosed, Deletes;
  }

  lemma UndeletedRow(s: State, a: Action, run: RunId)
    requires RunsDistinct(s) && Enabled(s, a) && run in s.rows && run in Do(s, a).rows
    ensures !Deletes(a, s.rows[run])
  {
    RowKeysAfter(s, a, run);
    if a.CreateRow? {
      NewRunUnclosed(s, a);
    }
    hide Do;
  }

  lemma ExitedAfter(s: State, a: Action, c: CallId, run: RunId)
    requires Enabled(s, a) && Made(s, c, run)
    ensures c < |Do(s, a).calls|
    ensures var (p, q) := (PhaseOf(s, c), PhaseOf(Do(s, a), c));
            && (p.Exited? && !(Writes(s, a).Some? && a.c == c) ==> q == p)
            && (p.Exited? && Writes(s, a).Some? && a.c == c ==> Writes(s, a) == Some(p.result.Closing()) && !q.Exited?)
            && (!p.Unclosed() ==> !q.Exited?)
  {
    OthersUntouched(s, a);
    if Actor(a) == Some(c) {
      ExitedNext(s, a);
    }
    hide Do, NextPhase, Enabled, Phase.Unclosed, WaitResult.Closing;
  }

  lemma ExitedNext(s: State, a: Action)
    requires Enabled(s, a) && Actor(a).Some?
    ensures var (p, q) := (PhaseOf(s, a.c), NextPhase(s, a));
            && (p.Exited? ==> Writes(s, a) == Some(p.result.Closing()) && !q.Exited?)
            && (!p.Unclosed() ==> !q.Exited?)
  {
  }

  /**
   Whatever happens after a process has ended, even a late cleanup, its row, while it is there, holds its exit code
   once that is stored: the code of an ExitError, 0 for no error, -1 for any other.
   */
  lemma RowKeepsTheResult(trace: seq<State>, i: nat, j: nat, c: CallId, run: RunId, result: WaitResult)
    requires IsTrace(trace) && i <= j < |trace| && c < |trace[i].calls| && PhaseOf(trace[i], c) == Exited(run, result)
    ensures Made(trace[j], c, run)
    ensures run in trace[j].rows && (PhaseOf(trace[j], c).Exited? || run in trace[j].lostWrites) ==>
              trace[j].rows[run].outcome == if Swept(trace[j], run) then Some(Outcome(-1, false)) else None
    ensures run in trace[j].rows && !PhaseOf(trace[j], c).Exited? && run !in trace[j].lostWrites ==>
              trace[j].rows[run].outcome ==
              match result
              case Succeeded => Some(Outcome(0, true))
              case ExitError(code) => Some(Outcome(code, false))
              case WaitFailed => Some(Outcome(-1, false))
  {
    forall s, a | Inv(s) && Enabled(s, a) && RowTells(s, c, run, result)
      ensures RowTells(Do(s, a), c, run, result)
    {
      RowTellsAfter(s, a, c, run, result);
    }
    assert RowTells(trace[i], c, run, result);
    Persists(trace, i, j, s => RowTells(s, c, run, result));
    RowClosedExactlyOnce(trace, j, c, run);
  }

  // ----- Restarts

  /** What the waiter of `c` remembers of its process. */
  predicate Remembers(phase: Phase, success: bool) {
    (phase.Closed? || phase.Decided?) && phase.success == success
  }

  lemma RemembersBefore(s: State, a: Action, c: CallId, success: bool)
    requires Enabled(s, a) && c < |Do(s, a).calls| && Remembers(PhaseOf(Do(s, a), c), success)
    ensures c < |s.calls|
    ensures Remembers(PhaseOf(s, c), success)
            || (PhaseOf(s, c).Exited? && PhaseOf(s, c).result.Closing().success == success)
  {
    OthersUntouched(s, a);
    if Actor(a) == Some(c) {
      RemembersNext(s, a, success);
    }
    hide Do, NextPhase, Enabled, WaitResult.Closing;
  }

  lemma RemembersNext(s: State, a: Action, success: bool)
    requires Enabled(s, a) && Actor(a).Some? && Remembers(NextPhase(s, a), success)
    ensures var p := PhaseOf(s, a.c); Remembers(p, success) || (p.Exited? && p.result.Closing().success == success)
  {
  }

  /** A waiter remembers a success or a failure because its process has ended so. */
  lemma {:induction false} RememberedEnd(trace: seq<State>, i: nat, c: CallId, success: bool) returns (k: nat)
    requires IsTrace(trace) && i < |trace| && c < |trace[i].calls| && Remembers(PhaseOf(trace[i], c), success)
    ensures k < i && c < |trace[k].calls| && PhaseOf(trace[k], c).Exited?
    ensures PhaseOf(trace[k], c).result.Closing().success == success
  {
    hide Do, Enabled;
    assert i > 0;
    assert Next(trace[i - 1], trace[i - 1 + 1]);
    var a :| Enabled(trace[i - 1], a) && trace[i] == Do(trace[i - 1], a);
    RemembersBefore(trace[i - 1], a, c, success);
    if PhaseOf(trace[i - 1], c).Exited? {
      k := i - 1;
    } else {
      k := RememberedEnd(trace, i - 1, c, success);
    }
  }

  lemma NewRestart(s: State, a: Action, d: CallId)
    requires Enabled(s, a) && |s.calls| <= d < |Do(s, a).calls| && Do(s, a).calls[d].parent.Some?
    ensures var c := Do(s, a).calls[d].parent.value;
            c < |s.calls| && Remembers(PhaseOf(s, c), false) && Do(s, a).calls[d].program.restartOnExit
  {
  }

  /**
   Only a run of a program that asks for restarts, and whose process has ended without success, has a restart call.
   */
  lemma {:induction false} RestartsFollowFailures(trace: seq<State>, i: nat, d: CallId) returns (k: nat)
    requires IsTrace(trace) && i < |trace| && d < |trace[i].calls| && trace[i].calls[d].parent.Some?
    ensures trace[i].calls[d].program.restartOnExit
    ensures var c := trace[i].calls[d].parent.value;
            && k < i && c < |trace[k].calls| && c < |trace[i].calls|
            && trace[k].calls[c].program == trace[i].calls[d].program
            && PhaseOf(trace[k], c).Exited? && !PhaseOf(trace[k], c).result.Succeeded?
  {
    hide Do, Enabled;
    assert i > 0;
    var s := trace[i - 1];
    assert Next(s, trace[i - 1 + 1]);
    var a :| Enabled(s, a) && trace[i] == Do(s, a);
    OthersUntouched(s, a);
    if d < |s.calls| {
      k := RestartsFollowFailures(trace, i - 1, d);
    } else {
      NewRestart(s, a, d);
      k := RememberedEnd(trace, i - 1, trace[i].calls[d].parent.value, false);
    }
    ParentsProgram(trace, k, i, d);
  }

  lemma ParentsProgram(trace: seq<State>, k: nat, i: nat, d: CallId)
    requires IsTrace(trace) && k <= i < |trace| && d < |trace[i].calls| && trace[i].calls[d].parent.Some?
    requires trace[i].calls[d].parent.value < |trace[k].calls|
    ensures var c := trace[i].calls[d].parent.value;
            c < |trace[i].calls| && trace[k].calls[c].program == trace[i].calls[d].program
  {
    InvAlways(trace, i);
    assert HasParent(trace[i], d);
    var c := trace[i].calls[d].parent.value;
    var program := trace[k].calls[c].program;
    var keeps := (s: State) => c < |s.calls| && s.calls[c].program == program;
    forall s, a | Inv(s) && Enabled(s, a) && keeps(s)
      ensures keeps(Do(s, a))
    {
      OthersUntouched(s, a);
    }
    Persists(trace, k, i, keeps);
  }
}
