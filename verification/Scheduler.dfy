/**
 The Scheduler object: its methods are the locked sections of scheduler.go, each proved to change the shared
 fields exactly as the corresponding action of the step system does.
 */
module Scheduler {
  import opened Base
  import opened RunLifecycle

  lemma NonEmpty(s: set<RunId>)
    requires s != {}
    ensures exists r :: r in s
  {
    if forall r :: r !in s {
    }
  }

  class ActiveRun {
    const runId: RunId
    const programId: int
    const name: string
    const pid: int
    var cancelled: bool

    constructor (runId: RunId, p: Program, pid: int)
      ensures this.runId == runId && Info() == RunInfo(p.id, p.name, pid, false)
    {
      this.runId := runId;
      this.programId := p.id;
      this.name := p.name;
      this.pid := pid;
      this.cancelled := false;
    }

    function Info(): RunInfo
      reads this
    {
      RunInfo(programId, name, pid, cancelled)
    }
  }

  class Scheduler {
    var running: map<int, bool>
    var activeCmds: map<RunId, int>
    var activeRuns: map<RunId, ActiveRun>
    var wg: int
    var cron: seq<Program>
    var cronOn: bool

    /** An entry is keyed by its own run, so two entries never share an object. */
    ghost predicate Valid()
      reads this, activeRuns.Values
    {
      forall r <- activeRuns :: activeRuns[r].runId == r
    }

    ghost function View(): Shared
      reads this, activeRuns.Values
    {
      Shared((set id | id in running && running[id]),
             activeCmds,
             map r | r in activeRuns :: activeRuns[r].Info(),
             wg, cron, cronOn)
    }

    constructor ()
      ensures Valid() && View() == Shared({}, map[], map[], 0, [], false)
    {
      running, activeCmds, activeRuns := map[], map[], map[];
      wg, cron, cronOn := 0, [], false;
    }

    /** The check at the head of `RunProgram`. */
    method Reserve(p: Program) returns (ok: bool)
      requires Valid()
      modifies this`running
      ensures Valid()
      ensures match ReserveIn(old(View()), p)
              case None => !ok && View() == old(View())
              case Some(sh) => ok && View() == sh
      ensures ok <==> !(p.id > 0 && p.id in old(View().running))
      ensures View() == old(View()).(running := old(View().running) + if ok then {p.id} else {})
    {
      if p.id > 0 && p.id in running && running[p.id] {
        return false;
      }
      running := running[p.id := true];
      ok := true;
      assert View().running == old(View()).running + {p.id};
    }

    method Release(id: int)
      requires Valid()
      modifies this`running
      ensures Valid() && View() == ReleaseIn(old(View()), id)
    {
      running := running - {id};
      assert View().running == old(View()).running - {id};
    }

    method AddToGroup()
      requires Valid()
      modifies this`wg
      ensures Valid() && View() == old(View()).(wg := old(View()).wg + 1)
    {
      wg := wg + 1;
    }

    method LeaveGroup()
      requires Valid()
      modifies this`wg
      ensures Valid() && View() == old(View()).(wg := old(View()).wg - 1)
    {
      wg := wg - 1;
    }

    method Register(run: RunId, p: Program, pid: int)
      requires Valid()
      modifies this`activeCmds, this`activeRuns
      ensures Valid() && View() == RegisterIn(old(View()), run, RunInfo(p.id, p.name, pid, false))
    {
      var entry := new ActiveRun(run, p, pid);
      activeCmds := activeCmds[run := pid];
      activeRuns := activeRuns[run := entry];
    }

    /** The waiter's look at the flag of its run. */
    method ReadFlag(run: RunId) returns (cancelled: bool)
      requires Valid()
      ensures cancelled == CancelledIn(View(), run)
    {
      cancelled := false;
      if run in activeRuns {
        cancelled := activeRuns[run].cancelled;
      }
    }

    /** The waiter's deferred cleanup. */
    method Clear(run: RunId, id: int)
      requires Valid()
      modifies this`activeCmds, this`activeRuns, this`running
      ensures Valid() && View() == ClearIn(old(View()), run, id)
    {
      activeCmds := activeCmds - {run};
      activeRuns := activeRuns - {run};
      assert View().activeRuns == old(View()).activeRuns - {run};
      running := running - {id};
      assert View().running == old(View()).running - {id};
    }

    /** The first run of that name a walk over the map meets is marked; without one nothing changes. */
    method StopJobByName(name: string) returns (target: Option<RunId>)
      requires Valid()
      modifies activeRuns.Values
      ensures Valid()
      ensures match target
              case None =>
                View() == old(View()) && forall r <- old(View()).activeRuns :: old(View()).activeRuns[r].name != name
              case Some(run) =>
                && Enabled(State(old(View()), map[], {}, multiset{}, {}, None, []), StopJob(name, run))
                && View() == CancelIn(old(View()), run)
    {
      target := None;
      var left := activeRuns.Keys;
      while left != {}
        invariant left <= activeRuns.Keys && unchanged(activeRuns.Values)
        invariant forall r <- activeRuns.Keys - left :: activeRuns[r].name != name
      {
        NonEmpty(left);
        var r :| r in left;
        if activeRuns[r].name == name {
          ghost var was := View().activeRuns;
          activeRuns[r].cancelled := true;
          forall k <- activeRuns
            ensures activeRuns[k].Info() == if k == r then was[r].(cancelled := true) else was[k]
          {
            assert k != r ==> activeRuns[k] != activeRuns[r];
          }
          assert View().activeRuns == CancelIn(old(View()), r).activeRuns;
          return Some(r);
        }
        left := left - {r};
      }
    }

    /** Every name of a registered run, with the process ID of one of its runs. */
    method GetActivePIDs() returns (res: map<string, int>)
      requires Valid()
      ensures forall r <- View().activeRuns :: View().activeRuns[r].name in res
      ensures forall n <- res ::
                exists r ::
                  r in View().activeRuns && View().activeRuns[r].name == n && View().activeRuns[r].pid == res[n]
    {
      res := map[];
      var left := activeRuns.Keys;
      while left != {}
        invariant left <= activeRuns.Keys
        invariant forall r <- activeRuns.Keys - left :: activeRuns[r].name in res
        invariant forall n <- res ::
                    exists r :: r in activeRuns && activeRuns[r].name == n && activeRuns[r].pid == res[n]
      {
        NonEmpty(left);
        var r :| r in left;
        res := res[activeRuns[r].name := activeRuns[r].pid];
        left := left - {r};
      }
      forall n <- res
        ensures exists r ::
                  r in View().activeRuns && View().activeRuns[r].name == n && View().activeRuns[r].pid == res[n]
      {
        var r :| r in activeRuns && activeRuns[r].name == n && activeRuns[r].pid == res[n];
        assert r in View().activeRuns;
      }
    }

    /** What `Pause` and `Stop` do before they wait. */
    method StopCron()
      requires Valid()
      modifies this`cronOn
      ensures Valid() && View() == old(View()).(cronOn := false)
    {
      cronOn := false;
    }

    /**
     A fresh cron instance with the programs whose expression cron accepts; it stays empty and off if they cannot be
     loaded.
     */
    method Reload(found: Option<seq<Program>>, rejected: set<Program>) returns (ok: bool)
      requires Valid()
      modifies this`cron, this`cronOn
      ensures Valid() && (ok <==> found.Some?)
      ensures View() == ReloadIn(old(View()), if found.Some? then Some(Accepted(found.value, rejected)) else None)
    {
      cronOn := false;
      cron := [];
      if found.None? {
        return false;
      }
      for i := 0 to |found.value|
        invariant cron == Accepted(found.value[..i], rejected) && !cronOn
        invariant unchanged(this`running, this`activeCmds, this`activeRuns, this`wg)
      {
        assert found.value[..i + 1][..i] == found.value[..i];
        if found.value[i] in rejected {
          continue;
        }
        cron := cron + [found.value[i]];
      }
      assert found.value[..|found.value|] == found.value;
      cronOn := true;
      ok := true;
    }
  }

  function Accepted(programs: seq<Program>, rejected: set<Program>): seq<Program> {
    if programs == [] then
      []
    else
      var n := |programs| - 1;
      Accepted(programs[..n], rejected) + if programs[n] in rejected then [] else [programs[n]]
  }

  /** Exactly the enabled programs with an acceptable expression can fire, each as often as it was loaded. */
  lemma {:induction false} AcceptedAre(programs: seq<Program>, rejected: set<Program>, p: Program)
    ensures p in Accepted(programs, rejected) <==> p in programs && p !in rejected
    ensures multiset(Accepted(programs, rejected))[p] == if p in rejected then 0 else multiset(programs)[p]
  {
    if programs != [] {
      var n := |programs| - 1;
      assert programs == programs[..n] + [programs[n]];
      AcceptedAre(programs[..n], rejected, p);
    }
  }
}
