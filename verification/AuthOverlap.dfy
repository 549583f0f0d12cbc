/** The failure limiter when calls overlap: runs of the two locked sections, in any interleaving. */
module AuthOverlap {
  import opened Base
  import opened AuthLimiter

  type CallId = nat

  /** A call between its sections, with the entry its first section saw. */
  datatype Pending = Pending(call: Call, seen: Attempt)

  datatype State = State(table: Table, pending: map<CallId, Pending>)

  datatype Step = Enter(id: CallId, call: Call) | Leave(id: CallId)

  predicate Enabled(s: State, step: Step) {
    match step
    case Enter(id, _) => id !in s.pending
    case Leave(id) => id in s.pending
  }

  /** A limited call is over with its first section; a failing one is counted as it leaves. */
  function Do(s: State, step: Step): State
    requires Enabled(s, step)
  {
    match step
    case Enter(id, call) =>
      var seen := Seen(s.table, call.ip, call.now);
      if seen.fails >= MAX_FAILS then s else s.(pending := s.pending[id := Pending(call, seen)])
    case Leave(id) =>
      var p := s.pending[id];
      State(if p.call.credentials.Wrong? then s.table[p.call.ip := p.seen.(fails := p.seen.fails + 1)] else s.table,
          s.pending - {id})
  }

  /** The state after the steps, if each of them is enabled in its turn. */
  function RunOf(steps: seq<Step>): Option<State> {
    if steps == [] then
      Some(State(map[], map[]))
    else
      var n := |steps| - 1;
      var before := RunOf(steps[..n]);
      if before.Some? && Enabled(before.value, steps[n]) then Some(Do(before.value, steps[n])) else None
  }

  predicate IsRun(steps: seq<Step>) {
    RunOf(steps).Some?
  }

  function StateAfter(steps: seq<Step>): State
    requires IsRun(steps)
  {
    RunOf(steps).value
  }

  predicate IsFailing(p: Pending, ip: Ip) {
    p.call.ip == ip && p.call.credentials.Wrong?
  }

  /** The times of the failing calls of `ip`, in the order in which they are counted. */
  function Counted(steps: seq<Step>, ip: Ip): seq<Time>
    requires IsRun(steps)
  {
    if steps == [] then
      []
    else
      var n := |steps| - 1;
      Counted(steps[..n], ip) + CountedBy(StateAfter(steps[..n]), steps[n], ip)
  }

  function CountedBy(s: State, step: Step, ip: Ip): seq<Time>
    requires Enabled(s, step)
  {
    if step.Leave? && IsFailing(s.pending[step.id], ip) then [s.pending[step.id].call.now] else []
  }

  function Clock(steps: seq<Step>): Time {
    if steps == [] then 0
    else var n := |steps| - 1; if steps[n].Enter? then steps[n].call.now else Clock(steps[..n])
  }

  /** The clock is read at the first section, and does not go back. */
  predicate Ordered(steps: seq<Step>) {
    steps == [] ||
    var n := |steps| - 1;
    Ordered(steps[..n]) && (steps[n].Enter? ==> 0 < steps[n].call.now && Clock(steps[..n]) <= steps[n].call.now)
  }

  /** No failing call of `ip` enters while another is between its sections. Other calls may overlap freely. */
  ghost predicate Alone(steps: seq<Step>, ip: Ip)
    requires IsRun(steps)
  {
    steps == [] ||
    var n := |steps| - 1;
    Alone(steps[..n], ip) && EntersAlone(StateAfter(steps[..n]), steps[n], ip)
  }

  ghost predicate EntersAlone(s: State, step: Step, ip: Ip) {
    step.Enter? && step.call.ip == ip && step.call.credentials.Wrong? ==>
        forall id <- s.pending :: !IsFailing(s.pending[id], ip)
  }

  // ----- Without overlap

  /** The table explains the counted failures, and a failing call under way saw what is still stored. */
  ghost predicate Consistent(s: State, ip: Ip, times: seq<Time>, clock: Time) {
    && 0 <= clock
    && TableExplains(s.table, ip, times, clock)
    && (forall id <- s.pending | IsFailing(s.pending[id], ip) :: SawCurrent(s, s.pending[id], times, clock))
    && (forall i <- s.pending, j <- s.pending | IsFailing(s.pending[i], ip) && IsFailing(s.pending[j], ip) :: i == j)
  }

  ghost predicate SawCurrent(s: State, p: Pending, times: seq<Time>, clock: Time) {
    && p.seen == Seen(s.table, p.call.ip, p.call.now)
    && p.seen.fails < MAX_FAILS
    && 0 < p.call.now <= clock
    && TableExplains(s.table, p.call.ip, times, p.call.now)
  }

  lemma EnterKeeps(s: State, id: CallId, call: Call, ip: Ip, times: seq<Time>, clock: Time)
    requires Consistent(s, ip, times, clock) && Enabled(s, Enter(id, call)) && EntersAlone(s, Enter(id, call), ip)
    requires 0 < call.now && clock <= call.now
    ensures Consistent(Do(s, Enter(id, call)), ip, times, call.now)
  {
    hide TableExplains, Seen;
    Later(s.table, ip, times, clock, call.now);
  }

  /** A failing call that saw the current entry leaves as if it had been one step. */
  lemma CountsAsOneStep(s: State, id: CallId, ip: Ip, times: seq<Time>, clock: Time)
    requires Consistent(s, ip, times, clock) && id in s.pending && IsFailing(s.pending[id], ip)
    ensures var (t, now) := (Do(s, Leave(id)), s.pending[id].call.now);
            TableExplains(t.table, ip, times + [now], now) && ip in t.table && now <= clock
  {
    var p := s.pending[id];
    ServeExplains(s.table, ip, times, p.call.now, p.call);
  }

  lemma LeaveKeeps(s: State, id: CallId, ip: Ip, times: seq<Time>, clock: Time)
    requires Consistent(s, ip, times, clock) && Enabled(s, Leave(id))
    ensures Consistent(Do(s, Leave(id)), ip, times + CountedBy(s, Leave(id), ip), clock)
  {
    hide TableExplains, Seen;
    var (t, p) := (Do(s, Leave(id)), s.pending[id]);
    if IsFailing(p, ip) {
      CountsAsOneStep(s, id, ip, times, clock);
      Later(t.table, ip, times + [p.call.now], p.call.now, clock);
    } else {
      assert times + [] == times;
      SameEntryExplains(s.table, t.table, ip);
    }
  }

  lemma SameEntryExplains(a: Table, b: Table, ip: Ip)
    ensures SameAt(a, b, ip) ==> forall times, last :: TableExplains(a, ip, times, last) ==>
            TableExplains(b, ip, times, last)
    ensures SameAt(a, b, ip) ==> forall now :: Seen(a, ip, now) == Seen(b, ip, now)
  {
    hide Explains;
  }

  lemma {:induction false} AlwaysConsistent(steps: seq<Step>, ip: Ip)
    requires IsRun(steps) && Ordered(steps) && Alone(steps, ip)
    ensures Consistent(StateAfter(steps), ip, Counted(steps, ip), Clock(steps))
  {
    hide Consistent, Do, Enabled, EntersAlone;
    if steps == [] {
      NothingCountedYet(ip);
    } else {
      var n := |steps| - 1;
      var s := StateAfter(steps[..n]);
      AlwaysConsistent(steps[..n], ip);
      match steps[n]
      case Enter(id, call) =>
        EnterKeeps(s, id, call, ip, Counted(steps[..n], ip), Clock(steps[..n]));
        assert Counted(steps[..n], ip) + [] == Counted(steps[..n], ip);
      case Leave(id) =>
        LeaveKeeps(s, id, ip, Counted(steps[..n], ip), Clock(steps[..n]));
    }
  }

  lemma NothingCountedYet(ip: Ip)
    ensures Consistent(State(map[], map[]), ip, [], 0)
  {
  }

  /** Nine in any minute, in every run in which no two failing calls of the address overlap. */
  lemma {:induction false} NineWithoutOverlap(steps: seq<Step>, ip: Ip, from: Time)
    requires IsRun(steps) && Ordered(steps) && Alone(steps, ip)
    ensures Between(Counted(steps, ip), from, from + 60_000_000_000) <= 9
  {
    hide Consistent, Do, TableExplains, Explains, EntersAlone;
    if steps != [] {
      var n := |steps| - 1;
      var (s, before) := (StateAfter(steps[..n]), Counted(steps[..n], ip));
      NineWithoutOverlap(steps[..n], ip, from);
      AlwaysConsistent(steps[..n], ip);
      if steps[n].Leave? && IsFailing(s.pending[steps[n].id], ip) {
        var now := s.pending[steps[n].id].call.now;
        BetweenOneMore(before, now, from, from + MINUTE);
        if from <= now <= from + MINUTE {
          CountsAsOneStep(s, steps[n].id, ip, before, Clock(steps[..n]));
          assert (before + [now])[|before|] == now;
          TableEntryExplains(StateAfter(steps).table, ip, before + [now], now);
          LastMinute(StateAfter(steps).table[ip], before + [now], now, from);
        }
      } else {
        assert before + [] == before;
      }
    }
  }

  /** A call whose two sections nothing comes between is served as the limiter serves one call. */
  lemma UndisturbedIsServe(s: State, id: CallId, call: Call)
    requires id !in s.pending
    ensures Enabled(s, Enter(id, call))
    ensures var (entered, (after, outcome)) := (Do(s, Enter(id, call)), Serve(s.table, call));
            && entered.table == s.table
            && (outcome.Limited? ==> entered == s)
            && (!outcome.Limited? ==> Enabled(entered, Leave(id)) && Do(entered, Leave(id)) == State(after, s.pending))
  {
    hide Seen;
    var entered := Do(s, Enter(id, call));
    if id in entered.pending {
      assert entered.pending - {id} == s.pending;
    }
  }

  // ----- With overlap

  /** Failing calls of `ip` enter at the given times. */
  function AllEnter(ip: Ip, times: seq<Time>): seq<Step> {
    if times == [] then [] else var n := |times| - 1; AllEnter(ip, times[..n]) + [Enter(n, Call(ip, times[n], Wrong))]
  }

  function FirstLeave(n: nat): seq<Step> {
    if n == 0 then [] else FirstLeave(n - 1) + [Leave(n - 1)]
  }

  /** What is pending when all have entered and the first `k` have left. */
  function Left(ip: Ip, times: seq<Time>, k: nat): map<CallId, Pending> {
    map id: CallId | k <= id < |times| :: Pending(Call(ip, times[id], Wrong), Attempt(0, times[id] + MINUTE))
  }

  lemma OneMoreStep(steps: seq<Step>, step: Step, ip: Ip)
    requires IsRun(steps) && Enabled(StateAfter(steps), step)
    ensures IsRun(steps + [step]) && StateAfter(steps + [step]) == Do(StateAfter(steps), step)
    ensures Counted(steps + [step], ip) == Counted(steps, ip) + CountedBy(StateAfter(steps), step, ip)
  {
    hide Do, Enabled, CountedBy;
    assert (steps + [step])[..|steps|] == steps;
  }

  lemma LeftOneMore(ip: Ip, times: seq<Time>)
    requires times != []
    ensures var n := |times| - 1;
            Left(ip, times, 0) ==
                Left(ip, times[..n], 0)[n := Pending(Call(ip, times[n], Wrong), Attempt(0, times[n] + MINUTE))]
    ensures |times| - 1 !in Left(ip, times[..|times| - 1], 0)
  {
  }

  lemma {:induction false} EnterAll(ip: Ip, times: seq<Time>)
    requires forall t <- times :: t > 0
    ensures var steps := AllEnter(ip, times);
            IsRun(steps) && StateAfter(steps) == State(map[], Left(ip, times, 0)) && Counted(steps, ip) == []
  {
    hide RunOf, Counted;
    if times != [] {
      var n := |times| - 1;
      assert forall t <- times[..n] :: t in times;
      assert times[n] in times;
      EnterAll(ip, times[..n]);
      LeftOneMore(ip, times);
      hide Left;
      OneMoreStep(AllEnter(ip, times[..n]), Enter(n, Call(ip, times[n], Wrong)), ip);
    } else {
      NoSteps(ip);
    }
  }

  lemma NoSteps(ip: Ip)
    ensures IsRun([]) && StateAfter([]) == State(map[], Left(ip, [], 0)) && Counted([], ip) == []
  {
    assert Left(ip, [], 0) == map[];
  }

  lemma LeftOneLess(ip: Ip, times: seq<Time>, k: nat)
    requires 0 < k <= |times|
    ensures k - 1 in Left(ip, times, k - 1) && Left(ip, times, k - 1) - {k - 1} == Left(ip, times, k)
    ensures Left(ip, times, k - 1)[k - 1] == Pending(Call(ip, times[k - 1], Wrong), Attempt(0, times[k - 1] + MINUTE))
    ensures times[..k] == times[..k - 1] + [times[k - 1]]
  {
    assert Left(ip, times, k - 1) - {k - 1} == Left(ip, times, k);
  }

  function LastStored(ip: Ip, times: seq<Time>, k: nat): Table
    requires k <= |times|
  {
    if k == 0 then map[] else map[ip := Attempt(1, times[k - 1] + MINUTE)]
  }

  lemma LeaveOne(ip: Ip, times: seq<Time>, k: nat)
    requires 0 < k <= |times|
    ensures var s := State(LastStored(ip, times, k - 1), Left(ip, times, k - 1));
            && Enabled(s, Leave(k - 1))
            && Do(s, Leave(k - 1)) == State(LastStored(ip, times, k), Left(ip, times, k))
            && CountedBy(s, Leave(k - 1), ip) == [times[k - 1]]
  {
    LeftOneLess(ip, times, k);
    hide Left;
  }

  lemma {:induction false} LeaveFirst(ip: Ip, times: seq<Time>, k: nat)
    requires k <= |times| && forall t <- times :: t > 0
    ensures var steps := AllEnter(ip, times) + FirstLeave(k);
            && IsRun(steps)
            && StateAfter(steps) == State(LastStored(ip, times, k), Left(ip, times, k))
            && Counted(steps, ip) == times[..k]
  {
    hide AllEnter, RunOf, Counted, Left, Do, Enabled, CountedBy;
    if k == 0 {
      EnterAll(ip, times);
      assert AllEnter(ip, times) + FirstLeave(0) == AllEnter(ip, times);
    } else {
      LeaveFirst(ip, times, k - 1);
      LeaveOne(ip, times, k);
      LeftOneLess(ip, times, k);
      var before := AllEnter(ip, times) + FirstLeave(k - 1);
      OneMoreStep(before, Leave(k - 1), ip);
      assert AllEnter(ip, times) + FirstLeave(k) == before + [Leave(k - 1)];
    }
  }

  /**
   Failing calls of one address, as many as there are and at whatever times, that all enter before the first of
   them leaves are all counted, and leave the entry of a single failure behind.
   */
  lemma OverlappingFailuresCountOnce(ip: Ip, times: seq<Time>) returns (steps: seq<Step>)
    requires times != [] && forall t <- times :: t > 0
    ensures IsRun(steps) && Counted(steps, ip) == times
    ensures StateAfter(steps).table == map[ip := Attempt(1, times[|times| - 1] + MINUTE)]
  {
    steps := AllEnter(ip, times) + FirstLeave(|times|);
    LeaveFirst(ip, times, |times|);
    hide RunOf, Counted, AllEnter, FirstLeave, Left;
    assert times[..|times|] == times;
  }

  lemma {:induction false} OrderedEntries(ip: Ip, times: seq<Time>, k: nat)
    requires forall i, j :: 0 <= i < j < |times| ==> times[i] <= times[j]
    requires forall t <- times :: t > 0
    ensures Ordered(AllEnter(ip, times) + FirstLeave(k))
    ensures Clock(AllEnter(ip, times) + FirstLeave(k)) == if times == [] then 0 else times[|times| - 1]
    decreases |times|, k
  {
    var steps := AllEnter(ip, times) + FirstLeave(k);
    if k > 0 {
      OrderedEntries(ip, times, k - 1);
      assert steps[..|steps| - 1] == AllEnter(ip, times) + FirstLeave(k - 1);
    } else if times != [] {
      var n := |times| - 1;
      assert times[n] in times;
      assert forall t <- times[..n] :: t in times;
      OrderedEntries(ip, times[..n], 0);
      assert steps[..|steps| - 1] == AllEnter(ip, times[..n]) + FirstLeave(0);
    }
  }

  /** So with overlap there is no bound at all: for every `n` a run counts `n` failures of an address at one moment. */
  lemma NoBoundWithOverlap(ip: Ip, n: nat) returns (steps: seq<Step>)
    ensures IsRun(steps) && Ordered(steps) && Between(Counted(steps, ip), 1, 1 + MINUTE) == n
  {
    var times := Ones(n);
    steps := AllEnter(ip, times) + FirstLeave(n);
    LeaveFirst(ip, times, n);
    hide RunOf, Counted, AllEnter, FirstLeave, Left, Ordered, Ones;
    assert times[..n] == times;
    OrderedEntries(ip, times, n);
    OnesBetween(n);
  }

  function Ones(n: nat): (r: seq<Time>)
    ensures |r| == n && (forall i :: 0 <= i < n ==> r[i] == 1) && forall t <- r :: t > 0
  {
    if n == 0 then [] else Ones(n - 1) + [1]
  }

  lemma {:induction false} OnesBetween(n: nat)
    ensures Between(Ones(n), 1, 1 + MINUTE) == n
  {
    if n > 0 {
      OnesBetween(n - 1);
      BetweenOneMore(Ones(n - 1), 1, 1, 1 + MINUTE);
    }
  }
}
