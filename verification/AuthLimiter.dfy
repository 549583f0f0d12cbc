/** The fixed-window limiter of failed logins, one window per client address. */
module AuthLimiter {
  type Ip = string

  /** Nanoseconds since the zero time of the clock, which every call comes after. */
  type Time = int

  const MINUTE: int := 60_000_000_000
  const MAX_FAILS: nat := 5

  datatype Attempt = Attempt(fails: nat, reset: Time)

  /** What the request carries: no basic credentials, ones that match an administrator, or ones that match none. */
  datatype Credentials = Missing | Matching | Wrong

  datatype Call = Call(ip: Ip, now: Time, credentials: Credentials)

  datatype Outcome = Limited | NoCredentials | Granted | Denied

  type Table = map<Ip, Attempt>

  /** The entry as the call sees it: a window that is over is replaced by a new one that starts now. */
  function Seen(table: Table, ip: Ip, now: Time): Attempt {
    var a := if ip in table then table[ip] else Attempt(0, 0);
    if now > a.reset then Attempt(0, now + MINUTE) else a
  }

  /** One call that no other call of the same address overlaps. */
  function Serve(table: Table, call: Call): (Table, Outcome) {
    var a := Seen(table, call.ip, call.now);
    if a.fails >= MAX_FAILS then
      (table, Limited)
    else
      match call.credentials
      case Missing => (table, NoCredentials)
      case Matching => (table, Granted)
      case Wrong => (table[call.ip := a.(fails := a.fails + 1)], Denied)
  }

  class Limiter {
    var authLimiter: Table

    constructor ()
      ensures authLimiter == map[]
    {
      authLimiter := map[];
    }

    /** The first locked section: it looks and stores nothing, not even a new window. */
    method Admit(ip: Ip, now: Time) returns (limited: bool, attempt: Attempt)
      ensures attempt == Seen(authLimiter, ip, now) && limited == (attempt.fails >= MAX_FAILS)
    {
      attempt := if ip in authLimiter then authLimiter[ip] else Attempt(0, 0);
      if now > attempt.reset {
        attempt := attempt.(fails := 0);
        attempt := attempt.(reset := now + MINUTE);
      }
      limited := attempt.fails >= MAX_FAILS;
    }

    /** The second locked section: it stores what the first one saw, one failure more. */
    method CountFailure(ip: Ip, seen: Attempt)
      modifies this
      ensures authLimiter == old(authLimiter)[ip := seen.(fails := seen.fails + 1)]
    {
      var attempt := seen;
      attempt := attempt.(fails := attempt.fails + 1);
      authLimiter := authLimiter[ip := attempt];
    }

    method Authenticate(call: Call) returns (outcome: Outcome)
      modifies this
      ensures (authLimiter, outcome) == Serve(old(authLimiter), call)
    {
      var limited, attempt := Admit(call.ip, call.now);
      if limited {
        return Limited;
      }
      match call.credentials
      case Missing =>
        return NoCredentials;
      case Matching =>
        return Granted;
      case Wrong =>
        CountFailure(call.ip, attempt);
        return Denied;
    }
  }

  // ----- Runs

  function After(calls: seq<Call>): Table {
    if calls == [] then map[] else Serve(After(calls[..|calls| - 1]), calls[|calls| - 1]).0
  }

  /** What the next call of a run is answered. */
  function Answer(calls: seq<Call>, call: Call): Outcome {
    Serve(After(calls), call).1
  }

  /** The times at which the run counted a failure of `ip`. */
  function Failures(calls: seq<Call>, ip: Ip): seq<Time> {
    if calls == [] then
      []
    else
      var n := |calls| - 1;
      Failures(calls[..n], ip) +
      if calls[n].ip == ip && Answer(calls[..n], calls[n]).Denied? then [calls[n].now] else []
  }

  ghost predicate InOrder(calls: seq<Call>) {
    && (forall c <- calls :: c.now > 0)
    && forall i, j :: 0 <= i < j < |calls| ==> calls[i].now <= calls[j].now
  }

  function Between(times: seq<Time>, from: Time, to: Time): nat {
    if times == [] then
      0
    else
      var n := |times| - 1;
      Between(times[..n], from, to) + if from <= times[n] <= to then 1 else 0
  }

  lemma BetweenOneMore(times: seq<Time>, t: Time, from: Time, to: Time)
    ensures Between(times + [t], from, to) == Between(times, from, to) + if from <= t <= to then 1 else 0
  {
    assert (times + [t])[..|times|] == times;
  }

  lemma {:induction false} BetweenGrows(times: seq<Time>, from: Time, to: Time, from': Time, to': Time)
    requires from <= from' && to' <= to
    ensures Between(times, from', to') <= Between(times, from, to)
  {
    if times != [] {
      BetweenGrows(times[..|times| - 1], from, to, from', to');
    }
  }

  lemma {:induction false} BetweenSplits(times: seq<Time>, from: Time, cut: Time, to: Time)
    requires from <= cut <= to + 1
    ensures Between(times, from, to) == Between(times, from, cut - 1) + Between(times, cut, to)
  {
    if times != [] {
      BetweenSplits(times[..|times| - 1], from, cut, to);
    }
  }

  /** A stretch that no failure falls into counts none. */
  lemma {:induction false} BetweenNone(times: seq<Time>, from: Time, to: Time)
    requires forall t <- times :: !(from <= t <= to)
    ensures Between(times, from, to) == 0
  {
    if times != [] {
      var n := |times| - 1;
      assert times[n] in times;
      assert forall t <- times[..n] :: t in times;
      BetweenNone(times[..n], from, to);
    }
  }

  /** What the stored entry says about the history. */
  ghost predicate Explains(a: Attempt, times: seq<Time>, last: Time) {
    var start := a.reset - 60_000_000_000;
    && 1 <= a.fails <= 5
    && 0 < start <= last
    && (forall t <- times :: t <= last && t <= a.reset)
    && Between(times, start, a.reset) == a.fails
    && Between(times, start + 1, a.reset) < a.fails
    && Between(times, start - 60_000_000_000, start - 1) < 5
  }

  ghost predicate TableExplains(table: Table, ip: Ip, times: seq<Time>, last: Time) {
    if ip in table then Explains(table[ip], times, last) else times == []
  }

  /** A failure counted in the window that is stored. */
  lemma SameWindow(a: Attempt, times: seq<Time>, last: Time, now: Time)
    requires Explains(a, times, last) && last <= now <= a.reset && a.fails < MAX_FAILS
    ensures Explains(a.(fails := a.fails + 1), times + [now], now)
  {
    var start := a.reset - MINUTE;
    BetweenOneMore(times, now, start, a.reset);
    BetweenOneMore(times, now, start + 1, a.reset);
    BetweenOneMore(times, now, start - MINUTE, start - 1);
  }

  /** A failure that opens a window: at most four of the window before fall into the minute before it. */
  lemma NewWindow(a: Attempt, times: seq<Time>, last: Time, now: Time)
    requires Explains(a, times, last) && last <= now && a.reset < now
    ensures Explains(Attempt(1, now + MINUTE), times + [now], now)
  {
    BetweenNone(times, now, now + MINUTE);
    BetweenNone(times, now + 1, now + MINUTE);
    BetweenOneMore(times, now, now, now + MINUTE);
    BetweenOneMore(times, now, now + 1, now + MINUTE);
    BetweenOneMore(times, now, now - MINUTE, now - 1);
    if now - MINUTE <= a.reset {
      BetweenNone(times, a.reset + 1, now - 1);
      BetweenSplits(times, now - MINUTE, a.reset + 1, now - 1);
      BetweenGrows(times, a.reset - MINUTE + 1, a.reset, now - MINUTE, a.reset);
    } else {
      BetweenNone(times, now - MINUTE, now - 1);
    }
  }

  lemma FirstWindow(now: Time)
    requires now > 0
    ensures Explains(Attempt(1, now + MINUTE), [now], now)
  {
    assert [now][..0] == [];
  }

  lemma Later(table: Table, ip: Ip, times: seq<Time>, last: Time, now: Time)
    requires TableExplains(table, ip, times, last) && last <= now
    ensures TableExplains(table, ip, times, now)
  {
  }

  function LastTime(calls: seq<Call>): Time {
    if calls == [] then 0 else calls[|calls| - 1].now
  }

  lemma ServeExplains(table: Table, ip: Ip, times: seq<Time>, last: Time, call: Call)
    requires TableExplains(table, ip, times, last) && 0 <= last <= call.now && 0 < call.now
    ensures var (after, outcome) := Serve(table, call);
            TableExplains(after, ip, if call.ip == ip && outcome.Denied? then times + [call.now] else times, call.now)
  {
    hide Explains;
    Later(table, ip, times, last, call.now);
    if call.ip == ip && Serve(table, call).1.Denied? {
      var now := call.now;
      if ip !in table {
        FirstWindow(now);
        assert [] + [now] == [now];
      } else if now > table[ip].reset {
        NewWindow(table[ip], times, last, now);
      } else {
        SameWindow(table[ip], times, last, now);
      }
    }
  }

  /** In every run the stored count is the number of failures since its window began, and never above five. */
  lemma {:induction false} StoredCountIsTheWindow(calls: seq<Call>, ip: Ip)
    requires InOrder(calls)
    ensures TableExplains(After(calls), ip, Failures(calls, ip), LastTime(calls))
  {
    hide TableExplains, Serve;
    if calls == [] {
      EmptyExplains(ip);
    } else {
      var n := |calls| - 1;
      StoredCountIsTheWindow(calls[..n], ip);
      assert calls[n] in calls;
      assert forall c <- calls[..n] :: c in calls;
      ServeExplains(After(calls[..n]), ip, Failures(calls[..n], ip), LastTime(calls[..n]), calls[n]);
      assert Failures(calls[..n], ip) + [] == Failures(calls[..n], ip);
    }
  }

  lemma EmptyExplains(ip: Ip)
    ensures TableExplains(map[], ip, [], 0)
  {
  }

  lemma TableEntryExplains(table: Table, ip: Ip, times: seq<Time>, last: Time)
    requires TableExplains(table, ip, times, last) && times != []
    ensures ip in table && Explains(table[ip], times, last)
  {
    hide Explains;
  }

  /** At most nine failures are counted in any minute: four at the end of one window and five in the next. */
  lemma {:induction false} NineInAnyMinute(calls: seq<Call>, ip: Ip, from: Time)
    requires InOrder(calls)
    ensures Between(Failures(calls, ip), from, from + 60_000_000_000) <= 9
  {
    hide Serve, Explains, After, TableExplains, Between;
    if calls == [] {
      NothingCounted(ip, from, from + MINUTE);
    } else {
      var n := |calls| - 1;
      assert forall c <- calls[..n] :: c in calls;
      NineInAnyMinute(calls[..n], ip, from);
      var now := calls[n].now;
      if calls[n].ip == ip && Answer(calls[..n], calls[n]).Denied? {
        BetweenOneMore(Failures(calls[..n], ip), now, from, from + MINUTE);
        if from <= now <= from + MINUTE {
          StoredCountIsTheWindow(calls, ip);
          var times := Failures(calls, ip);
          assert times == Failures(calls[..n], ip) + [now];
          assert times[|times| - 1] == now;
          TableEntryExplains(After(calls), ip, times, now);
          LastMinute(After(calls)[ip], times, now, from);
        }
      } else {
        assert Failures(calls, ip) == Failures(calls[..n], ip);
      }
    }
  }

  lemma LastMinute(a: Attempt, times: seq<Time>, last: Time, from: Time)
    requires Explains(a, times, last) && from <= last <= from + MINUTE && last in times
    ensures Between(times, from, from + MINUTE) <= 9
  {
    var start := a.reset - MINUTE;
    var to := from + MINUTE;
    BetweenNone(times, a.reset + 1, to + MINUTE);
    BetweenGrows(times, start - MINUTE, to + MINUTE, from, to);
    BetweenSplits(times, start - MINUTE, a.reset + 1, to + MINUTE);
    BetweenSplits(times, start - MINUTE, start, a.reset);
  }

  /**
   A call is turned away exactly if the window stored for its address holds five counted failures and is not
   over, and then all five lie within the last minute: whoever waits a minute after a failure is heard again.
   */
  lemma LimitedIff(calls: seq<Call>, call: Call)
    requires InOrder(calls + [call])
    ensures var (table, times) := (After(calls), Failures(calls, call.ip));
            && (Answer(calls, call).Limited? <==>
                  call.ip in table && table[call.ip].fails == 5 && call.now <= table[call.ip].reset)
            && (Answer(calls, call).Limited? ==> Between(times, call.now - 60_000_000_000, call.now) >= 5)
            && (!Answer(calls, call).Limited? ==>
                  && (Answer(calls, call).Granted? <==> call.credentials.Matching?)
                  && (Answer(calls, call).Denied? <==> call.credentials.Wrong?))
  {
    hide After, Failures, Explains;
    InOrderPrefix(calls, call);
    StoredCountIsTheWindow(calls, call.ip);
    if call.ip in After(calls) {
      FullWindow(After(calls)[call.ip], Failures(calls, call.ip), LastTime(calls), call.now);
    }
  }

  lemma FullWindow(a: Attempt, times: seq<Time>, last: Time, now: Time)
    requires Explains(a, times, last) && last <= now
    ensures a.fails <= MAX_FAILS
    ensures now <= a.reset ==> Between(times, now - MINUTE, now) >= a.fails
  {
    if now <= a.reset {
      BetweenSplits(times, a.reset - MINUTE, now + 1, a.reset);
      BetweenNone(times, now + 1, a.reset);
      BetweenGrows(times, now - MINUTE, now, a.reset - MINUTE, now);
    }
  }

  lemma InOrderPrefix(calls: seq<Call>, call: Call)
    requires InOrder(calls + [call])
    ensures InOrder(calls) && 0 <= LastTime(calls) <= call.now && 0 < call.now
  {
    var all := calls + [call];
    assert forall i | 0 <= i < |calls| :: all[i] == calls[i];
    assert all[|calls|] == call && call in all;
    forall c <- calls
      ensures c.now > 0
    {
      assert c in all;
    }
  }

  /** Being turned away changes nothing, so hammering does not lengthen the block. */
  lemma TurnedAwayChangesNothing(calls: seq<Call>, call: Call)
    requires !Answer(calls, call).Denied?
    ensures After(calls + [call]) == After(calls)
  {
    assert (calls + [call])[..|calls|] == calls;
  }

  // ----- Addresses do not disturb each other

  function Only(calls: seq<Call>, ip: Ip): seq<Call> {
    if calls == [] then
      []
    else
      var n := |calls| - 1;
      Only(calls[..n], ip) + if calls[n].ip == ip then [calls[n]] else []
  }

  /** What an address is answered depends on its own calls alone. */
  lemma {:induction false} AddressesAreIndependent(calls: seq<Call>, call: Call)
    ensures Answer(calls, call) == Answer(Only(calls, call.ip), call)
  {
    SameEntry(calls, call.ip);
  }

  predicate SameAt(a: Table, b: Table, ip: Ip) {
    (ip in a <==> ip in b) && (ip in a ==> a[ip] == b[ip])
  }

  lemma {:induction false} SameEntry(calls: seq<Call>, ip: Ip)
    ensures SameAt(After(calls), After(Only(calls, ip)), ip)
  {
    hide Serve, SameAt;
    if calls == [] {
      NoEntry(ip);
    } else {
      var n := |calls| - 1;
      SameEntry(calls[..n], ip);
      ServeOneEntry(After(calls[..n]), After(Only(calls[..n], ip)), ip, calls[n]);
      if calls[n].ip == ip {
        assert Only(calls, ip)[..|Only(calls[..n], ip)|] == Only(calls[..n], ip);
      } else {
        assert Only(calls, ip) == Only(calls[..n], ip);
      }
    }
  }

  lemma NoEntry(ip: Ip)
    ensures SameAt(map[], map[], ip)
  {
  }

  lemma ServeOneEntry(a: Table, b: Table, ip: Ip, call: Call)
    requires SameAt(a, b, ip)
    ensures SameAt(Serve(a, call).0, if call.ip == ip then Serve(b, call).0 else b, ip)
  {
  }

  // ----- Nine is reached

  function Repeat(call: Call, n: nat): seq<Call> {
    if n == 0 then [] else Repeat(call, n - 1) + [call]
  }

  /** Wrong credentials `n` times at one moment of a window with room for them. */
  lemma {:induction false} Hammer(calls: seq<Call>, call: Call, n: nat, a: Attempt, from: Time, to: Time)
    requires call.credentials.Wrong? && a == Seen(After(calls), call.ip, call.now) && call.now <= a.reset
             && a.fails + n <= MAX_FAILS
    ensures var (all, ip) := (calls + Repeat(call, n), call.ip);
            && (n > 0 ==> ip in After(all) && After(all)[ip] == a.(fails := a.fails + n))
            && Seen(After(all), ip, call.now) == a.(fails := a.fails + n)
            && Between(Failures(all, ip), from, to) ==
                Between(Failures(calls, ip), from, to) + if from <= call.now <= to then n else 0
  {
    hide Seen, After, Failures, Between;
    if n == 0 {
      assert calls + Repeat(call, 0) == calls;
    } else {
      var before := calls + Repeat(call, n - 1);
      Hammer(calls, call, n - 1, a, from, to);
      OneWrongCall(before, call, from, to);
      assert calls + Repeat(call, n) == before + [call];
      SeenAgain(After(before), call.ip, call.now, a.(fails := a.fails + n));
    }
  }

  /** An open window is seen as it is stored. */
  lemma SeenAgain(table: Table, ip: Ip, now: Time, a: Attempt)
    requires now <= a.reset
    ensures Seen(table[ip := a], ip, now) == a
  {
  }

  lemma OneWrongCall(calls: seq<Call>, call: Call, from: Time, to: Time)
    requires call.credentials.Wrong? && Seen(After(calls), call.ip, call.now).fails < MAX_FAILS
    ensures var (a, all, ip) := (Seen(After(calls), call.ip, call.now), calls + [call], call.ip);
            && After(all) == After(calls)[ip := a.(fails := a.fails + 1)]
            && Between(Failures(all, ip), from, to) ==
                Between(Failures(calls, ip), from, to) + if from <= call.now <= to then 1 else 0
  {
    hide Seen;
    assert (calls + [call])[..|calls|] == calls;
    BetweenOneMore(Failures(calls, call.ip), call.now, from, to);
  }

  /** Four failures when a window ends, and five a moment later: nine within a minute. */
  lemma NineIsReached(ip: Ip)
    ensures var end := 1 + MINUTE;
            var calls := Repeat(Call(ip, 1, Wrong), 1) + Repeat(Call(ip, end, Wrong), 4)
                + Repeat(Call(ip, end + 1, Wrong), 5);
            Between(Failures(calls, ip), 2, 2 + 60_000_000_000) == 9
  {
    hide After, Failures, Between, Repeat;
    var end := 1 + MINUTE;
    var c0, c1, c2 := Call(ip, 1, Wrong), Call(ip, end, Wrong), Call(ip, end + 1, Wrong);
    NothingCounted(ip, 2, 2 + MINUTE);
    Hammer([], c0, 1, Attempt(0, end), 2, 2 + MINUTE);
    var first := Repeat(c0, 1);
    assert [] + first == first;
    Hammer(first, c1, 4, Attempt(1, end), 2, 2 + MINUTE);
    var second := first + Repeat(c1, 4);
    Hammer(second, c2, 5, Attempt(0, end + 1 + MINUTE), 2, 2 + MINUTE);
  }

  lemma NothingCounted(ip: Ip, from: Time, to: Time)
    ensures After([]) == map[] && Between(Failures([], ip), from, to) == 0
  {
  }

  // ----- One call in two sections

  /**
   A failing call that saw `before` and counts itself into `table` does what one undivided call would do exactly
   if it would still see the same.
   */
  lemma TwoSectionsAreOneStepIff(before: Table, table: Table, ip: Ip, now: Time)
    requires Seen(before, ip, now).fails < MAX_FAILS
    ensures var a := Seen(before, ip, now);
            (table[ip := a.(fails := a.fails + 1)], Denied) == Serve(table, Call(ip, now, Wrong)) <==>
                Seen(table, ip, now) == a
  {
    var a, b := Seen(before, ip, now), Seen(table, ip, now);
    if b.fails < MAX_FAILS && a != b {
      assert table[ip := a.(fails := a.fails + 1)][ip] != table[ip := b.(fails := b.fails + 1)][ip];
    }
  }
}
