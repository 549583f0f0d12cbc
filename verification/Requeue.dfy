/** Putting dead letter queue entries back into the package queue, in one transaction. */
module Requeue {
  import opened Base

  type DlqId = string

  /**
   A package row's key: one stored before, or the one drawn for the row that replaces a lost package of a DLQ entry.
   */
  datatype PackageId = Stored(uuid: string) | Recreated(entry: DlqId)

  datatype Status = Pending | OtherStatus(name: string)

  datatype Package = Package(payload: string, status: Status, retryCount: nat, nextRetryAt: Option<int>,
      errorMessage: Option<string>)

  datatype DlqRow = DlqRow(packageId: Option<PackageId>, payload: string)

  datatype Tables = Tables(dlq: map<DlqId, DlqRow>, packages: map<PackageId, Package>)

  /** Which of the three statements for an entry the database refuses. */
  datatype Fault = NoFault | FetchFault | PackageFault | DeleteFault

  datatype Outcome =
    | Requeued
    | FetchFailed(id: DlqId)
    | PackageFailed(id: DlqId)
    | DeleteFailed(id: DlqId)
    | BeginFailed
    | CommitFailed

  /** The clock of the transaction, and the column defaults of a new package. */
  datatype Context = Context(now: int, defaults: Package)

  function Reset(c: Context, p: Package): Package {
    p.(status := Pending, retryCount := 0, nextRetryAt := Some(c.now), errorMessage := None)
  }

  function NewPackage(c: Context, payload: string): Package {
    c.defaults.(payload := payload, status := Pending)
  }

  // ----- The loop

  /** The package statement: an UPDATE that matches no row changes nothing and is no error. */
  function ServePackage(c: Context, t: Tables, id: DlqId): Tables
    requires id in t.dlq
  {
    match t.dlq[id].packageId
    case Some(p) => if p in t.packages then t.(packages := t.packages[p := Reset(c, t.packages[p])]) else t
    case None => t.(packages := t.packages[Recreated(id) := NewPackage(c, t.dlq[id].payload)])
  }

  function RequeueOne(c: Context, t: Tables, id: DlqId, fault: Fault): (Tables, Outcome) {
    if id !in t.dlq || fault.FetchFault? then
      (t, FetchFailed(id))
    else if fault.PackageFault? then
      (t, PackageFailed(id))
    else if fault.DeleteFault? then
      (ServePackage(c, t, id), DeleteFailed(id))
    else
      var served := ServePackage(c, t, id);
      (served.(dlq := served.dlq - {id}), Requeued)
  }

  /** The tables as the transaction sees them after `ids`, and how far it got. */
  function RequeueAll(c: Context, t: Tables, ids: seq<DlqId>, faults: seq<Fault>): (Tables, Outcome)
    requires |faults| == |ids|
  {
    if ids == [] then
      (t, Requeued)
    else
      var n := |ids| - 1;
      var (before, outcome) := RequeueAll(c, t, ids[..n], faults[..n]);
      if outcome.Requeued? then RequeueOne(c, before, ids[n], faults[n]) else (before, outcome)
  }

  class Database {
    var dlq: map<DlqId, DlqRow>
    var packages: map<PackageId, Package>

    constructor (t: Tables)
      ensures View() == t
    {
      dlq, packages := t.dlq, t.packages;
    }

    function View(): Tables
      reads this
    {
      Tables(dlq, packages)
    }

    method RequeueDLQEntries(c: Context, ids: seq<DlqId>, faults: seq<Fault>, beginFails: bool, commitFails: bool)
      returns (outcome: Outcome)
      requires |faults| == |ids|
      modifies this
      ensures beginFails ==> outcome == BeginFailed
      ensures !beginFails ==>
                var (after, end) := RequeueAll(c, old(View()), ids, faults);
                outcome == if end.Requeued? && commitFails then CommitFailed else end
      ensures View() == if outcome.Requeued? then RequeueAll(c, old(View()), ids, faults).0 else old(View())
    {
      if beginFails {
        return BeginFailed;
      }
      var tx := View();
      for i := 0 to |ids|
        invariant View() == old(View())
        invariant RequeueAll(c, old(View()), ids[..i], faults[..i]) == (tx, Requeued)
      {
        var id := ids[i];
        TakeOneMore(c, old(View()), ids, faults, i);
        if id !in tx.dlq || faults[i].FetchFault? {
          StopsAt(c, old(View()), ids, faults, i);
          return FetchFailed(id);
        }
        var row := tx.dlq[id];
        if faults[i].PackageFault? {
          StopsAt(c, old(View()), ids, faults, i);
          return PackageFailed(id);
        }
        if row.packageId.Some? {
          var p := row.packageId.value;
          if p in tx.packages {
            tx := tx.(packages := tx.packages[p := Reset(c, tx.packages[p])]);
          }
        } else {
          tx := tx.(packages := tx.packages[Recreated(id) := NewPackage(c, row.payload)]);
        }
        if faults[i].DeleteFault? {
          StopsAt(c, old(View()), ids, faults, i);
          return DeleteFailed(id);
        }
        tx := tx.(dlq := tx.dlq - {id});
      }
      assert ids[..|ids|] == ids && faults[..|faults|] == faults;
      if commitFails {
        return CommitFailed;
      }
      dlq, packages := tx.dlq, tx.packages;
      outcome := Requeued;
    }
  }

  lemma TakeOneMore(c: Context, t: Tables, ids: seq<DlqId>, faults: seq<Fault>, i: nat)
    requires |faults| == |ids| && i < |ids|
    ensures var (before, outcome) := RequeueAll(c, t, ids[..i], faults[..i]);
            RequeueAll(c, t, ids[..i + 1], faults[..i + 1]) ==
            if outcome.Requeued? then RequeueOne(c, before, ids[i], faults[i]) else (before, outcome)
  {
    assert ids[..i + 1][..i] == ids[..i] && faults[..i + 1][..i] == faults[..i];
  }

  /** A loop that has stopped stays stopped. */
  lemma {:induction false} StopsAt(c: Context, t: Tables, ids: seq<DlqId>, faults: seq<Fault>, i: nat)
    requires |faults| == |ids| && i < |ids| && !RequeueAll(c, t, ids[..i + 1], faults[..i + 1]).1.Requeued?
    ensures RequeueAll(c, t, ids, faults) == RequeueAll(c, t, ids[..i + 1], faults[..i + 1])
  {
    var n := |ids| - 1;
    if i < n {
      assert ids[..n][..i + 1] == ids[..i + 1] && faults[..n][..i + 1] == faults[..i + 1];
      StopsAt(c, t, ids[..n], faults[..n], i);
    } else {
      assert ids[..i + 1] == ids && faults[..i + 1] == faults;
    }
  }

  // ----- What a requeue amounts to

  ghost predicate Referenced(t: Tables, ids: set<DlqId>, p: PackageId) {
    exists id :: id in ids && id in t.dlq && t.dlq[id].packageId == Some(p)
  }

  ghost predicate Replaces(t: Tables, ids: set<DlqId>, p: PackageId) {
    p.Recreated? && p.entry in ids && p.entry in t.dlq && t.dlq[p.entry].packageId.None?
  }

  /** Keys drawn in the transaction have not been in use. */
  ghost predicate FreshKeys(t: Tables) {
    forall id <- t.dlq :: Recreated(id) !in t.packages && forall other <- t.dlq ::
        t.dlq[other].packageId != Some(Recreated(id))
  }

  ghost predicate KeysAre(t: Tables, ids: set<DlqId>, after: Tables) {
    forall p :: p in after.packages <==> p in t.packages || Replaces(t, ids, p)
  }

  ghost predicate OldRowsAre(c: Context, t: Tables, ids: set<DlqId>, after: Tables) {
    forall p <- t.packages ::
      p in after.packages && after.packages[p] == if Referenced(t, ids, p) then Reset(c, t.packages[p])
          else t.packages[p]
  }

  ghost predicate NewRowsAre(c: Context, t: Tables, ids: set<DlqId>, after: Tables) {
    forall p | Replaces(t, ids, p) :: p in after.packages && after.packages[p] == NewPackage(c, t.dlq[p.entry].payload)
  }

  /**
   The tables once the entries `ids` have been requeued: exactly they are gone from the queue, packages they
   refer to are reset, each entry without a package has a new one, and everything else is as it was.
   */
  ghost predicate IsRequeued(c: Context, t: Tables, ids: set<DlqId>, after: Tables) {
    && after.dlq == t.dlq - ids
    && KeysAre(t, ids, after)
    && OldRowsAre(c, t, ids, after)
    && NewRowsAre(c, t, ids, after)
  }

  lemma RequeuedIsUnique(c: Context, t: Tables, ids: set<DlqId>, a: Tables, b: Tables)
    requires FreshKeys(t) && IsRequeued(c, t, ids, a) && IsRequeued(c, t, ids, b)
    ensures a == b
  {
    hide Referenced;
    assert a.packages.Keys == b.packages.Keys;
    forall p <- a.packages
      ensures a.packages[p] == b.packages[p]
    {
      assert p in t.packages || Replaces(t, ids, p);
    }
    assert a.packages == b.packages;
  }

  /** Which packages one more entry touches. */
  lemma OneMoreTouches(t: Tables, done: set<DlqId>, id: DlqId, p: PackageId)
    requires id in t.dlq
    ensures Replaces(t, done + {id}, p) <==> Replaces(t, done, p) || (p == Recreated(id) && t.dlq[id].packageId.None?)
    ensures Referenced(t, done + {id}, p) <==> Referenced(t, done, p) || t.dlq[id].packageId == Some(p)
  {
    if t.dlq[id].packageId == Some(p) {
      assert id in done + {id};
    }
    if Referenced(t, done, p) {
      var other :| other in done && other in t.dlq && t.dlq[other].packageId == Some(p);
      assert other in done + {id};
    }
  }

  lemma KeysGrow(c: Context, t: Tables, done: set<DlqId>, id: DlqId, mid: Tables)
    requires id in t.dlq && id in mid.dlq && mid.dlq[id] == t.dlq[id] && KeysAre(t, done, mid)
    ensures KeysAre(t, done + {id}, ServePackage(c, mid, id))
  {
    hide Referenced, Replaces;
    forall p
      ensures p in ServePackage(c, mid, id).packages <==> p in t.packages || Replaces(t, done + {id}, p)
    {
      OneMoreTouches(t, done, id, p);
    }
  }

  lemma OldRowsGrow(c: Context, t: Tables, done: set<DlqId>, id: DlqId, mid: Tables)
    requires FreshKeys(t) && id in t.dlq && id in mid.dlq && mid.dlq[id] == t.dlq[id] && OldRowsAre(c, t, done, mid)
    ensures OldRowsAre(c, t, done + {id}, ServePackage(c, mid, id))
  {
    hide Referenced, Replaces;
    var after := ServePackage(c, mid, id);
    forall p <- t.packages
      ensures p in after.packages
      ensures after.packages[p] == if Referenced(t, done + {id}, p) then Reset(c, t.packages[p]) else t.packages[p]
    {
      OneMoreTouches(t, done, id, p);
      assert p in mid.packages && p != Recreated(id);
    }
  }

  lemma NewRowsGrow(c: Context, t: Tables, done: set<DlqId>, id: DlqId, mid: Tables)
    requires FreshKeys(t) && id in t.dlq && id in mid.dlq && mid.dlq[id] == t.dlq[id] && id !in done
             && NewRowsAre(c, t, done, mid)
    ensures NewRowsAre(c, t, done + {id}, ServePackage(c, mid, id))
  {
    hide Referenced;
    var after := ServePackage(c, mid, id);
    forall p | Replaces(t, done + {id}, p)
      ensures p in after.packages && after.packages[p] == NewPackage(c, t.dlq[p.entry].payload)
    {
      OneMoreTouches(t, done, id, p);
      assert t.dlq[id].packageId != Some(p);
    }
  }

  /** One more entry. */
  lemma RequeueOneAdds(c: Context, t: Tables, done: set<DlqId>, id: DlqId, mid: Tables)
    requires FreshKeys(t) && IsRequeued(c, t, done, mid) && id in t.dlq && id !in done
    ensures IsRequeued(c, t, done + {id}, RequeueOne(c, mid, id, NoFault).0)
  {
    hide FreshKeys, KeysAre, OldRowsAre, NewRowsAre;
    assert id in mid.dlq && mid.dlq[id] == t.dlq[id];
    KeysGrow(c, t, done, id, mid);
    OldRowsGrow(c, t, done, id, mid);
    NewRowsGrow(c, t, done, id, mid);
    var served := ServePackage(c, mid, id);
    var after := RequeueOne(c, mid, id, NoFault).0;
    assert served.packages == after.packages;
    SamePackages(c, t, done + {id}, served, after);
  }

  lemma SamePackages(c: Context, t: Tables, ids: set<DlqId>, a: Tables, b: Tables)
    requires a.packages == b.packages && KeysAre(t, ids, a) && OldRowsAre(c, t, ids, a) && NewRowsAre(c, t, ids, a)
    ensures KeysAre(t, ids, b) && OldRowsAre(c, t, ids, b) && NewRowsAre(c, t, ids, b)
  {
    hide Replaces, Referenced;
  }

  /** The requests that can be met: distinct entries, all in the queue. */
  ghost predicate CanRequeue(t: Tables, ids: seq<DlqId>) {
    Distinct(ids) && forall id <- ids :: id in t.dlq
  }

  ghost predicate NoFaults(faults: seq<Fault>) {
    forall f <- faults :: f.NoFault?
  }

  lemma OneMoreId(t: Tables, ids: seq<DlqId>, faults: seq<Fault>)
    requires |faults| == |ids| > 0
    ensures var n := |ids| - 1;
            && (CanRequeue(t, ids) <==> CanRequeue(t, ids[..n]) && ids[n] in t.dlq && ids[n] !in ToSet(ids[..n]))
            && (NoFaults(faults) <==> NoFaults(faults[..n]) && faults[n].NoFault?)
            && ToSet(ids) == ToSet(ids[..n]) + {ids[n]}
  {
    var n := |ids| - 1;
    assert ids == ids[..n] + [ids[n]] && faults == faults[..n] + [faults[n]];
    assert ToSet(ids) == ToSet(ids[..n]) + {ids[n]};
    if CanRequeue(t, ids) {
      assert ids[n] in ids;
      assert ids[n] !in ids[..n];
      assert forall id <- ids[..n] :: id in ids;
    }
    if NoFaults(faults) {
      assert forall f <- faults[..n] :: f in faults;
      assert faults[n] in faults;
    }
  }

  /**
   A request succeeds exactly if its ids are distinct and in the queue and the database refuses nothing; then it does
   what it should.
   */
  lemma {:induction false} RequeueAllIs(c: Context, t: Tables, ids: seq<DlqId>, faults: seq<Fault>)
    requires FreshKeys(t) && |faults| == |ids|
    ensures var (after, outcome) := RequeueAll(c, t, ids, faults);
            && (outcome.Requeued? <==> CanRequeue(t, ids) && NoFaults(faults))
            && (outcome.Requeued? ==> IsRequeued(c, t, ToSet(ids), after))
  {
    hide FreshKeys;
    if ids == [] {
      NothingRequeued(c, t);
    } else {
      var n := |ids| - 1;
      RequeueAllIs(c, t, ids[..n], faults[..n]);
      OneMoreId(t, ids, faults);
      hide CanRequeue, NoFaults, ToSet, ServePackage;
      var (before, outcome) := RequeueAll(c, t, ids[..n], faults[..n]);
      if outcome.Requeued? {
        var id := ids[n];
        assert before.dlq == t.dlq - ToSet(ids[..n]);
        if id in t.dlq && id !in ToSet(ids[..n]) {
          assert id in before.dlq;
          RequeueOneAdds(c, t, ToSet(ids[..n]), id, before);
        } else {
          assert id !in before.dlq;
        }
      }
    }
  }

  lemma NothingRequeued(c: Context, t: Tables)
    ensures IsRequeued(c, t, ToSet([]), t) && CanRequeue(t, [])
  {
    assert t.dlq - {} == t.dlq;
    assert ToSet<DlqId>([]) == {};
  }

  /**
   A request that fails stops at the first id that is not queued, comes up again, or has a statement refused, and says
   which.
   */
  lemma {:induction false} StopsAtFirstTrouble(c: Context, t: Tables, ids: seq<DlqId>, faults: seq<Fault>)
    returns (k: nat)
    requires FreshKeys(t) && |faults| == |ids| && !RequeueAll(c, t, ids, faults).1.Requeued?
    ensures k < |ids| && CanRequeue(t, ids[..k]) && NoFaults(faults[..k])
    ensures var absent := ids[k] !in t.dlq || ids[k] in ids[..k];
            && (absent || !faults[k].NoFault?)
            && RequeueAll(c, t, ids, faults).1 ==
               if absent || faults[k].FetchFault? then FetchFailed(ids[k])
               else if faults[k].PackageFault? then PackageFailed(ids[k])
               else DeleteFailed(ids[k])
  {
    hide FreshKeys, CanRequeue, NoFaults, ServePackage, IsRequeued;
    var n := |ids| - 1;
    var (before, outcome) := RequeueAll(c, t, ids[..n], faults[..n]);
    if outcome.Requeued? {
      k := n;
      RequeueAllIs(c, t, ids[..n], faults[..n]);
      QueueLeft(c, t, ids[..n], before);
    } else {
      k := StopsAtFirstTrouble(c, t, ids[..n], faults[..n]);
      assert ids[..n][..k] == ids[..k] && faults[..n][..k] == faults[..k];
    }
  }

  lemma QueueLeft(c: Context, t: Tables, ids: seq<DlqId>, after: Tables)
    requires IsRequeued(c, t, ToSet(ids), after)
    ensures forall id :: id in after.dlq <==> id in t.dlq && id !in ids
  {
  }

  /** The order of the ids does not matter. */
  lemma OrderDoesNotMatter(c: Context, t: Tables, ids: seq<DlqId>, other: seq<DlqId>, faults: seq<Fault>)
    requires FreshKeys(t) && |faults| == |ids| && NoFaults(faults) && multiset(ids) == multiset(other)
    ensures |ids| == |other|
    ensures var (a, b) := (RequeueAll(c, t, ids, faults), RequeueAll(c, t, other, faults));
            (a.1.Requeued? <==> b.1.Requeued?) && (a.1.Requeued? ==> a == b)
  {
    assert |multiset(ids)| == |multiset(other)|;
    RequeueAllIs(c, t, ids, faults);
    RequeueAllIs(c, t, other, faults);
    forall id
      ensures id in ids <==> id in other
    {
      assert id in multiset(ids) <==> id in multiset(other);
    }
    assert ToSet(ids) == ToSet(other);
    DistinctByCount(ids);
    DistinctByCount(other);
    if RequeueAll(c, t, ids, faults).1.Requeued? {
      RequeuedIsUnique(c, t, ToSet(ids), RequeueAll(c, t, ids, faults).0, RequeueAll(c, t, other, faults).0);
    }
  }

  lemma DistinctByCount(ids: seq<DlqId>)
    ensures Distinct(ids) <==> forall id :: multiset(ids)[id] <= 1
  {
    if Distinct(ids) {
      forall id
        ensures multiset(ids)[id] <= 1
      {
        CountedOnce(ids, id);
      }
    } else {
      var i, j :| 0 <= i < j < |ids| && ids[i] == ids[j];
      assert ids == ids[..j] + ids[j..];
      assert ids[i] in ids[..j] && ids[j] in ids[j..];
      assert multiset(ids)[ids[i]] > 1;
    }
  }

  lemma {:induction false} CountedOnce(ids: seq<DlqId>, id: DlqId)
    requires Distinct(ids)
    ensures multiset(ids)[id] <= 1
  {
    if ids != [] {
      var n := |ids| - 1;
      CountedOnce(ids[..n], id);
      assert ids == ids[..n] + [ids[n]];
      assert ids[n] !in ids[..n];
      assert ids[n] !in multiset(ids[..n]);
    }
  }

  /**
   After a successful request an entry that names a package has that package pending, with the package's own
   payload, if it still exists; an entry that names none has a new package pending with the entry's payload. So the
   entry's payload is pending in its package exactly if there was none or the two payloads agree.
   */
  lemma EveryEntryIsPending(c: Context, t: Tables, ids: seq<DlqId>, faults: seq<Fault>, id: DlqId)
    requires FreshKeys(t) && |faults| == |ids| && id in ids
    requires RequeueAll(c, t, ids, faults).1.Requeued?
    ensures var after := RequeueAll(c, t, ids, faults).0;
            && id in t.dlq && id !in after.dlq
            && match t.dlq[id].packageId
               case Some(p) =>
                 && (p in t.packages <==> p in after.packages)
                 && (p in after.packages ==>
                     after.packages[p] == Package(t.packages[p].payload, Pending, 0, Some(c.now), None))
                 && (p in t.packages ==>
                     (after.packages[p].payload == t.dlq[id].payload <==> t.packages[p].payload == t.dlq[id].payload))
               case None =>
                 && Recreated(id) !in t.packages && Recreated(id) in after.packages
                 && after.packages[Recreated(id)] == c.defaults.(payload := t.dlq[id].payload, status := Pending)
  {
    RequeueAllIs(c, t, ids, faults);
    assert id in ToSet(ids);
    match t.dlq[id].packageId
    case Some(p) =>
      assert Referenced(t, ToSet(ids), p);
      assert !Replaces(t, ToSet(ids), p);
    case None =>
      assert Replaces(t, ToSet(ids), Recreated(id));
  }

  /**
   A reference to a package that no longer exists loses the entry: it leaves the queue and nothing is pending for it.
   */
  lemma DanglingReferenceLosesEntry(c: Context, t: Tables, id: DlqId, p: PackageId)
    requires FreshKeys(t) && id in t.dlq && t.dlq[id].packageId == Some(p) && p !in t.packages
    ensures RequeueAll(c, t, [id], [NoFault]) == (t.(dlq := t.dlq - {id}), Requeued)
  {
    assert [id][..0] == [] && [NoFault][..0] == [];
  }
}
