/**
 Rotation requests that overlap: nothing serialises the handler, so the row steps of any number of requests
 interleave.
 */
module RotationOverlap {
  import opened Base
  import opened Envelope
  import opened KeyRotation

  type RequestId = nat

  /** A row as the request has read it. */
  datatype Record = Record(id: Id, wrapped: Bytes)

  datatype Stage =
    | Opened(newKey: Bytes)
    | Looping(newKey: Bytes, records: seq<Record>, next: nat)
    | Ended(reply: Reply)

  datatype State = State(kek: Bytes, store: Store, requests: map<RequestId, Stage>)

  /** One step of request `r`: opening the payload, the SELECT, one turn of the loop, the switch of the KEK. */
  datatype Step =
    | Open(r: RequestId, nonce: Bytes, cipher: Bytes)
    | Read(r: RequestId, ids: seq<Id>)
    | ReadFails(r: RequestId)
    | Rewrap(r: RequestId, fate: Fate)
    | Finish(r: RequestId)

  predicate InLoop(s: State, r: RequestId) {
    r in s.requests && s.requests[r].Looping?
  }

  ghost predicate Enabled(s: State, step: Step) {
    match step
    case Open(r, _, _) => r !in s.requests
    case Read(r, ids) => r in s.requests && s.requests[r].Opened? && IsRead(ids, s.store)
    case ReadFails(r) => r in s.requests && s.requests[r].Opened?
    case Rewrap(r, fate) => InLoop(s, r) && s.requests[r].next < |s.requests[r].records| && fate.Possible()
    case Finish(r) => InLoop(s, r) && s.requests[r].next == |s.requests[r].records|
  }

  function RecordsOf(store: Store, ids: seq<Id>): seq<Record>
    requires forall id <- ids :: id in store
  {
    assert forall i :: 0 <= i < |ids| ==> ids[i] in ids;
    seq(|ids|, i requires 0 <= i < |ids| => Record(ids[i], store[ids[i]]))
  }

  function Put(store: Store, id: Id, wrapped: Bytes): Store {
    if id in store then store[id := wrapped] else store
  }

  /** The row is re-wrapped from what was read, under the KEK the server has by now. */
  function Turn(c: Primitives, s: State, r: RequestId, fate: Fate): State
    requires InLoop(s, r) && s.requests[r].next < |s.requests[r].records|
  {
    var stage := s.requests[r];
    var record := stage.records[stage.next];
    var moved := s.requests[r := stage.(next := stage.next + 1)];
    match StepRow(c, record.id, record.wrapped, s.kek, stage.newKey, fate)
    case Keep => s.(requests := moved)
    case Rewrite(w) => s.(store := Put(s.store, record.id, w), requests := moved)
    case Fail(reply) => s.(requests := s.requests[r := Ended(reply)])
    case RewriteAndFail(w, reply) => s.(store := Put(s.store, record.id, w), requests := s.requests[r := Ended(reply)])
  }

  function OpenedAs(c: Primitives, s: State, nonce: Bytes, cipher: Bytes): Stage {
    match c.Open(s.kek, nonce, cipher)
    case Err(e) => Ended(Refusal(e))
    case Ok(newKey) => if |newKey| != KEK_SIZE then Ended(BadMasterKeyLength) else Opened(newKey)
  }

  ghost function Do(c: Primitives, s: State, step: Step): State
    requires Enabled(s, step)
  {
    match step
    case Open(r, nonce, cipher) => s.(requests := s.requests[r := OpenedAs(c, s, nonce, cipher)])
    case Read(r, ids) => s.(requests := s.requests[r := Looping(s.requests[r].newKey, RecordsOf(s.store, ids), 0)])
    case ReadFails(r) => s.(requests := s.requests[r := Ended(DatabaseError)])
    case Rewrap(r, fate) => Turn(c, s, r, fate)
    case Finish(r) => s.(kek := s.requests[r].newKey, requests := s.requests[r := Ended(Rotated)])
  }

  /** A run of any number of requests from a server on which none is under way. */
  ghost predicate IsRun(c: Primitives, states: seq<State>, steps: seq<Step>) {
    && |states| == |steps| + 1
    && states[0].requests == map[]
    && forall i :: 0 <= i < |steps| ==> Enabled(states[i], steps[i]) && states[i + 1] == Do(c, states[i], steps[i])
  }

  // ----- No key is lost

  /** The wrapped key holds `dek` under one of `keks`. */
  ghost predicate HoldsDek(c: Primitives, wrapped: Bytes, dek: Bytes, keks: set<Bytes>) {
    exists kek :: kek in keks && SealedUnder(c, wrapped, dek, kek)
  }

  ghost predicate RecordsHold(c: Primitives, records: seq<Record>, deks: map<Id, Bytes>, keks: set<Bytes>) {
    forall record <- records :: record.id in deks && HoldsDek(c, record.wrapped, deks[record.id], keks)
  }

  ghost predicate StageHolds(c: Primitives, stage: Stage, deks: map<Id, Bytes>, keks: set<Bytes>) {
    match stage
    case Opened(newKey) => newKey in keks
    case Looping(newKey, records, _) => newKey in keks && RecordsHold(c, records, deks, keks)
    case Ended(_) => true
  }

  /** Every row, and every copy of a row that a request still works from, holds its key under one of `keks`. */
  ghost predicate Safe(c: Primitives, s: State, deks: map<Id, Bytes>, keks: set<Bytes>) {
    && Guards(c, s.store, deks, keks)
    && forall r <- s.requests :: StageHolds(c, s.requests[r], deks, keks)
  }

  lemma HoldsIsGuarded(c: Primitives, store: Store, deks: map<Id, Bytes>, id: Id, keks: set<Bytes>)
    requires id in store && id in deks
    ensures RowGuarded(c, store, deks, id, keks) <==> HoldsDek(c, store[id], deks[id], keks)
  {
    if RowGuarded(c, store, deks, id, keks) {
      var kek :| kek in keks && RowUnder(c, store, deks, id, kek);
      assert SealedUnder(c, store[id], deks[id], kek);
    }
    if HoldsDek(c, store[id], deks[id], keks) {
      var kek :| kek in keks && SealedUnder(c, store[id], deks[id], kek);
      assert RowUnder(c, store, deks, id, kek);
    }
    hide SealedUnder;
  }

  /** What a turn writes is the same key under the new KEK. */
  lemma RewrapHolds(c: Primitives, id: Id, wrapped: Bytes, dek: Bytes, keks: set<Bytes>, kek: Bytes, newKey: Bytes,
      fate: Fate)
    requires c.Standard() && fate.Possible() && HoldsDek(c, wrapped, dek, keks)
    ensures match StepRow(c, id, wrapped, kek, newKey, fate)
            case Keep => SealedUnder(c, wrapped, dek, newKey)
            case Rewrite(w) => SealedUnder(c, w, dek, newKey)
            case RewriteAndFail(w, reply) => SealedUnder(c, w, dek, newKey) && !reply.Rotated?
            case Fail(reply) => !reply.Rotated?
  {
    var (store, deks) := (map[id := wrapped], map[id := dek]);
    var sealing :| sealing in keks && SealedUnder(c, wrapped, dek, sealing);
    assert RowUnder(c, store, deks, id, sealing);
    StepStoreKeepsDek(c, store, id, fate, kek, newKey, deks, sealing);
    hide SealedUnder, UnwrapDEK, Primitives.Standard;
    var step := StepRow(c, id, wrapped, kek, newKey, fate);
    if step.Rewrite? || step.RewriteAndFail? {
      RewriteIsNew(c, id, wrapped, dek, sealing, kek, newKey, fate);
    }
  }

  lemma RewriteIsNew(c: Primitives, id: Id, wrapped: Bytes, dek: Bytes, sealing: Bytes, kek: Bytes, newKey: Bytes,
      fate: Fate)
    requires c.Standard() && fate.Possible() && SealedUnder(c, wrapped, dek, sealing)
    ensures var step := StepRow(c, id, wrapped, kek, newKey, fate);
            step.Rewrite? || step.RewriteAndFail? ==> SealedUnder(c, step.wrapped, dek, newKey)
  {
    UnwrapSealed(c, wrapped, dek, sealing, kek);
    UnwrapSealed(c, wrapped, dek, sealing, newKey);
    var step := StepRow(c, id, wrapped, kek, newKey, fate);
    if step.Rewrite? || step.RewriteAndFail? {
      assert step.wrapped[..NONCE_SIZE] == fate.nonce.value;
    }
  }

  lemma PutGuards(c: Primitives, store: Store, id: Id, w: Bytes, newKey: Bytes, deks: map<Id, Bytes>, keks: set<Bytes>)
    requires Guards(c, store, deks, keks) && newKey in keks && id in deks && SealedUnder(c, w, deks[id], newKey)
    ensures Guards(c, Put(store, id, w), deks, keks)
  {
    hide SealedUnder;
    var next := Put(store, id, w);
    assert id in store;
    assert RowUnder(c, next, deks, id, newKey);
    forall other <- deks
      ensures RowGuarded(c, next, deks, other, keks)
    {
      assert RowGuarded(c, store, deks, other, keks);
      HoldsIsGuarded(c, store, deks, other, keks);
      HoldsIsGuarded(c, next, deks, other, keks);
      assert other == id ==> HoldsDek(c, w, deks[id], keks);
    }
  }

  lemma ReadHolds(c: Primitives, store: Store, ids: seq<Id>, deks: map<Id, Bytes>, keks: set<Bytes>)
    requires Guards(c, store, deks, keks) && IsRead(ids, store)
    ensures RecordsHold(c, RecordsOf(store, ids), deks, keks)
  {
    hide SealedUnder;
    forall record <- RecordsOf(store, ids)
      ensures record.id in deks && HoldsDek(c, record.wrapped, deks[record.id], keks)
    {
      assert record.id in ids;
      assert RowGuarded(c, store, deks, record.id, keks);
      HoldsIsGuarded(c, store, deks, record.id, keks);
    }
  }

  /** What a turn does to the table and to its own request. */
  lemma TurnHolds(c: Primitives, s: State, r: RequestId, fate: Fate, deks: map<Id, Bytes>, keks: set<Bytes>)
    requires c.Standard() && Safe(c, s, deks, keks) && Enabled(s, Rewrap(r, fate))
    ensures var t := Turn(c, s, r, fate);
            && Guards(c, t.store, deks, keks)
            && r in t.requests && t.requests == s.requests[r := t.requests[r]]
                && StageHolds(c, t.requests[r], deks, keks)
  {
    var stage := s.requests[r];
    var record := stage.records[stage.next];
    assert StageHolds(c, stage, deks, keks) && record in stage.records;
    assert StageHolds(c, stage.(next := stage.next + 1), deks, keks);
    RewrapHolds(c, record.id, record.wrapped, deks[record.id], keks, s.kek, stage.newKey, fate);
    var step := StepRow(c, record.id, record.wrapped, s.kek, stage.newKey, fate);
    if step.Rewrite? || step.RewriteAndFail? {
      PutGuards(c, s.store, record.id, step.wrapped, stage.newKey, deks, keks);
    }
    hide StepRow, SealedUnder, Guards, HoldsDek, Primitives.Standard, Put, Enabled;
  }

  lemma TurnIsSafe(c: Primitives, s: State, r: RequestId, fate: Fate, deks: map<Id, Bytes>, keks: set<Bytes>)
    requires c.Standard() && Safe(c, s, deks, keks) && Enabled(s, Rewrap(r, fate))
    ensures Safe(c, Turn(c, s, r, fate), deks, keks)
  {
    TurnHolds(c, s, r, fate, deks, keks);
    hide Turn, Guards, StageHolds, Primitives.Standard, Enabled;
  }

  lemma MoreKeks(c: Primitives, s: State, deks: map<Id, Bytes>, keks: set<Bytes>, more: set<Bytes>)
    requires Safe(c, s, deks, keks) && keks <= more
    ensures Safe(c, s, deks, more)
  {
    GuardsMoreKeys(c, s.store, deks, keks, more);
    hide SealedUnder, Guards;
    forall r <- s.requests
      ensures StageHolds(c, s.requests[r], deks, more)
    {
      assert StageHolds(c, s.requests[r], deks, keks);
      if s.requests[r].Looping? {
        forall record <- s.requests[r].records
          ensures HoldsDek(c, record.wrapped, deks[record.id], more)
        {
          assert HoldsDek(c, record.wrapped, deks[record.id], keks);
        }
      }
    }
  }

  /** The KEK the server started with, and those the first `n` steps opened. */
  ghost function KeksBy(c: Primitives, states: seq<State>, steps: seq<Step>, n: nat): set<Bytes>
    requires |states| == |steps| + 1 && n <= |steps|
  {
    if n == 0 then {states[0].kek} else KeksBy(c, states, steps, n - 1) + KeksIn(c, states[n - 1], steps[n - 1])
  }

  ghost function KeksIn(c: Primitives, s: State, step: Step): set<Bytes> {
    if step.Open? && c.open(s.kek, step.nonce, step.cipher).Some? then {c.open(s.kek, step.nonce, step.cipher).value}
    else {}
  }

  lemma StepIsSafe(c: Primitives, s: State, step: Step, deks: map<Id, Bytes>, keks: set<Bytes>)
    requires c.Standard() && Safe(c, s, deks, keks) && Enabled(s, step)
    ensures Safe(c, Do(c, s, step), deks, keks + KeksIn(c, s, step))
  {
    MoreKeks(c, s, deks, keks, keks + KeksIn(c, s, step));
    if step.Rewrap? {
      TurnIsSafe(c, s, step.r, step.fate, deks, keks + KeksIn(c, s, step));
    }
    if step.Read? {
      ReadHolds(c, s.store, step.ids, deks, keks + KeksIn(c, s, step));
    }
    hide Turn, Guards, RecordsHold, RecordsOf, Primitives.Standard;
  }

  /** However requests interleave, every row opens to its own key under the first KEK or one that was asked for. */
  lemma {:induction false} OverlapKeepsDeks(c: Primitives, states: seq<State>, steps: seq<Step>, n: nat,
      deks: map<Id, Bytes>)
    requires c.Standard() && IsRun(c, states, steps) && n <= |steps|
    requires Guards(c, states[0].store, deks, {states[0].kek})
    ensures Safe(c, states[n], deks, KeksBy(c, states, steps, n))
  {
    hide Do, Enabled, Guards, StageHolds, KeksIn, Primitives.Standard;
    if n > 0 {
      OverlapKeepsDeks(c, states, steps, n - 1, deks);
      StepIsSafe(c, states[n - 1], steps[n - 1], deks, KeksBy(c, states, steps, n - 1));
    }
  }

  // ----- A request whose row steps nothing overlaps

  /** The loop of `r` has put its first rows under `newKey`, and finds the rest as it read them. */
  ghost predicate Undisturbed(c: Primitives, s: State, r: RequestId, ids: seq<Id>, newKey: Bytes,
      deks: map<Id, Bytes>) {
    r in s.requests &&
    match s.requests[r]
    case Opened(_) => false
    case Ended(_) => true
    case Looping(key, records, next) =>
      && key == newKey && |records| == |ids| && next <= |ids|
      && (forall k :: 0 <= k < |ids| ==> records[k].id == ids[k] && ids[k] in s.store)
      && (forall k :: 0 <= k < next ==> RowUnder(c, s.store, deks, ids[k], newKey))
      && (forall k :: next <= k < |ids| ==> s.store[ids[k]] == records[k].wrapped)
  }

  lemma OwnTurn(c: Primitives, s: State, r: RequestId, fate: Fate, ids: seq<Id>, newKey: Bytes, deks: map<Id, Bytes>,
      keks: set<Bytes>)
    requires c.Standard() && Safe(c, s, deks, keks) && Distinct(ids)
    requires Undisturbed(c, s, r, ids, newKey, deks) && Enabled(s, Rewrap(r, fate))
    ensures Undisturbed(c, Turn(c, s, r, fate), r, ids, newKey, deks)
  {
    var stage := s.requests[r];
    var record := stage.records[stage.next];
    assert StageHolds(c, stage, deks, keks) && record in stage.records;
    RewrapHolds(c, record.id, record.wrapped, deks[record.id], keks, s.kek, newKey, fate);
    hide StepRow, SealedUnder, Guards, HoldsDek, Primitives.Standard;
  }

  lemma OtherStep(c: Primitives, s: State, step: Step, r: RequestId, ids: seq<Id>, newKey: Bytes, deks: map<Id, Bytes>)
    requires Undisturbed(c, s, r, ids, newKey, deks) && Enabled(s, step) && step.r != r && !step.Rewrap?
    ensures Undisturbed(c, Do(c, s, step), r, ids, newKey, deks)
  {
    hide SealedUnder, OpenedAs, RecordsOf, IsRead;
  }

  lemma {:induction false} StaysUndisturbed(c: Primitives, states: seq<State>, steps: seq<Step>, i: nat, k: nat,
      r: RequestId, deks: map<Id, Bytes>)
    requires c.Standard() && IsRun(c, states, steps) && i < k <= |steps|
    requires Guards(c, states[0].store, deks, {states[0].kek})
    requires steps[i].Read? && steps[i].r == r && Alone(steps, i, k, r)
    ensures r in states[i].requests && states[i].requests[r].Opened?
    ensures Undisturbed(c, states[k], r, steps[i].ids, states[i].requests[r].newKey, deks)
  {
    hide Safe, RowUnder, Guards, Primitives.Standard;
    var (ids, newKey) := (steps[i].ids, states[i].requests[r].newKey);
    if k == i + 1 {
      JustRead(c, states[i], r, ids, deks);
    } else {
      StaysUndisturbed(c, states, steps, i, k - 1, r, deks);
      OverlapKeepsDeks(c, states, steps, k - 1, deks);
      var (s, step) := (states[k - 1], steps[k - 1]);
      if step.r != r {
        OtherStep(c, s, step, r, ids, newKey, deks);
      } else if step.Rewrap? {
        OwnTurn(c, s, r, step.fate, ids, newKey, deks, KeksBy(c, states, steps, k - 1));
      }
    }
  }

  lemma JustRead(c: Primitives, s: State, r: RequestId, ids: seq<Id>, deks: map<Id, Bytes>)
    requires Enabled(s, Read(r, ids))
    ensures Undisturbed(c, Do(c, s, Read(r, ids)), r, ids, s.requests[r].newKey, deks)
  {
    assert forall k :: 0 <= k < |ids| ==> ids[k] in ids;
  }

  /** Between steps `i` and `k` no other request re-wraps a row. */
  ghost predicate Alone(steps: seq<Step>, i: nat, k: nat, r: RequestId) {
    forall m :: i < m < k && m < |steps| && steps[m].Rewrap? ==> steps[m].r == r
  }

  /** A request works with the key that its payload opened to. */
  lemma {:induction false} OpenedBy(c: Primitives, states: seq<State>, steps: seq<Step>, n: nat, r: RequestId)
    returns (o: nat)
    requires IsRun(c, states, steps) && n <= |steps|
    requires r in states[n].requests && (states[n].requests[r].Opened? || states[n].requests[r].Looping?)
    ensures o < n && steps[o].Open? && steps[o].r == r
    ensures OpensTo(c, states[o].kek, steps[o].nonce, steps[o].cipher, states[n].requests[r].newKey)
    ensures |states[n].requests[r].newKey| == 32
  {
    var (s, step) := (states[n - 1], steps[n - 1]);
    assert Enabled(s, step) && states[n - 1 + 1] == Do(c, s, step);
    if step.Open? && step.r == r {
      o := n - 1;
    } else {
      KeyStays(c, s, step, r);
      o := OpenedBy(c, states, steps, n - 1, r);
    }
  }

  lemma KeyStays(c: Primitives, s: State, step: Step, r: RequestId)
    requires Enabled(s, step) && !(step.Open? && step.r == r)
    requires var t := Do(c, s, step); r in t.requests && (t.requests[r].Opened? || t.requests[r].Looping?)
    ensures r in s.requests && (s.requests[r].Opened? || s.requests[r].Looping?)
    ensures s.requests[r].newKey == Do(c, s, step).requests[r].newKey
  {
    hide StepRow, RecordsOf, OpenedAs, IsRead, Put;
  }

  /**
   A reported success puts the server and every row that was read on the key the request was opened to, if no other
   request re-wraps a row from the read on.
   */
  lemma SuccessAlone(c: Primitives, states: seq<State>, steps: seq<Step>, i: nat, j: nat, r: RequestId,
      deks: map<Id, Bytes>)
    requires c.Standard() && IsRun(c, states, steps) && i < j < |steps|
    requires Guards(c, states[0].store, deks, {states[0].kek})
    requires steps[i].Read? && steps[i].r == r && steps[j] == Finish(r) && Alone(steps, i, j, r)
    ensures states[j + 1].requests[r] == Ended(Rotated)
    ensures forall id <- steps[i].ids :: RowUnder(c, states[j + 1].store, deks, id, states[j + 1].kek)
    ensures |states[j + 1].kek| == 32
    ensures exists o :: 0 <= o < i && steps[o].Open? && steps[o].r == r
                        && OpensTo(c, states[o].kek, steps[o].nonce, steps[o].cipher, states[j + 1].kek)
  {
    StaysUndisturbed(c, states, steps, i, j, r, deks);
    hide Guards, RowUnder, Primitives.Standard, OpensTo;
    var o := OpenedBy(c, states, steps, i, r);
  }

  // ----- A request that runs alone

  /** One turn, on a row that is still as it was read, is one turn of the handler's loop. */
  lemma TurnIsLoopTurn(c: Primitives, s: State, r: RequestId, newKey: Bytes, store: Store, ids: seq<Id>,
      fates: seq<Fate>, i: nat)
    requires |fates| == |ids| && i < |ids| && (forall id <- ids :: id in store) && fates[i].Possible()
    requires r in s.requests && s.requests[r] == Looping(newKey, RecordsOf(store, ids), i)
    requires s.store.Keys == store.Keys && s.store[ids[i]] == store[ids[i]]
    ensures Enabled(s, Rewrap(r, fates[i]))
    ensures var t := Do(c, s, Rewrap(r, fates[i]));
            && t.kek == s.kek && t.store.Keys == s.store.Keys
            && (forall id <- s.store :: id != ids[i] ==> t.store[id] == s.store[id])
            && r in t.requests && t.requests == s.requests[r := t.requests[r]]
            && if t.requests[r].Ended? then
                 && RotateRows(c, s.store, ids[i..], fates[i..], s.kek, newKey) == (t.store, t.requests[r].reply)
                 && !t.requests[r].reply.Rotated?
               else
                 && t.requests[r] == Looping(newKey, RecordsOf(store, ids), i + 1)
                 && RotateRows(c, s.store, ids[i..], fates[i..], s.kek, newKey) ==
                    RotateRows(c, t.store, ids[i + 1..], fates[i + 1..], s.kek, newKey)
  {
    assert ids[i] in ids;
    LoopTurn(c, s.store, ids, fates, s.kek, newKey, i);
    hide RotateRows, UnwrapDEK, PadKek;
  }

  /** The request `r` has come to row `i` of those it has read in `s`, and the table is as far as the loop's. */
  ghost predicate AtRow(c: Primitives, s: State, now: State, r: RequestId, newKey: Bytes, ids: seq<Id>,
      fates: seq<Fate>, i: nat)
    requires |fates| == |ids| && i <= |ids| && forall id <- ids :: id in s.store
  {
    && now.kek == s.kek && now.store.Keys == s.store.Keys
    && now.requests == s.requests[r := Looping(newKey, RecordsOf(s.store, ids), i)]
    && (forall j :: i <= j < |ids| ==> ids[j] in s.store && now.store[ids[j]] == s.store[ids[j]])
    && RotateRows(c, now.store, ids[i..], fates[i..], s.kek, newKey) ==
       RotateRows(c, s.store, ids, fates, s.kek, newKey)
  }

  /** The request has ended as the handler's loop ends. */
  ghost predicate EndedLike(c: Primitives, s: State, now: State, r: RequestId, newKey: Bytes, ids: seq<Id>,
      fates: seq<Fate>)
    requires |fates| == |ids|
  {
    var (store, reply) := RotateRows(c, s.store, ids, fates, s.kek, newKey);
    now == State(if reply.Rotated? then newKey else s.kek, store, s.requests[r := Ended(reply)])
  }

  lemma OneRowFurther(c: Primitives, s: State, now: State, r: RequestId, newKey: Bytes, ids: seq<Id>, fates: seq<Fate>,
      i: nat)
    requires IsRead(ids, s.store) && Possible(ids, fates) && i < |ids| && AtRow(c, s, now, r, newKey, ids, fates, i)
    ensures Enabled(now, Rewrap(r, fates[i]))
    ensures var t := Do(c, now, Rewrap(r, fates[i]));
            AtRow(c, s, t, r, newKey, ids, fates, i + 1) || EndedLike(c, s, t, r, newKey, ids, fates)
  {
    assert fates[i] in fates && ids[i] in ids;
    TurnIsLoopTurn(c, now, r, newKey, s.store, ids, fates, i);
    hide RotateRows, Turn, StepRow, RecordsOf;
  }

  lemma FirstRow(c: Primitives, s: State, r: RequestId, newKey: Bytes, ids: seq<Id>, fates: seq<Fate>)
    requires r in s.requests && s.requests[r] == Opened(newKey) && IsRead(ids, s.store) && |fates| == |ids|
    ensures AtRow(c, s, Do(c, s, Read(r, ids)), r, newKey, ids, fates, 0)
  {
    assert ids[0..] == ids && fates[0..] == fates;
    hide RotateRows, RecordsOf;
  }

  lemma LastRow(c: Primitives, s: State, now: State, r: RequestId, newKey: Bytes, ids: seq<Id>, fates: seq<Fate>)
    requires |fates| == |ids| && (forall id <- ids :: id in s.store) && AtRow(c, s, now, r, newKey, ids, fates, |ids|)
    ensures Enabled(now, Finish(r)) && EndedLike(c, s, Do(c, now, Finish(r)), r, newKey, ids, fates)
  {
    LoopEnd(c, now.store, ids, fates, s.kek, newKey);
    hide RotateRows;
  }

  /** The run `longer` goes on from `states` with steps of request `r` alone. */
  ghost predicate GoesOn(c: Primitives, states: seq<State>, steps: seq<Step>, longer: seq<State>, all: seq<Step>,
      r: RequestId) {
    && IsRun(c, longer, all) && |longer| == |all| + 1
    && steps <= all && forall i | |steps| <= i < |all| :: all[i].r == r
  }

  lemma OwnStep(c: Primitives, states: seq<State>, steps: seq<Step>, longer: seq<State>, all: seq<Step>, r: RequestId,
      step: Step) returns (more: seq<State>, taken: seq<Step>)
    requires GoesOn(c, states, steps, longer, all, r) && Enabled(longer[|all|], step) && step.r == r
    ensures GoesOn(c, states, steps, more, taken, r) && more[|taken|] == Do(c, longer[|all|], step)
  {
    more, taken := Extend(c, longer, all, step);
    hide IsRun, Do, Enabled;
  }

  /** A request that is opened goes through its rows. */
  lemma LoopAlone(c: Primitives, states: seq<State>, steps: seq<Step>, before: seq<State>, done: seq<Step>,
      r: RequestId, newKey: Bytes, ids: seq<Id>, fates: seq<Fate>) returns (longer: seq<State>, all: seq<Step>)
    requires GoesOn(c, states, steps, before, done, r)
    requires r in before[|done|].requests && before[|done|].requests[r] == Opened(newKey)
    requires IsRead(ids, before[|done|].store) && Possible(ids, fates)
    ensures GoesOn(c, states, steps, longer, all, r)
    ensures EndedLike(c, before[|done|], longer[|all|], r, newKey, ids, fates)
  {
    var s := before[|done|];
    FirstRow(c, s, r, newKey, ids, fates);
    longer, all := OwnStep(c, states, steps, before, done, r, Read(r, ids));
    hide RotateRows, Do, Enabled, IsRun, AtRow, EndedLike, IsRead;
    for i := 0 to |ids|
      invariant GoesOn(c, states, steps, longer, all, r)
      invariant AtRow(c, s, longer[|all|], r, newKey, ids, fates, i)
    {
      OneRowFurther(c, s, longer[|all|], r, newKey, ids, fates, i);
      longer, all := OwnStep(c, states, steps, longer, all, r, Rewrap(r, fates[i]));
      if EndedLike(c, s, longer[|all|], r, newKey, ids, fates) {
        return;
      }
    }
    LastRow(c, s, longer[|all|], r, newKey, ids, fates);
    longer, all := OwnStep(c, states, steps, longer, all, r, Finish(r));
  }

  /**
   Whatever else is under way: a request whose steps follow one another ends with the table, the KEK and the reply of
   one call of the handler.
   */
  lemma AloneIsTheHandler(c: Primitives, states: seq<State>, steps: seq<Step>, r: RequestId, request: Request)
    returns (longer: seq<State>, all: seq<Step>)
    requires IsRun(c, states, steps) && r !in states[|steps|].requests
    requires IsRead(request.ids, states[|steps|].store) && Possible(request.ids, request.fates)
    ensures IsRun(c, longer, all) && steps <= all && forall i | |steps| <= i < |all| :: all[i].r == r
    ensures var s := states[|steps|];
            var (t, reply) := Handle(c, ServerState(s.kek, s.store, map[]), request);
            longer[|all|] == State(t.kek, t.store, s.requests[r := Ended(reply)])
  {
    assert GoesOn(c, states, steps, states, steps, r);
    hide RotateRows, IsRun, RecordsOf, IsRead;
    var s := states[|steps|];
    longer, all := OwnStep(c, states, steps, states, steps, r, Open(r, request.nonce, request.cipher));
    var begun := longer[|all|];
    assert s.requests[r := begun.requests[r]] == begun.requests;
    if begun.requests[r].Opened? {
      if request.readFails {
        longer, all := OwnStep(c, states, steps, longer, all, r, ReadFails(r));
      } else {
        longer, all := LoopAlone(c, states, steps, longer, all, r, begun.requests[r].newKey, request.ids,
            request.fates);
      }
    }
    hide Do, Enabled;
  }

  // ----- Two requests that overlap

  function Wrapped(c: Primitives, kek: Bytes, nonce: Bytes, dek: Bytes): Bytes {
    nonce + c.seal(PadKek(kek), nonce, dek)
  }

  lemma WrappedIsSealed(c: Primitives, kek: Bytes, nonce: Bytes, dek: Bytes)
    requires |nonce| == NONCE_SIZE
    ensures SealedUnder(c, Wrapped(c, kek, nonce, dek), dek, kek)
  {
    var wrapped := Wrapped(c, kek, nonce, dek);
    assert wrapped[..NONCE_SIZE] == nonce && wrapped[NONCE_SIZE..] == c.seal(PadKek(kek), nonce, dek);
  }

  lemma RewrapsTo(c: Primitives, id: Id, kek: Bytes, newKey: Bytes, nonce: Bytes, dek: Bytes)
    requires c.Standard() && |nonce| == NONCE_SIZE && PadKek(kek) != PadKek(newKey)
    ensures StepRow(c, id, Wrapped(c, kek, nonce, dek), kek, newKey, Fate(Some(nonce), Applied)) ==
            Rewrite(Wrapped(c, newKey, nonce, dek))
  {
    WrappedIsSealed(c, kek, nonce, dek);
    UnwrapSealed(c, Wrapped(c, kek, nonce, dek), dek, kek, kek);
    UnwrapSealed(c, Wrapped(c, kek, nonce, dek), dek, kek, newKey);
  }

  lemma Extend(c: Primitives, states: seq<State>, steps: seq<Step>, step: Step)
    returns (longer: seq<State>, all: seq<Step>)
    requires IsRun(c, states, steps) && Enabled(states[|steps|], step)
    ensures longer == states + [Do(c, states[|steps|], step)] && all == steps + [step] && IsRun(c, longer, all)
  {
    hide Do, Enabled;
    longer, all := states + [Do(c, states[|steps|], step)], steps + [step];
    forall i | 0 <= i < |all|
      ensures Enabled(longer[i], all[i]) && longer[i + 1] == Do(c, longer[i], all[i])
    {
      if i < |steps| {
        assert Enabled(states[i], steps[i]);
      }
    }
  }

  /** What both requests read. */
  function BothRows(c: Primitives, kek: Bytes, nonce: Bytes, dek: Bytes): seq<Record> {
    [Record("x", Wrapped(c, kek, nonce, dek)), Record("y", Wrapped(c, kek, nonce, dek))]
  }

  lemma TurnTo(c: Primitives, s: State, r: RequestId, newKey: Bytes, next: nat, nonce: Bytes, dek: Bytes)
    requires c.Standard() && |nonce| == NONCE_SIZE && PadKek(s.kek) != PadKek(newKey) && next < 2
    requires r in s.requests && s.requests[r] == Looping(newKey, BothRows(c, s.kek, nonce, dek), next)
    requires s.store.Keys == {"x", "y"}
    ensures var step := Rewrap(r, Fate(Some(nonce), Applied));
            && Enabled(s, step)
            && Do(c, s, step) ==
               s.(store := s.store[if next == 0 then "x" else "y" := Wrapped(c, newKey, nonce, dek)],
                  requests := s.requests[r := Looping(newKey, BothRows(c, s.kek, nonce, dek), next + 1)])
  {
    RewrapsTo(c, if next == 0 then "x" else "y", s.kek, newKey, nonce, dek);
    hide StepRow, Wrapped, Primitives.Standard;
  }

  /** The state in which both requests have read both rows. */
  function BothLooping(c: Primitives, kek: Bytes, a: Bytes, b: Bytes, nonce: Bytes, dek: Bytes): State {
    State(kek, map["x" := Wrapped(c, kek, nonce, dek), "y" := Wrapped(c, kek, nonce, dek)],
          map[0 := Looping(a, BothRows(c, kek, nonce, dek), 0), 1 := Looping(b, BothRows(c, kek, nonce, dek), 0)])
  }

  lemma BothRead(c: Primitives, kek: Bytes, a: Bytes, b: Bytes, nonce: Bytes, dek: Bytes)
    returns (states: seq<State>, steps: seq<Step>)
    requires c.Standard() && |nonce| == NONCE_SIZE && |kek| == |a| == |b| == KEK_SIZE
    ensures IsRun(c, states, steps) && states[|steps|] == BothLooping(c, kek, a, b, nonce, dek)
    ensures states[0] == State(kek, BothLooping(c, kek, a, b, nonce, dek).store, map[])
  {
    OpenSealed(c, kek, kek, nonce, a);
    OpenSealed(c, kek, kek, nonce, b);
    var store := BothLooping(c, kek, a, b, nonce, dek).store;
    hide Wrapped, Primitives.Standard;
    states, steps := [State(kek, store, map[])], [];
    states, steps := Extend(c, states, steps, Open(0, nonce, c.seal(kek, nonce, a)));
    assert states[1].requests == map[0 := Opened(a)];
    states, steps := Extend(c, states, steps, Open(1, nonce, c.seal(kek, nonce, b)));
    assert states[2].requests == map[0 := Opened(a), 1 := Opened(b)];
    var ids := ["x", "y"];
    assert IsRead(ids, store);
    assert RecordsOf(store, ids) == BothRows(c, kek, nonce, dek);
    states, steps := Extend(c, states, steps, Read(0, ids));
    states, steps := Extend(c, states, steps, Read(1, ids));
    assert states[4].requests == BothLooping(c, kek, a, b, nonce, dek).requests;
  }

  /** The interleaved turns: row x is moved by request 0 and then by 1, row y by 1 and then by 0. */
  lemma BothTurn(c: Primitives, kek: Bytes, a: Bytes, b: Bytes, nonce: Bytes, dek: Bytes)
    returns (states: seq<State>, steps: seq<Step>)
    requires c.Standard() && |nonce| == NONCE_SIZE && |kek| == |a| == |b| == KEK_SIZE && kek != a && kek != b
    ensures IsRun(c, states, steps)
    ensures states[0] == State(kek, BothLooping(c, kek, a, b, nonce, dek).store, map[])
    ensures var records := BothRows(c, kek, nonce, dek);
            states[|steps|] == State(kek, map["x" := Wrapped(c, b, nonce, dek), "y" := Wrapped(c, a, nonce, dek)],
                                     map[0 := Looping(a, records, 2), 1 := Looping(b, records, 2)])
  {
    var fate := Fate(Some(nonce), Applied);
    states, steps := BothRead(c, kek, a, b, nonce, dek);
    hide Wrapped, Primitives.Standard, Turn, IsRun, BothRows, Enabled, Do;
    TurnTo(c, states[|steps|], 0, a, 0, nonce, dek);
    states, steps := Extend(c, states, steps, Rewrap(0, fate));
    TurnTo(c, states[|steps|], 1, b, 0, nonce, dek);
    states, steps := Extend(c, states, steps, Rewrap(1, fate));
    TurnTo(c, states[|steps|], 1, b, 1, nonce, dek);
    states, steps := Extend(c, states, steps, Rewrap(1, fate));
    TurnTo(c, states[|steps|], 0, a, 1, nonce, dek);
    states, steps := Extend(c, states, steps, Rewrap(0, fate));
  }

  /**
   With any cipher and any three different keys: two overlapping requests both report success, and of the two rows
   one no longer opens under the KEK the server ends with.
   */
  lemma OverlapLeavesARowBehind(c: Primitives, kek: Bytes, a: Bytes, b: Bytes, nonce: Bytes, dek: Bytes)
    returns (states: seq<State>, steps: seq<Step>)
    requires c.Standard() && |nonce| == NONCE_SIZE && |kek| == |a| == |b| == KEK_SIZE && kek != a && kek != b && a != b
    ensures IsRun(c, states, steps) && states[0].kek == kek
    ensures Guards(c, states[0].store, map["x" := dek, "y" := dek], {kek})
    ensures var s := states[|steps|];
            && s.requests == map[0 := Ended(Rotated), 1 := Ended(Rotated)] && s.kek == b
            && s.store.Keys == {"x", "y"}
            && UnwrapDEK(c, s.store["x"], b) == Ok(dek) && UnwrapDEK(c, s.store["y"], b) == Err(KeyOpenFailed)
  {
    states, steps := BothTurn(c, kek, a, b, nonce, dek);
    WrappedIsSealed(c, kek, nonce, dek);
    var deks := map["x" := dek, "y" := dek];
    assert RowUnder(c, states[0].store, deks, "x", kek) && RowUnder(c, states[0].store, deks, "y", kek);
    WrappedIsSealed(c, a, nonce, dek);
    WrappedIsSealed(c, b, nonce, dek);
    UnwrapSealed(c, Wrapped(c, b, nonce, dek), dek, b, b);
    UnwrapSealed(c, Wrapped(c, a, nonce, dek), dek, a, b);
    hide Wrapped, Primitives.Standard, Turn, IsRun, SealedUnder, UnwrapDEK;
    states, steps := Extend(c, states, steps, Finish(0));
    states, steps := Extend(c, states, steps, Finish(1));
  }
}
