/**
 Re-wrapping every stored data encryption key under a new KEK, row by row, where any row can be the last one reached.
 */
module KeyRotation {
  import opened Base
  import opened Envelope

  type Id = string

  /** The `storage_keys` table: wrapped keys by ID. */
  type Store = map<Id, Bytes>

  /**
   How an UPDATE ends: it can fail although it has changed the row, when its reply is lost or the request cancelled.
   */
  datatype Update = Applied | Refused | ReplyLost

  /** What happens to one row from outside: the random nonce, and how the UPDATE ends. */
  datatype Fate = Fate(nonce: Option<Bytes>, update: Update) {
    ghost predicate Possible() {
      IsRandom(nonce, NONCE_SIZE)
    }

    predicate Good() {
      nonce.Some? && update.Applied?
    }
  }

  datatype Reply =
    | Rotated
    | InternalCryptoError
    | PayloadRejected
    | BadMasterKeyLength
    | DatabaseError
    | UnwrapFailed(id: Id)
    | WrapFailed(id: Id)
    | UpdateFailed(id: Id)
    | Panicked

  // ----- One row

  /** What becomes of a row, and why the loop ends there if it does. */
  datatype RowStep = Keep | Rewrite(wrapped: Bytes) | Fail(reply: Reply) | RewriteAndFail(wrapped: Bytes, reply: Reply)

  function StepRow(c: Primitives, id: Id, wrapped: Bytes, kek: Bytes, newKey: Bytes, fate: Fate): RowStep {
    if UnwrapDEK(c, wrapped, newKey).Ok? then
      Keep
    else
      match UnwrapDEK(c, wrapped, kek)
      case Err(_) => Fail(UnwrapFailed(id))
      case Ok(dek) =>
        if fate.nonce.None? then
          Fail(WrapFailed(id))
        else
          var rewrapped := fate.nonce.value + c.seal(PadKek(newKey), fate.nonce.value, dek);
          match fate.update
          case Applied => Rewrite(rewrapped)
          case Refused => Fail(UpdateFailed(id))
          case ReplyLost => RewriteAndFail(rewrapped, UpdateFailed(id))
  }

  /** One turn of the loop: the table after it, and the reply if it was the last. */
  function StepStore(c: Primitives, store: Store, id: Id, fate: Fate, kek: Bytes,
      newKey: Bytes): (Store, Option<Reply>) {
    if id !in store then
      (store, None)
    else
      match StepRow(c, id, store[id], kek, newKey, fate)
      case Fail(reply) => (store, Some(reply))
      case Keep => (store, None)
      case Rewrite(w) => (store[id := w], None)
      case RewriteAndFail(w, reply) => (store[id := w], Some(reply))
  }

  /** The loop over `ids`, in that order. */
  function RotateRows(c: Primitives, store: Store, ids: seq<Id>, fates: seq<Fate>, kek: Bytes,
      newKey: Bytes): (Store, Reply)
    requires |fates| == |ids|
  {
    if ids == [] then
      (store, Rotated)
    else
      var (next, last) := StepStore(c, store, ids[0], fates[0], kek, newKey);
      if last.Some? then (next, last.value) else RotateRows(c, next, ids[1..], fates[1..], kek, newKey)
  }

  lemma LoopTurn(c: Primitives, store: Store, ids: seq<Id>, fates: seq<Fate>, kek: Bytes, newKey: Bytes, i: nat)
    requires |fates| == |ids| && i < |ids| && ids[i] in store
    ensures RotateRows(c, store, ids[i..], fates[i..], kek, newKey) ==
            match StepRow(c, ids[i], store[ids[i]], kek, newKey, fates[i])
            case Fail(reply) => (store, reply)
            case Keep => RotateRows(c, store, ids[i + 1..], fates[i + 1..], kek, newKey)
            case Rewrite(w) => RotateRows(c, store[ids[i] := w], ids[i + 1..], fates[i + 1..], kek, newKey)
            case RewriteAndFail(w, reply) => (store[ids[i] := w], reply)
  {
    assert ids[i..][1..] == ids[i + 1..] && fates[i..][1..] == fates[i + 1..];
  }

  lemma LoopEnd(c: Primitives, store: Store, ids: seq<Id>, fates: seq<Fate>, kek: Bytes, newKey: Bytes)
    requires |fates| == |ids|
    ensures RotateRows(c, store, ids[|ids|..], fates[|ids|..], kek, newKey) == (store, Rotated)
  {
  }

  /**
   The rows that are read, in the order in which they come, none of them twice. The loop over the result ends
   alike at the end of the table and where the SELECT breaks off, and a row can be inserted once it is over, so
   rows may be missing.
   */
  ghost predicate IsRead(ids: seq<Id>, store: Store) {
    (forall id <- ids :: id in store) && Distinct(ids)
  }

  ghost predicate Possible(ids: seq<Id>, fates: seq<Fate>) {
    |fates| == |ids| && forall f <- fates :: f.Possible()
  }

  // ----- The handler

  /** A request for a rotation, with everything that comes from outside. */
  datatype Request = Request(nonce: Bytes, cipher: Bytes, readFails: bool, ids: seq<Id>, fates: seq<Fate>)

  /** `roleKeys` holds the wrapped keys of `user_roles_encrypted`, by user. */
  datatype ServerState = ServerState(kek: Bytes, store: Store, roleKeys: map<int, Bytes>)

  /** The new key in a request, opened with the current one. */
  function RequestedKey(c: Primitives, kek: Bytes, request: Request): Result<Bytes> {
    c.Open(kek, request.nonce, request.cipher)
  }

  function Refusal(e: CryptoError): Reply {
    match e
    case BadKeySize => InternalCryptoError
    case BadNonceSize => Panicked
    case _ => PayloadRejected
  }

  function Handle(c: Primitives, s: ServerState, request: Request): (ServerState, Reply)
    requires |request.fates| == |request.ids|
  {
    match RequestedKey(c, s.kek, request)
    case Err(e) => (s, Refusal(e))
    case Ok(newKey) =>
      if |newKey| != KEK_SIZE then
        (s, BadMasterKeyLength)
      else if request.readFails then
        (s, DatabaseError)
      else
        var (store, reply) := RotateRows(c, s.store, request.ids, request.fates, s.kek, newKey);
        (s.(kek := if reply.Rotated? then newKey else s.kek, store := store), reply)
  }

  class Server {
    var kek: Bytes
    var storageKeys: Store
    var roleKeys: map<int, Bytes>

    constructor (kek: Bytes, storageKeys: Store, roleKeys: map<int, Bytes>)
      ensures View() == ServerState(kek, storageKeys, roleKeys)
    {
      this.kek := kek;
      this.storageKeys := storageKeys;
      this.roleKeys := roleKeys;
    }

    function View(): ServerState
      reads this
    {
      ServerState(kek, storageKeys, roleKeys)
    }

    method HandleKeyRotation(c: Primitives, request: Request) returns (reply: Reply)
      requires c.Standard()
      requires IsRead(request.ids, storageKeys) && Possible(request.ids, request.fates)
      modifies this
      ensures (View(), reply) == Handle(c, old(View()), request)
    {
      var newMasterKey := RequestedKey(c, kek, request);
      if newMasterKey.Err? {
        return Refusal(newMasterKey.error);
      }
      if |newMasterKey.value| != KEK_SIZE {
        return BadMasterKeyLength;
      }
      if request.readFails {
        return DatabaseError;
      }
      reply := RewrapAll(c, newMasterKey.value, request.ids, request.fates);
      if reply.Rotated? {
        kek := newMasterKey.value;
      }
    }

    method RewrapAll(c: Primitives, newKey: Bytes, ids: seq<Id>, fates: seq<Fate>) returns (reply: Reply)
      requires IsRead(ids, storageKeys) && Possible(ids, fates)
      modifies this`storageKeys
      ensures (storageKeys, reply) == RotateRows(c, old(storageKeys), ids, fates, kek, newKey)
    {
      hide RotateRows, UnwrapDEK;
      var records := storageKeys;
      assert ids[0..] == ids && fates[0..] == fates;
      for i := 0 to |ids|
        invariant RotateRows(c, storageKeys, ids[i..], fates[i..], kek, newKey) ==
                  RotateRows(c, records, ids, fates, kek, newKey)
        invariant storageKeys.Keys == records.Keys
        invariant forall j :: i <= j < |ids| ==> storageKeys[ids[j]] == records[ids[j]]
      {
        var id := ids[i];
        assert id in records && fates[i] in fates;
        LoopTurn(c, storageKeys, ids, fates, kek, newKey, i);
        var wrapped := records[id];
        if UnwrapDEK(c, wrapped, newKey).Ok? {
          continue;
        }
        var dek := UnwrapDEK(c, wrapped, kek);
        if dek.Err? {
          return UnwrapFailed(id);
        }
        var rewrapped := WrapDEK(c, dek.value, newKey, fates[i].nonce);
        if rewrapped.Err? {
          return WrapFailed(id);
        }
        if fates[i].update.Refused? {
          return UpdateFailed(id);
        }
        storageKeys := storageKeys[id := rewrapped.value];
        if fates[i].update.ReplyLost? {
          return UpdateFailed(id);
        }
      }
      LoopEnd(c, storageKeys, ids, fates, kek, newKey);
      reply := Rotated;
    }
  }

  // ----- No key is lost

  /** Row `id` opens to its own key under `kek`. */
  ghost predicate RowUnder(c: Primitives, store: Store, deks: map<Id, Bytes>, id: Id, kek: Bytes) {
    id in store && id in deks && SealedUnder(c, store[id], deks[id], kek)
  }

  ghost predicate RowGuarded(c: Primitives, store: Store, deks: map<Id, Bytes>, id: Id, keks: set<Bytes>) {
    exists kek :: kek in keks && RowUnder(c, store, deks, id, kek)
  }

  /** Every row holds its data encryption key, sealed under one of `keks`. */
  ghost predicate Guards(c: Primitives, store: Store, deks: map<Id, Bytes>, keks: set<Bytes>) {
    && store.Keys == deks.Keys
    && forall id <- deks :: RowGuarded(c, store, deks, id, keks)
  }

  /** Row `id` opens under exactly the KEKs that pad like `kek`. */
  lemma RowUnderExactly(c: Primitives, store: Store, deks: map<Id, Bytes>, id: Id, kek: Bytes, other: Bytes)
    requires c.Standard() && RowUnder(c, store, deks, id, kek)
    ensures RowUnder(c, store, deks, id, other) <==> PadKek(other) == PadKek(kek)
    ensures UnwrapDEK(c, store[id], other) == if PadKek(other) == PadKek(kek) then Ok(deks[id]) else Err(KeyOpenFailed)
  {
    UnwrapSealed(c, store[id], deks[id], kek, other);
    if RowUnder(c, store, deks, id, other) {
      UnwrapSealed(c, store[id], deks[id], other, other);
    }
  }

  /** `next` is `store` with at most row `id` changed, and that row then under `newKey`. */
  ghost predicate MovesRow(c: Primitives, store: Store, next: Store, deks: map<Id, Bytes>, id: Id, newKey: Bytes) {
    && next.Keys == store.Keys
    && (forall other <- store :: other != id ==> next[other] == store[other])
    && (next == store || RowUnder(c, next, deks, id, newKey))
  }

  lemma MovesRowGuards(c: Primitives, store: Store, next: Store, deks: map<Id, Bytes>, id: Id, newKey: Bytes,
      keks: set<Bytes>)
    requires MovesRow(c, store, next, deks, id, newKey) && Guards(c, store, deks, keks) && newKey in keks
    ensures Guards(c, next, deks, keks)
    ensures forall other :: RowUnder(c, store, deks, other, newKey) ==> RowUnder(c, next, deks, other, newKey)
  {
    forall other <- deks
      ensures RowGuarded(c, next, deks, other, keks)
    {
      assert RowGuarded(c, store, deks, other, keks);
      var k :| k in keks && RowUnder(c, store, deks, other, k);
      assert other == id || RowUnder(c, next, deks, other, k);
    }
  }

  /**
   One turn of the loop on a row that holds its key: it ends up under the new KEK, or the loop ends and nothing moved.
   */
  lemma StepStoreKeepsDek(c: Primitives, store: Store, id: Id, fate: Fate, kek: Bytes, newKey: Bytes,
      deks: map<Id, Bytes>, sealing: Bytes)
    requires c.Standard() && fate.Possible() && RowUnder(c, store, deks, id, sealing)
    ensures var (next, last) := StepStore(c, store, id, fate, kek, newKey);
            && MovesRow(c, store, next, deks, id, newKey)
            && (last.None? ==> RowUnder(c, next, deks, id, newKey) && Reachable(c, store, deks, id, kek, newKey))
            && (last.Some? ==> !last.value.Rotated? && (fate.Good() ==> !Reachable(c, store, deks, id, kek, newKey)))
  {
    RowUnderExactly(c, store, deks, id, sealing, newKey);
    RowUnderExactly(c, store, deks, id, sealing, kek);
    var step := StepRow(c, id, store[id], kek, newKey, fate);
    if step.Rewrite? || step.RewriteAndFail? {
      assert step.wrapped[..NONCE_SIZE] == fate.nonce.value;
      assert SealedUnder(c, step.wrapped, deks[id], newKey);
    }
  }

  /** The row is under the current KEK or already under the new one. */
  ghost predicate Reachable(c: Primitives, store: Store, deks: map<Id, Bytes>, id: Id, kek: Bytes, newKey: Bytes) {
    RowUnder(c, store, deks, id, kek) || RowUnder(c, store, deks, id, newKey)
  }

  /** One turn of the loop on a table in which every row holds its key. */
  lemma StepStoreGuards(c: Primitives, store: Store, id: Id, fate: Fate, kek: Bytes, newKey: Bytes,
      deks: map<Id, Bytes>, keks: set<Bytes>)
    requires c.Standard() && fate.Possible() && Guards(c, store, deks, keks) && newKey in keks && id in deks
    ensures var (next, last) := StepStore(c, store, id, fate, kek, newKey);
            && MovesRow(c, store, next, deks, id, newKey)
            && Guards(c, next, deks, keks)
            && (last.None? ==> RowUnder(c, next, deks, id, newKey) && Reachable(c, store, deks, id, kek, newKey))
            && (last.Some? ==> !last.value.Rotated? && (fate.Good() ==> !Reachable(c, store, deks, id, kek, newKey)))
  {
    assert RowGuarded(c, store, deks, id, keks);
    var sealing :| sealing in keks && RowUnder(c, store, deks, id, sealing);
    StepStoreKeepsDek(c, store, id, fate, kek, newKey, deks, sealing);
    MovesRowGuards(c, store, StepStore(c, store, id, fate, kek, newKey).0, deks, id, newKey, keks);
  }

  /** Whatever row the loop stops at, every row still holds its key, and a loop that ends well moves all listed rows. */
  lemma {:induction false} RotateRowsGuards(c: Primitives, store: Store, ids: seq<Id>, fates: seq<Fate>, kek: Bytes,
      newKey: Bytes, deks: map<Id, Bytes>, keks: set<Bytes>)
    requires c.Standard() && Possible(ids, fates) && Guards(c, store, deks, keks) && newKey in keks
    ensures var (after, reply) := RotateRows(c, store, ids, fates, kek, newKey);
            && Guards(c, after, deks, keks)
            && (forall id :: RowUnder(c, store, deks, id, newKey) ==> RowUnder(c, after, deks, id, newKey))
            && (reply.Rotated? ==> forall id :: id in ids && id in deks ==> RowUnder(c, after, deks, id, newKey))
  {
    hide StepRow, SealedUnder;
    if ids != [] {
      var (next, last) := StepStore(c, store, ids[0], fates[0], kek, newKey);
      TailIsPossible(ids, fates);
      assert ids == [ids[0]] + ids[1..];
      if ids[0] in deks {
        StepStoreGuards(c, store, ids[0], fates[0], kek, newKey, deks, keks);
        MovesRowGuards(c, store, next, deks, ids[0], newKey, keks);
      }
      if last.None? {
        RotateRowsGuards(c, next, ids[1..], fates[1..], kek, newKey, deks, keks);
      }
    }
  }

  /** A row the loop cannot open keeps its bytes, and so does one it does not list. */
  lemma {:induction false} RotateRowsFrame(c: Primitives, store: Store, ids: seq<Id>, fates: seq<Fate>, kek: Bytes,
      newKey: Bytes, id: Id)
    requires |fates| == |ids| && id in store
    requires id !in ids || UnwrapDEK(c, store[id], newKey).Ok? || UnwrapDEK(c, store[id], kek).Err?
    ensures var after := RotateRows(c, store, ids, fates, kek, newKey).0; id in after && after[id] == store[id]
  {
    if ids != [] {
      var (next, last) := StepStore(c, store, ids[0], fates[0], kek, newKey);
      assert id in next && next[id] == store[id];
      if last.None? {
        RotateRowsFrame(c, next, ids[1..], fates[1..], kek, newKey, id);
      }
    }
  }

  ghost predicate AllReachable(c: Primitives, store: Store, deks: map<Id, Bytes>, ids: seq<Id>, kek: Bytes,
      newKey: Bytes) {
    forall id <- ids :: Reachable(c, store, deks, id, kek, newKey)
  }

  lemma AllReachableFirst(c: Primitives, store: Store, deks: map<Id, Bytes>, ids: seq<Id>, kek: Bytes, newKey: Bytes)
    requires ids != []
    ensures AllReachable(c, store, deks, ids, kek, newKey) <==>
            Reachable(c, store, deks, ids[0], kek, newKey) && AllReachable(c, store, deks, ids[1..], kek, newKey)
  {
    assert ids == [ids[0]] + ids[1..];
  }

  lemma OthersReachable(c: Primitives, store: Store, next: Store, deks: map<Id, Bytes>, id: Id, kek: Bytes,
      newKey: Bytes, others: seq<Id>)
    requires MovesRow(c, store, next, deks, id, newKey) && id !in others
    ensures AllReachable(c, next, deks, others, kek, newKey) <==> AllReachable(c, store, deks, others, kek, newKey)
  {
    forall other <- others
      ensures Reachable(c, next, deks, other, kek, newKey) <==> Reachable(c, store, deks, other, kek, newKey)
    {}
  }

  lemma TailIsPossible(ids: seq<Id>, fates: seq<Fate>)
    requires ids != [] && Possible(ids, fates)
    ensures Possible(ids[1..], fates[1..]) && fates[0].Possible() && fates[0] in fates
    ensures forall f <- fates[1..] :: f in fates
    ensures forall id <- ids[1..] :: id in ids
    ensures Distinct(ids) ==> Distinct(ids[1..]) && ids[0] !in ids[1..]
  {
    forall f <- fates[1..]
      ensures f in fates
    {}
  }

  /** Without outside trouble the loop ends well exactly if every listed row is under the current or the new KEK. */
  lemma {:induction false} RotateRowsSucceedsIff(c: Primitives, store: Store, ids: seq<Id>, fates: seq<Fate>,
      kek: Bytes, newKey: Bytes, deks: map<Id, Bytes>, keks: set<Bytes>)
    requires c.Standard() && Possible(ids, fates) && Guards(c, store, deks, keks) && newKey in keks
    requires forall f <- fates :: f.Good()
    requires Distinct(ids) && forall id <- ids :: id in deks
    ensures RotateRows(c, store, ids, fates, kek, newKey).1.Rotated? <==> AllReachable(c, store, deks, ids, kek, newKey)
  {
    if ids != [] {
      TailIsPossible(ids, fates);
      StepStoreGuards(c, store, ids[0], fates[0], kek, newKey, deks, keks);
      AllReachableFirst(c, store, deks, ids, kek, newKey);
      var (next, last) := StepStore(c, store, ids[0], fates[0], kek, newKey);
      if last.None? {
        RotateRowsSucceedsIff(c, next, ids[1..], fates[1..], kek, newKey, deks, keks);
        OthersReachable(c, store, next, deks, ids[0], kek, newKey, ids[1..]);
      }
    }
  }

  // ----- The loop, row by row

  /** The bytes that re-wrapping leaves in row `id`. */
  ghost predicate IsRewrapped(c: Primitives, after: Store, deks: map<Id, Bytes>, id: Id, nonce: Option<Bytes>,
      newKey: Bytes) {
    && id in after && id in deks && nonce.Some?
    && after[id] == nonce.value + c.seal(PadKek(newKey), nonce.value, deks[id])
  }

  /** Row `id` has been served: one under the new KEK keeps its bytes, one under the old KEK is re-wrapped. */
  ghost predicate RowServed(c: Primitives, store: Store, after: Store, deks: map<Id, Bytes>, id: Id, fate: Fate,
      kek: Bytes, newKey: Bytes) {
    if RowUnder(c, store, deks, id, newKey) then
      id in after && after[id] == store[id]
    else
      RowUnder(c, store, deks, id, kek) && fate.update.Applied? && IsRewrapped(c, after, deks, id, fate.nonce, newKey)
  }

  /** Row `id` has ended the loop, and the reply says why. */
  ghost predicate RowStops(c: Primitives, store: Store, after: Store, deks: map<Id, Bytes>, id: Id, fate: Fate,
      kek: Bytes, newKey: Bytes, reply: Reply) {
    && !RowUnder(c, store, deks, id, newKey)
    && id in store && id in after
    && if !RowUnder(c, store, deks, id, kek) then
         reply == UnwrapFailed(id) && after[id] == store[id]
       else if fate.nonce.None? then
         reply == WrapFailed(id) && after[id] == store[id]
       else
         && reply == UpdateFailed(id)
         && (fate.update.Refused? || fate.update.ReplyLost?)
         && if fate.update.Refused? then after[id] == store[id]
            else IsRewrapped(c, after, deks, id, fate.nonce, newKey)
  }

  lemma StepServesOrStops(c: Primitives, store: Store, id: Id, fate: Fate, kek: Bytes, newKey: Bytes,
      deks: map<Id, Bytes>, keks: set<Bytes>)
    requires c.Standard() && fate.Possible() && Guards(c, store, deks, keks) && id in deks
    ensures var (next, last) := StepStore(c, store, id, fate, kek, newKey);
            match last
            case None => RowServed(c, store, next, deks, id, fate, kek, newKey)
            case Some(reply) => RowStops(c, store, next, deks, id, fate, kek, newKey, reply) && !reply.Rotated?
  {
    assert RowGuarded(c, store, deks, id, keks);
    var sealing :| sealing in keks && RowUnder(c, store, deks, id, sealing);
    RowUnderExactly(c, store, deks, id, sealing, newKey);
    RowUnderExactly(c, store, deks, id, sealing, kek);
    hide RowUnder, UnwrapDEK, PadKek, Primitives.Standard;
  }

  /** What a row comes to does not change once the loop has passed it, and did not change before. */
  lemma ServedElsewhere(c: Primitives, store: Store, next: Store, after: Store, deks: map<Id, Bytes>, id: Id,
      fate: Fate, kek: Bytes, newKey: Bytes, reply: Reply)
    requires id in store && id in next && next[id] == store[id]
    ensures RowServed(c, store, after, deks, id, fate, kek, newKey) ==
            RowServed(c, next, after, deks, id, fate, kek, newKey)
    ensures RowStops(c, store, after, deks, id, fate, kek, newKey, reply) ==
            RowStops(c, next, after, deks, id, fate, kek, newKey, reply)
  {
    hide SealedUnder, IsRewrapped;
  }

  lemma ServedStays(c: Primitives, store: Store, next: Store, after: Store, deks: map<Id, Bytes>, id: Id, fate: Fate,
      kek: Bytes, newKey: Bytes)
    requires id in next && id in after && next[id] == after[id]
    ensures RowServed(c, store, next, deks, id, fate, kek, newKey) ==>
              RowServed(c, store, after, deks, id, fate, kek, newKey)
  {
    hide RowUnder;
  }

  /**
   The loop has served the first `k` rows, and ended at row `k` if there was one; no other row has changed a byte. A
   failure names row `k` and what went wrong with it.
   */
  ghost predicate LoopEnded(c: Primitives, store: Store, after: Store, deks: map<Id, Bytes>, ids: seq<Id>,
      fates: seq<Fate>, kek: Bytes, newKey: Bytes, reply: Reply, k: nat) {
    && |fates| == |ids| && k <= |ids| && after.Keys == store.Keys
    && (forall j :: 0 <= j < k ==> RowServed(c, store, after, deks, ids[j], fates[j], kek, newKey))
    && (k == |ids| <==> reply.Rotated?)
    && (k < |ids| ==> RowStops(c, store, after, deks, ids[k], fates[k], kek, newKey, reply))
    && (forall id <- store :: id !in ids || id in ids[if k < |ids| then k + 1 else k..] ==> after[id] == store[id])
  }

  lemma {:induction false} LoopIs(c: Primitives, store: Store, ids: seq<Id>, fates: seq<Fate>, kek: Bytes,
      newKey: Bytes, deks: map<Id, Bytes>, keks: set<Bytes>) returns (k: nat)
    requires c.Standard() && Possible(ids, fates) && Guards(c, store, deks, keks) && newKey in keks
    requires Distinct(ids) && forall id <- ids :: id in deks
    ensures var (after, reply) := RotateRows(c, store, ids, fates, kek, newKey);
            LoopEnded(c, store, after, deks, ids, fates, kek, newKey, reply, k)
  {
    hide StepStore, RowServed, RowStops, RowUnder, Primitives.Standard;
    k := 0;
    if ids != [] {
      var (next, last) := StepStore(c, store, ids[0], fates[0], kek, newKey);
      TailIsPossible(ids, fates);
      StepServesOrStops(c, store, ids[0], fates[0], kek, newKey, deks, keks);
      StepStoreGuards(c, store, ids[0], fates[0], kek, newKey, deks, keks);
      if last.Some? {
        assert ids[0] !in ids[1..];
      } else {
        var rest := LoopIs(c, next, ids[1..], fates[1..], kek, newKey, deks, keks);
        k := rest + 1;
        LoopIsOneMore(c, store, next, ids, fates, kek, newKey, deks, k);
      }
    }
  }

  lemma LoopIsOneMore(c: Primitives, store: Store, next: Store, ids: seq<Id>, fates: seq<Fate>, kek: Bytes,
      newKey: Bytes, deks: map<Id, Bytes>, k: nat)
    requires |fates| == |ids| && ids != [] && k >= 1 && Distinct(ids) && forall id <- ids :: id in store
    requires MovesRow(c, store, next, deks, ids[0], newKey)
    requires RowServed(c, store, next, deks, ids[0], fates[0], kek, newKey)
    requires var (after, reply) := RotateRows(c, next, ids[1..], fates[1..], kek, newKey);
             LoopEnded(c, next, after, deks, ids[1..], fates[1..], kek, newKey, reply, k - 1)
    ensures var (after, reply) := RotateRows(c, next, ids[1..], fates[1..], kek, newKey);
            LoopEnded(c, store, after, deks, ids, fates, kek, newKey, reply, k)
  {
    hide RowServed, RowStops, RowUnder, RotateRows;
    var (after, reply) := RotateRows(c, next, ids[1..], fates[1..], kek, newKey);
    var at := if k < |ids| then k + 1 else k;
    assert ids == [ids[0]] + ids[1..] && ids[1..][at - 1..] == ids[at..];
    assert ids[0] !in ids[1..];
    forall j | 1 <= j < |ids|
      ensures ids[j] in store && next[ids[j]] == store[ids[j]] && ids[1..][j - 1] == ids[j]
      ensures fates[1..][j - 1] == fates[j]
      ensures RowServed(c, store, after, deks, ids[j], fates[j], kek, newKey) ==
              RowServed(c, next, after, deks, ids[j], fates[j], kek, newKey)
      ensures RowStops(c, store, after, deks, ids[j], fates[j], kek, newKey, reply) ==
              RowStops(c, next, after, deks, ids[j], fates[j], kek, newKey, reply)
    {
      assert ids[1..][j - 1] == ids[j];
      ServedElsewhere(c, store, next, after, deks, ids[j], fates[j], kek, newKey, reply);
    }
    ServedStays(c, store, next, after, deks, ids[0], fates[0], kek, newKey);
    forall id <- store | id !in ids || id in ids[at..]
      ensures after[id] == store[id]
    {
      assert id != ids[0];
    }
  }

  // ----- Whole rotations

  ghost predicate Wellformed(s: ServerState, request: Request) {
    IsRead(request.ids, s.store) && Possible(request.ids, request.fates)
  }

  /** The payload of the request opens to `key` under `kek`. */
  ghost predicate OpensTo(c: Primitives, kek: Bytes, nonce: Bytes, cipher: Bytes, key: Bytes) {
    (|kek| == 16 || |kek| == 24 || |kek| == 32) && |nonce| == 12 && c.open(kek, nonce, cipher) == Some(key)
  }

  /** The key a request asks for, once it has been opened and measured. */
  ghost predicate Asks(c: Primitives, s: ServerState, request: Request, newKey: Bytes) {
    OpensTo(c, s.kek, request.nonce, request.cipher, newKey) && |newKey| == 32
  }

  /** The keys under which rows can be found after a request. */
  ghost function KeksAfter(c: Primitives, s: ServerState, request: Request, keks: set<Bytes>): set<Bytes> {
    match c.open(s.kek, request.nonce, request.cipher)
    case None => keks
    case Some(newKey) => keks + {newKey}
  }

  lemma RequestedKeyIs(c: Primitives, s: ServerState, request: Request)
    ensures forall key :: RequestedKey(c, s.kek, request) == Ok(key) <==>
              OpensTo(c, s.kek, request.nonce, request.cipher, key)
  {
  }

  lemma GuardsMoreKeys(c: Primitives, store: Store, deks: map<Id, Bytes>, keks: set<Bytes>, more: set<Bytes>)
    requires Guards(c, store, deks, keks) && keks <= more
    ensures Guards(c, store, deks, more)
  {
    forall id <- deks
      ensures RowGuarded(c, store, deks, id, more)
    {
      assert RowGuarded(c, store, deks, id, keks);
    }
  }

  /** The rows a request misses. */
  ghost predicate AllReadOrUnder(c: Primitives, s: ServerState, request: Request, deks: map<Id, Bytes>, kek: Bytes) {
    forall id <- deks :: id in request.ids || RowUnder(c, s.store, deks, id, kek)
  }

  /**
   Every way the handler can end: no key is lost, and failure keeps the KEK. Success puts the server and every
   row that was read on the new KEK; it covers all rows exactly if each row that was not read was under the new
   KEK before.
   */
  lemma RotationIsSafe(c: Primitives, s: ServerState, request: Request, deks: map<Id, Bytes>, keks: set<Bytes>)
    requires c.Standard() && Wellformed(s, request) && Guards(c, s.store, deks, keks)
    ensures var (t, reply) := Handle(c, s, request);
            && Guards(c, t.store, deks, KeksAfter(c, s, request, keks))
            && (!reply.Rotated? ==> t.kek == s.kek)
            && (reply.Rotated? ==>
                  && Asks(c, s, request, t.kek)
                  && (forall id <- request.ids :: RowUnder(c, t.store, deks, id, t.kek))
                  && (forall id <- deks :: id !in request.ids ==>
                      id in t.store && id in s.store && t.store[id] == s.store[id])
                  && ((forall id <- deks :: RowUnder(c, t.store, deks, id, t.kek)) <==>
                      AllReadOrUnder(c, s, request, deks, t.kek)))
  {
    GuardsMoreKeys(c, s.store, deks, keks, KeksAfter(c, s, request, keks));
    hide RotateRows, SealedUnder, RowGuarded;
    match RequestedKey(c, s.kek, request)
    case Err(_) =>
    case Ok(newKey) =>
      RotateRowsGuards(c, s.store, request.ids, request.fates, s.kek, newKey, deks, keks + {newKey});
      forall id <- deks | id !in request.ids
        ensures var after := RotateRows(c, s.store, request.ids, request.fates, s.kek, newKey).0;
                id in after && id in s.store && after[id] == s.store[id]
      {
        RotateRowsFrame(c, s.store, request.ids, request.fates, s.kek, newKey, id);
      }
  }

  /**
   A request whose payload does not open changes nothing, and the reply says why: the server's key is none for AES,
   the nonce makes Go panic, or the payload was sealed under another key or is none at all.
   */
  lemma RefusedRequest(c: Primitives, s: ServerState, request: Request)
    requires c.Standard() && |request.fates| == |request.ids|
    ensures var aes := |s.kek| == 16 || |s.kek| == 24 || |s.kek| == 32;
            && (!aes ==> Handle(c, s, request) == (s, InternalCryptoError))
            && (aes && |request.nonce| != 12 ==> Handle(c, s, request) == (s, Panicked))
            && (aes && |request.nonce| == 12 && c.open(s.kek, request.nonce, request.cipher).None? ==>
                Handle(c, s, request) == (s, PayloadRejected))
            && (aes && |request.nonce| == 12 ==>
                forall other, newKey |
                  other != s.kek && AesKeySize(|other|) && request.cipher == c.seal(other, request.nonce, newKey) ::
                  Handle(c, s, request) == (s, PayloadRejected))
  {
    hide RotateRows;
  }

  /** The request holds `newKey`, sealed under the server's KEK as the client does it. */
  ghost predicate Seals(c: Primitives, s: ServerState, request: Request, newKey: Bytes) {
    && (|s.kek| == 16 || |s.kek| == 24 || |s.kek| == 32)
    && |request.nonce| == 12
    && request.cipher == c.seal(s.kek, request.nonce, newKey)
  }

  /** A sealed key is the one asked for, if it has 32 bytes. */
  lemma SealedIsAsked(c: Primitives, s: ServerState, request: Request, newKey: Bytes)
    requires c.Standard() && Seals(c, s, request, newKey)
    ensures OpensTo(c, s.kek, request.nonce, request.cipher, newKey)
    ensures |newKey| == 32 <==> Asks(c, s, request, newKey)
  {
    OpenSealed(c, s.kek, s.kek, request.nonce, newKey);
  }

  /**
   A request with a sealed key: one of another size is refused; otherwise the rows are served in their order up to row
   `k`, and the server switches to the very key that was sealed exactly if all of them were.
   */
  lemma SealedRequest(c: Primitives, s: ServerState, request: Request, newKey: Bytes, deks: map<Id, Bytes>,
      keks: set<Bytes>) returns (k: nat)
    requires c.Standard() && Wellformed(s, request) && Guards(c, s.store, deks, keks)
    requires Seals(c, s, request, newKey)
    ensures |newKey| != 32 ==> Handle(c, s, request) == (s, BadMasterKeyLength)
    ensures |newKey| == 32 && request.readFails ==> Handle(c, s, request) == (s, DatabaseError)
    ensures |newKey| == 32 && !request.readFails ==>
              var (t, reply) := Handle(c, s, request);
              && LoopEnded(c, s.store, t.store, deks, request.ids, request.fates, s.kek, newKey, reply, k)
              && t.kek == (if k == |request.ids| then newKey else s.kek)
              && t.roleKeys == s.roleKeys
              && (reply.Rotated? ==> forall id <- request.ids :: RowUnder(c, t.store, deks, id, newKey))
  {
    SealedIsAsked(c, s, request, newKey);
    GuardsMoreKeys(c, s.store, deks, keks, keks + {newKey});
    RotationIsSafe(c, s, request, deks, keks);
    k := LoopIs(c, s.store, request.ids, request.fates, s.kek, newKey, deks, keks + {newKey});
    hide RotateRows, RowServed, RowStops, SealedUnder, RowGuarded, Primitives.Standard;
  }

  lemma CoveredIff(c: Primitives, s: ServerState, request: Request, deks: map<Id, Bytes>, newKek: Bytes)
    requires c.Standard() && Guards(c, s.store, deks, {s.kek})
    ensures AllReadOrUnder(c, s, request, deks, newKek) <==>
            (forall id <- s.store :: id in request.ids) || PadKek(newKek) == PadKek(s.kek)
  {
    hide SealedUnder, RowUnder, PadKek, Primitives.Standard;
    forall id <- deks
      ensures RowUnder(c, s.store, deks, id, newKek) <==> PadKek(newKek) == PadKek(s.kek)
    {
      assert RowGuarded(c, s.store, deks, id, {s.kek});
      RowUnderExactly(c, s.store, deks, id, s.kek, newKek);
    }
    assert forall id :: id in s.store <==> id in deks;
  }

  /** From a table in order, success covers all rows exactly if all were read, or the new KEK only looks new. */
  lemma RotationCoversIff(c: Primitives, s: ServerState, request: Request, deks: map<Id, Bytes>)
    requires c.Standard() && Wellformed(s, request) && Guards(c, s.store, deks, {s.kek})
    requires Handle(c, s, request).1.Rotated?
    ensures var t := Handle(c, s, request).0;
            (forall id <- deks :: RowUnder(c, t.store, deks, id, t.kek)) <==>
            (forall id <- s.store :: id in request.ids) || PadKek(t.kek) == PadKek(s.kek)
  {
    RotationIsSafe(c, s, request, deks, {s.kek});
    CoveredIff(c, s, request, deks, Handle(c, s, request).0.kek);
    hide SealedUnder, RowUnder, PadKek, Handle, Primitives.Standard, Asks, Guards, AllReadOrUnder;
  }

  /**
   A read that breaks off at once: the handler reports success, and the only row no longer opens under the server's
   KEK.
   */
  lemma ShortReadLeavesRowsBehind() returns (c: Primitives, s: ServerState, request: Request, deks: map<Id, Bytes>)
    ensures c.Standard() && Wellformed(s, request) && Guards(c, s.store, deks, {s.kek}) && deks.Keys == {"row"}
    ensures var (t, reply) := Handle(c, s, request);
            && reply.Rotated?
            && "row" in t.store && UnwrapDEK(c, t.store["row"], t.kek) == Err(KeyOpenFailed)
  {
    c := StandardIsPossible();
    var (kek, newKey, dek, nonce) := (Zeros(KEK_SIZE), Zeros(KEK_SIZE)[0 := 1], Zeros(KEK_SIZE), Zeros(NONCE_SIZE));
    var wrapped := nonce + c.seal(PadKek(kek), nonce, dek);
    assert wrapped[..NONCE_SIZE] == nonce && wrapped[NONCE_SIZE..] == c.seal(PadKek(kek), nonce, dek);
    s := ServerState(kek, map["row" := wrapped], map[]);
    request := Request(nonce, c.seal(kek, nonce, newKey), false, [], []);
    deks := map["row" := dek];
    assert RowUnder(c, s.store, deks, "row", kek);
    OpenSealed(c, kek, kek, nonce, newKey);
    assert newKey[0] != kek[0];
    UnwrapSealed(c, wrapped, dek, kek, newKey);
  }

  /**
   With the table in order and no outside trouble, a rotation succeeds exactly if no row that is read is under a third
   KEK.
   */
  lemma RotationSucceedsIff(c: Primitives, s: ServerState, request: Request, newKey: Bytes, deks: map<Id, Bytes>,
      keks: set<Bytes>)
    requires c.Standard() && Guards(c, s.store, deks, keks) && Untroubled(c, s, request, newKey)
    ensures Handle(c, s, request).1.Rotated? <==>
            forall id <- request.ids :: Reachable(c, s.store, deks, id, s.kek, newKey)
  {
    GuardsMoreKeys(c, s.store, deks, keks, keks + {newKey});
    RotateRowsSucceedsIff(c, s.store, request.ids, request.fates, s.kek, newKey, deks, keks + {newKey});
  }

  // ----- Histories of rotations

  /** The server after a list of requests, of which any may fail at any row. */
  ghost predicate History(c: Primitives, states: seq<ServerState>, requests: seq<Request>) {
    && |states| == |requests| + 1
    && forall i :: 0 <= i < |requests| ==>
        Wellformed(states[i], requests[i]) && states[i + 1] == Handle(c, states[i], requests[i]).0
  }

  /** The KEKs that requests `0..n` managed to ask for, beside the first one. */
  ghost function KeksAsked(c: Primitives, states: seq<ServerState>, requests: seq<Request>, n: nat): set<Bytes>
    requires n <= |requests| && |states| == |requests| + 1
  {
    if n == 0 then {states[0].kek}
        else KeksAfter(c, states[n - 1], requests[n - 1], KeksAsked(c, states, requests, n - 1))
  }

  /** In any history, every row always opens to its original key under some KEK that was current or asked for. */
  lemma {:induction false} HistoryKeepsDeks(c: Primitives, states: seq<ServerState>, requests: seq<Request>, n: nat,
      deks: map<Id, Bytes>)
    requires c.Standard() && History(c, states, requests) && n <= |requests|
    requires Guards(c, states[0].store, deks, {states[0].kek})
    ensures Guards(c, states[n].store, deks, KeksAsked(c, states, requests, n))
  {
    if n > 0 {
      HistoryKeepsDeks(c, states, requests, n - 1, deks);
      RotationIsSafe(c, states[n - 1], requests[n - 1], deks, KeksAsked(c, states, requests, n - 1));
    }
  }

  /** Failed attempts that all ask for `newKey` leave every row under the old KEK or `newKey`. */
  lemma {:induction false} FailedAttemptsStayReachable(c: Primitives, states: seq<ServerState>, requests: seq<Request>,
      n: nat, deks: map<Id, Bytes>, newKey: Bytes)
    requires c.Standard() && History(c, states, requests) && n <= |requests|
    requires Guards(c, states[0].store, deks, {states[0].kek, newKey})
    requires forall i :: 0 <= i < n ==>
             Asks(c, states[i], requests[i], newKey) && !Handle(c, states[i], requests[i]).1.Rotated?
    ensures states[n].kek == states[0].kek && Guards(c, states[n].store, deks, {states[0].kek, newKey})
  {
    if n > 0 {
      FailedAttemptsStayReachable(c, states, requests, n - 1, deks, newKey);
      RotationIsSafe(c, states[n - 1], requests[n - 1], deks, {states[0].kek, newKey});
      assert {states[0].kek, newKey} + {newKey} == {states[0].kek, newKey};
    }
  }

  lemma LastAttempt(c: Primitives, s: ServerState, request: Request, newKey: Bytes, deks: map<Id, Bytes>)
    requires c.Standard() && Guards(c, s.store, deks, {s.kek, newKey}) && Untroubled(c, s, request, newKey)
    ensures Arrives(c, s, request, newKey, deks)
  {
    hide SealedUnder, Handle;
    forall id <- request.ids
      ensures Reachable(c, s.store, deks, id, s.kek, newKey)
    {
      assert RowGuarded(c, s.store, deks, id, {s.kek, newKey});
    }
    RotationSucceedsIff(c, s, request, newKey, deks, {s.kek, newKey});
    RotationIsSafe(c, s, request, deks, {s.kek, newKey});
  }

  /** The request succeeds: every row it reads is under `newKey`, and all rows are if the others were before. */
  ghost predicate Arrives(c: Primitives, s: ServerState, request: Request, newKey: Bytes, deks: map<Id, Bytes>)
    requires |request.fates| == |request.ids|
  {
    var (t, reply) := Handle(c, s, request);
    && reply.Rotated? && t.kek == newKey && t.store.Keys == deks.Keys
    && (forall id <- request.ids :: RowUnder(c, t.store, deks, id, newKey))
    && ((forall id <- deks :: RowUnder(c, t.store, deks, id, newKey)) <==> AllReadOrUnder(c, s, request, deks, newKey))
  }

  /** After any number of failed attempts, one more with the same key and no trouble succeeds. */
  lemma RotationIsResumable(c: Primitives, states: seq<ServerState>, requests: seq<Request>, deks: map<Id, Bytes>,
      newKey: Bytes, retry: Request)
    requires c.Standard() && History(c, states, requests)
    requires Guards(c, states[0].store, deks, {states[0].kek, newKey})
    requires forall i :: 0 <= i < |requests| ==>
             Asks(c, states[i], requests[i], newKey) && !Handle(c, states[i], requests[i]).1.Rotated?
    requires Untroubled(c, states[|requests|], retry, newKey)
    ensures Arrives(c, states[|requests|], retry, newKey, deks)
  {
    FailedAttemptsStayReachable(c, states, requests, |requests|, deks, newKey);
    LastAttempt(c, states[|requests|], retry, newKey, deks);
  }

  /** A request that asks for `newKey` and meets no trouble outside. */
  ghost predicate Untroubled(c: Primitives, s: ServerState, request: Request, newKey: Bytes) {
    Wellformed(s, request) && Asks(c, s, request, newKey) && !request.readFails && forall f <- request.fates :: f.Good()
  }

  /**
   The interrupted and retried rotation and an uninterrupted one end with the same KEK and, in every row that both
   have read, the same key.
   */
  lemma ResumedEqualsUninterrupted(c: Primitives, states: seq<ServerState>, requests: seq<Request>,
      deks: map<Id, Bytes>, newKey: Bytes, retry: Request, straight: Request)
    requires c.Standard() && History(c, states, requests)
    requires Guards(c, states[0].store, deks, {states[0].kek})
    requires forall i :: 0 <= i < |requests| ==>
             Asks(c, states[i], requests[i], newKey) && !Handle(c, states[i], requests[i]).1.Rotated?
    requires Untroubled(c, states[|requests|], retry, newKey) && Untroubled(c, states[0], straight, newKey)
    ensures var (t, u) := (Handle(c, states[|requests|], retry).0, Handle(c, states[0], straight).0);
            && t.kek == u.kek == newKey
            && t.store.Keys == u.store.Keys == deks.Keys
            && forall id <- deks | id in retry.ids && id in straight.ids ::
                 id in t.store && id in u.store
                     && UnwrapDEK(c, t.store[id], t.kek) == UnwrapDEK(c, u.store[id], u.kek) == Ok(deks[id])
  {
    hide SealedUnder, Handle, UnwrapDEK;
    GuardsMoreKeys(c, states[0].store, deks, {states[0].kek}, {states[0].kek, newKey});
    RotationIsResumable(c, states, requests, deks, newKey, retry);
    RotationIsResumable(c, [states[0]], [], deks, newKey, straight);
    var (t, u) := (Handle(c, states[|requests|], retry).0, Handle(c, states[0], straight).0);
    forall id <- deks | id in retry.ids && id in straight.ids
      ensures UnwrapDEK(c, t.store[id], newKey) == Ok(deks[id]) == UnwrapDEK(c, u.store[id], newKey)
    {
      RowUnderExactly(c, t.store, deks, id, newKey, newKey);
      RowUnderExactly(c, u.store, deks, id, newKey, newKey);
    }
  }

  /**
   The same for requests that all hold `newKey`, sealed under the KEK the server then has: after failed attempts one
   more succeeds, and ends where one attempt without trouble would have ended.
   */
  lemma SealedRotationResumes(c: Primitives, states: seq<ServerState>, requests: seq<Request>, deks: map<Id, Bytes>,
      newKey: Bytes, retry: Request, straight: Request)
    requires c.Standard() && History(c, states, requests) && |newKey| == 32
    requires Guards(c, states[0].store, deks, {states[0].kek})
    requires forall i :: 0 <= i < |requests| ==>
             Seals(c, states[i], requests[i], newKey) && !Handle(c, states[i], requests[i]).1.Rotated?
    requires var last := states[|requests|];
             && Wellformed(last, retry) && Seals(c, last, retry, newKey)
             && !retry.readFails && forall f <- retry.fates :: f.Good()
    requires Wellformed(states[0], straight) && Seals(c, states[0], straight, newKey)
             && !straight.readFails && forall f <- straight.fates :: f.Good()
    ensures Arrives(c, states[|requests|], retry, newKey, deks)
    ensures var (t, u) := (Handle(c, states[|requests|], retry).0, Handle(c, states[0], straight).0);
            && t.kek == u.kek == newKey
            && forall id <- deks | id in retry.ids && id in straight.ids ::
                 id in t.store && id in u.store
                     && UnwrapDEK(c, t.store[id], t.kek) == UnwrapDEK(c, u.store[id], u.kek) == Ok(deks[id])
  {
    forall i | 0 <= i < |requests|
      ensures Asks(c, states[i], requests[i], newKey)
    {
      SealedIsAsked(c, states[i], requests[i], newKey);
    }
    SealedIsAsked(c, states[|requests|], retry, newKey);
    SealedIsAsked(c, states[0], straight, newKey);
    GuardsMoreKeys(c, states[0].store, deks, {states[0].kek}, {states[0].kek, newKey});
    RotationIsResumable(c, states, requests, deks, newKey, retry);
    ResumedEqualsUninterrupted(c, states, requests, deks, newKey, retry, straight);
    hide Handle, UnwrapDEK, Guards, History, Seals, Primitives.Standard;
  }

  /**
   A row left under an abandoned KEK stops every rotation to a third one that reads it, and always keeps its bytes.
   */
  lemma ThirdKeyIsStuck(c: Primitives, s: ServerState, request: Request, deks: map<Id, Bytes>, keks: set<Bytes>, id: Id,
      abandoned: Bytes, third: Bytes)
    requires c.Standard() && Wellformed(s, request) && Guards(c, s.store, deks, keks)
    requires RowUnder(c, s.store, deks, id, abandoned) && PadKek(abandoned) != PadKek(s.kek)
    requires Asks(c, s, request, third) && PadKek(abandoned) != PadKek(third)
    ensures var (t, reply) := Handle(c, s, request);
            && (id in request.ids ==> !reply.Rotated? && t.kek == s.kek)
            && id in t.store && t.store[id] == s.store[id]
  {
    RotationIsSafe(c, s, request, deks, keks);
    RowUnderExactly(c, s.store, deks, id, abandoned, s.kek);
    RowUnderExactly(c, s.store, deks, id, abandoned, third);
    var t := Handle(c, s, request).0;
    RotateRowsFrame(c, s.store, request.ids, request.fates, s.kek, third, id);
    RowUnderExactly(c, t.store, deks, id, abandoned, t.kek);
  }

  // ----- Payloads and readers

  /** The KEK a row is under after a successful request: the new one if the row was read. */
  function KekOf(s: ServerState, t: ServerState, request: Request, id: Id): Bytes {
    if id in request.ids then t.kek else s.kek
  }

  lemma RowAfterSuccess(c: Primitives, s: ServerState, request: Request, deks: map<Id, Bytes>, id: Id)
    requires c.Standard() && Wellformed(s, request) && Guards(c, s.store, deks, {s.kek}) && id in deks
    requires Handle(c, s, request).1.Rotated?
    ensures RowUnder(c, s.store, deks, id, s.kek)
    ensures var t := Handle(c, s, request).0; RowUnder(c, t.store, deks, id, KekOf(s, t, request, id))
  {
    RotationIsSafe(c, s, request, deks, {s.kek});
    hide SealedUnder, Handle;
    assert RowGuarded(c, s.store, deks, id, {s.kek});
  }

  /**
   After a success, a reader with any key gets what the payload decrypted to before exactly if its key pads like the
   row's.
   */
  lemma ReadersAfterRotation(c: Primitives, s: ServerState, request: Request, deks: map<Id, Bytes>, id: Id,
      reader: Bytes, nonce: Bytes, payload: Bytes)
    requires c.Standard() && Wellformed(s, request) && Guards(c, s.store, deks, {s.kek}) && id in deks
    requires Handle(c, s, request).1.Rotated?
    ensures var t := Handle(c, s, request).0;
            id in t.store && id in s.store &&
            EnvelopeDecrypt(c, reader, t.store[id], nonce, payload) ==
            if PadKek(reader) == PadKek(if id in request.ids then t.kek else s.kek) then
                EnvelopeDecrypt(c, s.kek, s.store[id], nonce, payload) else Err(KeyOpenFailed)
  {
    RowAfterSuccess(c, s, request, deks, id);
    var t := Handle(c, s, request).0;
    RowUnderExactly(c, s.store, deks, id, s.kek, s.kek);
    RowUnderExactly(c, t.store, deks, id, KekOf(s, t, request, id), reader);
    EnvelopeThroughDek(c, s.kek, s.store[id], deks[id], nonce, payload);
    if PadKek(reader) == PadKek(KekOf(s, t, request, id)) {
      EnvelopeThroughDek(c, reader, t.store[id], deks[id], nonce, payload);
    } else {
      SealedIsLong(c, t.store[id], deks[id], KekOf(s, t, request, id));
    }
    hide Handle, SealedUnder, PadKek, KekOf;
  }

  lemma SealedIsLong(c: Primitives, wrapped: Bytes, dek: Bytes, kek: Bytes)
    requires SealedUnder(c, wrapped, dek, kek)
    ensures |wrapped| >= NONCE_SIZE
  {
  }

  /**
   A reported success changes nothing about what a stored payload decrypts to exactly for the rows that were read; the
   others stop opening.
   */
  lemma RotationPreservesPayloads(c: Primitives, s: ServerState, request: Request, deks: map<Id, Bytes>, id: Id,
      nonce: Bytes, payload: Bytes)
    requires c.Standard() && Wellformed(s, request) && Guards(c, s.store, deks, {s.kek}) && id in deks
    requires Handle(c, s, request).1.Rotated?
    ensures var t := Handle(c, s, request).0;
            id in t.store && id in s.store &&
            EnvelopeDecrypt(c, t.kek, t.store[id], nonce, payload) ==
            if id in request.ids || PadKek(t.kek) == PadKek(s.kek) then
                EnvelopeDecrypt(c, s.kek, s.store[id], nonce, payload) else Err(KeyOpenFailed)
  {
    ReadersAfterRotation(c, s, request, deks, id, Handle(c, s, request).0.kek, nonce, payload);
    hide Handle, EnvelopeDecrypt, PadKek;
  }

  /** internal/db/db.go:393-399: `kek` is the key in the environment, decoded by `decode` if it is base64. */
  ghost predicate IsEnvironmentKek(decode: Bytes -> Option<Bytes>, env: Bytes, kek: Bytes) {
    decode(env) == Some(kek) || (decode(env).None? && kek == env)
  }

  /**
   Readers that take the key from the environment read on exactly if what they make of it pads like the KEK the row is
   under now.
   */
  lemma ReadersOnTheEnvironment(c: Primitives, s: ServerState, request: Request, deks: map<Id, Bytes>, id: Id,
      nonce: Bytes, payload: Bytes, decode: Bytes -> Option<Bytes>, env: Bytes, reader: Bytes)
    requires c.Standard() && Wellformed(s, request) && Guards(c, s.store, deks, {s.kek}) && id in deks
    requires Handle(c, s, request).1.Rotated? && IsEnvironmentKek(decode, env, reader)
    ensures var t := Handle(c, s, request).0;
            id in t.store && id in s.store &&
            EnvelopeDecrypt(c, reader, t.store[id], nonce, payload) ==
            if PadKek(reader) == PadKek(if id in request.ids then t.kek else s.kek) then
                EnvelopeDecrypt(c, s.kek, s.store[id], nonce, payload)
            else Err(KeyOpenFailed)
  {
    ReadersAfterRotation(c, s, request, deks, id, reader, nonce, payload);
    hide Handle, EnvelopeDecrypt, PadKek;
  }

  /**
   The server takes the same variable as it is (cmd/scheduler/main.go:215). If decoding changes the key that the
   rows are under, a rotation moves no row, and succeeds only if it reads none.
   */
  lemma EncodedKeyMovesNothing(c: Primitives, s: ServerState, request: Request, deks: map<Id, Bytes>,
      decode: Bytes -> Option<Bytes>, rows: Bytes, newKey: Bytes)
    requires c.Standard() && Wellformed(s, request) && Guards(c, s.store, deks, {rows})
    requires IsEnvironmentKek(decode, s.kek, rows) && PadKek(rows) != PadKek(s.kek)
    requires Asks(c, s, request, newKey) && PadKek(newKey) != PadKek(rows)
    ensures var (t, reply) := Handle(c, s, request);
            t.store == s.store && (reply.Rotated? ==> request.ids == [])
  {
    hide PadKek, SealedUnder;
    RotationIsSafe(c, s, request, deks, {rows});
    hide Handle;
    var (t, reply) := Handle(c, s, request);
    forall id <- deks
      ensures id in t.store && t.store[id] == s.store[id] && (id in request.ids ==> !reply.Rotated?)
    {
      assert RowGuarded(c, s.store, deks, id, {rows});
      ThirdKeyIsStuck(c, s, request, deks, {rows}, id, rows, newKey);
    }
    if request.ids != [] {
      assert request.ids[0] in request.ids;
    }
  }

  /** The role rows are not moved, and open for the server afterwards exactly if its KEKs pad alike. */
  lemma RoleRowsAreLeftBehind(c: Primitives, s: ServerState, request: Request, user: int, dek: Bytes, nonce: Bytes,
      payload: Bytes)
    requires c.Standard() && |request.fates| == |request.ids| && user in s.roleKeys
             && SealedUnder(c, s.roleKeys[user], dek, s.kek)
    ensures var t := Handle(c, s, request).0;
            && t.roleKeys == s.roleKeys
            && EnvelopeDecrypt(c, t.kek, t.roleKeys[user], nonce, payload) ==
               if PadKek(t.kek) == PadKek(s.kek) then EnvelopeDecrypt(c, s.kek, s.roleKeys[user], nonce, payload)
                   else Err(KeyOpenFailed)
  {
    var t := Handle(c, s, request).0;
    UnwrapSealed(c, s.roleKeys[user], dek, s.kek, t.kek);
    SealedIsLong(c, s.roleKeys[user], dek, s.kek);
    hide RotateRows, SealedUnder, PadKek;
  }
}
