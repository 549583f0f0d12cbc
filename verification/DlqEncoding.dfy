/** The dead letter queue as FlatBuffers: what `handleDLQBin` writes, the generated accessors read back. */
module DlqEncoding {
  import opened Base
  import opened FlatTable
  import opened FlatBuilder

  // ----- Entries

  type Int64 = x: int | -TWO_63 <= x < TWO_63

  /** A time as the encoder uses it: its RFC 3339 text and its nanoseconds since the epoch. */
  datatype Time = Time(text: Bytes, unixNano: Int64)

  datatype Entry = Entry(
    id: Bytes,
    packageId: Option<Bytes>,
    payload: Bytes,
    errorCode: Option<Bytes>,
    errorMessage: Option<Bytes>,
    failedAt: Time,
    resolved: bool,
    resolvedAt: Option<Time>)

  /** Go's division of an int64 by 1e6, towards zero. */
  function UnixMs(t: Time): (ms: Int64)
    ensures if t.unixNano >= 0 then ms * 1000000 <= t.unixNano < (ms + 1) * 1000000
            else (ms - 1) * 1000000 < t.unixNano <= ms * 1000000
  {
    var nano: int := t.unixNano;
    if nano >= 0 then nano / 1000000 else -(-nano / 1000000)
  }

  function TextOf(s: Option<Bytes>): Field {
    match s
    case None => Missing
    case Some(t) => Text(t)
  }

  function TimeText(t: Option<Time>): Option<Bytes> {
    match t
    case None => None
    case Some(time) => Some(time.text)
  }

  /** What the ten slots of an entry have to hold. */
  function Fields(e: Entry): (r: seq<Field>)
    ensures |r| == 10
  {
    [Text(e.id), TextOf(e.packageId), Text(e.payload), TextOf(e.errorCode), TextOf(e.errorMessage),
        Text(e.failedAt.text),
     Int(UnixMs(e.failedAt)), Truth(e.resolved), TextOf(TimeText(e.resolvedAt)),
     Int(if e.resolvedAt.Some? then UnixMs(e.resolvedAt.value) else 0)]
  }

  // ----- Accessors of schematas/DLQEntry.go and schematas/DLQEntryList.go

  class DLQEntry {
    var tab: Table

    constructor ()
    {
      tab := Table([], 0);
    }

    method Init(t: Table)
      modifies this
      ensures tab == t
    {
      tab := t;
    }

    function Id(): Read<Option<Bytes>> reads this { tab.StringField(4) }
    function PackageId(): Read<Option<Bytes>> reads this { tab.StringField(6) }
    function Payload(): Read<Option<Bytes>> reads this { tab.StringField(8) }
    function ErrorCode(): Read<Option<Bytes>> reads this { tab.StringField(10) }
    function ErrorMessage(): Read<Option<Bytes>> reads this { tab.StringField(12) }
    function FailedAt(): Read<Option<Bytes>> reads this { tab.StringField(14) }
    function FailedAtUnixMs(): Read<int> reads this { tab.Int64Field(16) }
    function Resolved(): Read<bool> reads this { tab.BoolField(18) }
    function ResolvedAt(): Read<Option<Bytes>> reads this { tab.StringField(20) }
    function ResolvedAtUnixMs(): Read<int> reads this { tab.Int64Field(22) }

    /** Every accessor gives what the entry `e` has: absent fields are absent, elided ones have their default. */
    ghost predicate Shows(e: Entry)
      reads this
    {
      && Id() == Val(Some(e.id))
      && PackageId() == Val(e.packageId)
      && Payload() == Val(Some(e.payload))
      && ErrorCode() == Val(e.errorCode)
      && ErrorMessage() == Val(e.errorMessage)
      && FailedAt() == Val(Some(e.failedAt.text))
      && FailedAtUnixMs() == Val(UnixMs(e.failedAt))
      && Resolved() == Val(e.resolved)
      && (e.resolvedAt.None? ==> ResolvedAt() == Val(None) && ResolvedAtUnixMs() == Val(0))
      && (e.resolvedAt.Some? ==> ResolvedAt() == Val(Some(e.resolvedAt.value.text))
                                 && ResolvedAtUnixMs() == Val(UnixMs(e.resolvedAt.value)))
    }
  }

  function EntriesLength(list: Table): Read<nat> {
    var o :- list.Offset(4);
    if o == 0 then Val(0) else list.VectorLen(o)
  }

  /** The table of entry `j`, or nothing if the list has no vector. */
  function EntryAt(list: Table, j: nat): Read<Option<Table>> {
    var o :- list.Offset(4);
    if o == 0 then
      Val(None)
    else
      var x :- list.Vector(o);
      var pos :- list.Indirect(x + j * 4);
      Val(Some(Table(list.bytes, pos)))
  }

  /** `Entries`: points `obj` at entry `j`. */
  method EntryOf(list: Table, obj: DLQEntry, j: nat) returns (found: Read<bool>)
    modifies obj
    ensures match EntryAt(list, j)
            case Panic => found == Panic && obj.tab == old(obj.tab)
            case Val(None) => found == Val(false) && obj.tab == old(obj.tab)
            case Val(Some(t)) => found == Val(true) && obj.tab == t
  {
    var t := EntryAt(list, j);
    if t.Panic? {
      return Panic;
    }
    if t.value.None? {
      return Val(false);
    }
    obj.Init(t.value.value);
    found := Val(true);
  }

  // ----- From slots to accessors

  /** What the accessor for slot `k` gives for field `f`. */
  ghost predicate Shown(t: Table, k: nat, f: Field) {
    match f
    case Missing => t.StringField(4 + 2 * k) == Val(None)
    case Ref(target) => t.Offset(4 + 2 * k).Val? && t.Offset(4 + 2 * k).value != 0
    case Text(s) => t.StringField(4 + 2 * k) == Val(Some(s))
    case Int(n) => t.Int64Field(4 + 2 * k) == Val(n)
    case Truth(b) => t.BoolField(4 + 2 * k) == Val(b)
  }

  /** What a reader finds at the vtable offsets of the ten fields. */
  ghost predicate TableShows(t: Table, e: Entry) {
    && t.StringField(4) == Val(Some(e.id))
    && t.StringField(6) == Val(e.packageId)
    && t.StringField(8) == Val(Some(e.payload))
    && t.StringField(10) == Val(e.errorCode)
    && t.StringField(12) == Val(e.errorMessage)
    && t.StringField(14) == Val(Some(e.failedAt.text))
    && t.Int64Field(16) == Val(UnixMs(e.failedAt))
    && t.BoolField(18) == Val(e.resolved)
    && (e.resolvedAt.None? ==> t.StringField(20) == Val(None) && t.Int64Field(22) == Val(0))
    && (e.resolvedAt.Some? ==> t.StringField(20) == Val(Some(e.resolvedAt.value.text))
                               && t.Int64Field(22) == Val(UnixMs(e.resolvedAt.value)))
  }

  /** The same, slot by slot. */
  ghost predicate EntryIs(t: Table, e: Entry) {
    forall k :: 0 <= k < 10 ==> Shown(t, k, Fields(e)[k])
  }

  lemma SlotIsShown(d: Bytes, obj: nat, slots: seq<nat>, k: nat, f: Field)
    requires TableIs(d, obj, slots) && k < |slots| && slots[k] < obj && SlotHolds(d, slots[k], f)
    ensures Shown(TableAt(d, obj), k, f)
  {
    hide Table.Offset, ReadUint32, ReadInt64, ReadBool, Slice;
    var (t, slot) := (TableAt(d, obj), slots[k]);
    assert t.Offset(4 + 2 * k) == Val(FieldOffset(obj, slot));
    assert slot != 0 ==> obj - slot + t.pos == |d| - slot;
    if f.Text? {
      var target: nat :| RefIs(d, slot, target) && StringIs(d, target, f.s);
      assert |d| - slot + (slot - target) == |d| - target;
    }
  }

  lemma EntryIsShown(d: Bytes, obj: nat, slots: seq<nat>, e: Entry)
    requires TableIs(d, obj, slots) && FieldsHold(d, slots, Fields(e)) && forall s <- slots :: s < obj
    ensures EntryIs(TableAt(d, obj), e)
  {
    hide TableIs, SlotHolds, Shown;
    forall k | 0 <= k < 10
      ensures Shown(TableAt(d, obj), k, Fields(e)[k])
    {
      assert slots[k] in slots;
      SlotIsShown(d, obj, slots, k, Fields(e)[k]);
    }
  }

  lemma EntryKept(d: Bytes, e: Bytes, obj: nat, entry: Entry)
    requires Extends(d, e) && obj <= |d| && EntryIs(TableAt(d, obj), entry)
    ensures EntryIs(TableAt(e, obj), entry)
  {
    hide Table.StringField, Table.Int64Field, Table.BoolField;
    var front := SplitFront(d, e);
    assert TableAt(d, obj).Behind(front) == TableAt(e, obj);
    forall k | 0 <= k < 10
      ensures Shown(TableAt(e, obj), k, Fields(entry)[k])
    {
      assert Shown(TableAt(d, obj), k, Fields(entry)[k]);
      assert !Fields(entry)[k].Ref?;
      FieldsBehind(TableAt(d, obj), front, 4 + 2 * k);
    }
  }

  lemma SlotsShow(t: Table, e: Entry)
    requires EntryIs(t, e)
    ensures TableShows(t, e)
  {
    hide Table.StringField, Table.Int64Field, Table.BoolField;
    assert Shown(t, 0, Fields(e)[0]) && Shown(t, 1, Fields(e)[1]) && Shown(t, 2, Fields(e)[2])
        && Shown(t, 3, Fields(e)[3]);
    assert Shown(t, 4, Fields(e)[4]) && Shown(t, 5, Fields(e)[5]) && Shown(t, 6, Fields(e)[6])
        && Shown(t, 7, Fields(e)[7]);
    assert Shown(t, 8, Fields(e)[8]) && Shown(t, 9, Fields(e)[9]);
  }

  /** The accessors of an object pointed at such a table show the entry. */
  lemma PointedObjectShows(obj: DLQEntry, e: Entry)
    requires TableShows(obj.tab, e)
    ensures obj.Shows(e)
  {
    hide Table.StringField, Table.Int64Field, Table.BoolField;
  }

  // ----- The encoder

  /** Where the strings of an entry were written; 0 for one that is absent. */
  datatype Offsets = Offsets(id: nat, packageId: nat, payload: nat, errorCode: nat, errorMessage: nat, failedAt: nat,
      resolvedAt: nat)

  ghost predicate OptionalAt(d: Bytes, off: nat, s: Option<Bytes>) {
    match s
    case None => off == 0
    case Some(t) => 0 < off <= |d| && (|d| <= MAX_SIZE ==> StringIs(d, off, t))
  }

  ghost predicate StringsAt(d: Bytes, o: Offsets, e: Entry) {
    && OptionalAt(d, o.id, Some(e.id))
    && OptionalAt(d, o.packageId, e.packageId)
    && OptionalAt(d, o.payload, Some(e.payload))
    && OptionalAt(d, o.errorCode, e.errorCode)
    && OptionalAt(d, o.errorMessage, e.errorMessage)
    && OptionalAt(d, o.failedAt, Some(e.failedAt.text))
    && OptionalAt(d, o.resolvedAt, if e.resolvedAt.Some? then Some(e.resolvedAt.value.text) else None)
  }

  lemma OptionalKept(d: Bytes, e: Bytes, off: nat, s: Option<Bytes>)
    requires Extends(d, e) && OptionalAt(d, off, s)
    ensures OptionalAt(e, off, s)
  {
    if s.Some? && |e| <= MAX_SIZE {
      StringKept(d, e, off, s.value);
    }
  }

  function Length(s: Option<Bytes>): nat {
    match s
    case None => 0
    case Some(t) => |t| + 8
  }

  /** Room for the strings of an entry, and for the whole entry. */
  function StringsSize(e: Entry): nat {
    Length(Some(e.id)) + Length(e.packageId) + Length(Some(e.payload)) + Length(e.errorCode) + Length(e.errorMessage)
        + Length(Some(e.failedAt.text)) + Length(TimeText(e.resolvedAt))
  }

  function EntrySize(e: Entry): nat {
    StringsSize(e) + 120
  }

  /** A string that may be absent. */
  method CreateOptional(b: Builder, s: Option<Bytes>) returns (off: nat)
    requires b.Valid()
    modifies b`data, b`minalign
    ensures b.Valid() && Extends(old(b.data), b.data) && OptionalAt(b.data, off, s)
    ensures |b.data| <= |old(b.data)| + Length(s)
  {
    off := 0;
    if s.Some? {
      off := b.CreateString(s.value);
    }
  }

  method CreateStrings(b: Builder, e: Entry) returns (o: Offsets)
    requires b.Valid()
    modifies b`data, b`minalign
    ensures b.Valid() && Extends(old(b.data), b.data) && StringsAt(b.data, o, e)
    ensures |b.data| <= |old(b.data)| + StringsSize(e)
  {
    hide OptionalAt, Extends, Builder.Valid, Length;
    ghost var d0 := b.data;
    var idOff := CreateOptional(b, Some(e.id));
    ghost var d1 := b.data;
    var pkgIDOff := CreateOptional(b, e.packageId);
    ghost var d2 := b.data;
    OptionalKept(d1, d2, idOff, Some(e.id));
    var payloadOff := CreateOptional(b, Some(e.payload));
    ghost var d3 := b.data;
    OptionalKept(d2, d3, idOff, Some(e.id));
    OptionalKept(d2, d3, pkgIDOff, e.packageId);
    var errCodeOff := CreateOptional(b, e.errorCode);
    ghost var d4 := b.data;
    ExtendsTransitive(d2, d3, d4);
    ExtendsTransitive(d0, d1, d2);
    ExtendsTransitive(d0, d2, d4);
    OptionalKept(d3, d4, idOff, Some(e.id));
    OptionalKept(d2, d4, pkgIDOff, e.packageId);
    OptionalKept(d3, d4, payloadOff, Some(e.payload));
    var errMsgOff := CreateOptional(b, e.errorMessage);
    ghost var d5 := b.data;
    var failedAtOff := CreateOptional(b, Some(e.failedAt.text));
    ghost var d6 := b.data;
    var resolvedAtOff := CreateOptional(b, TimeText(e.resolvedAt));
    ghost var d7 := b.data;
    ExtendsTransitive(d4, d5, d6);
    ExtendsTransitive(d4, d6, d7);
    ExtendsTransitive(d5, d6, d7);
    ExtendsTransitive(d0, d4, d7);
    OptionalKept(d4, d7, idOff, Some(e.id));
    OptionalKept(d4, d7, pkgIDOff, e.packageId);
    OptionalKept(d4, d7, payloadOff, Some(e.payload));
    OptionalKept(d4, d7, errCodeOff, e.errorCode);
    OptionalKept(d5, d7, errMsgOff, e.errorMessage);
    OptionalKept(d6, d7, failedAtOff, Some(e.failedAt.text));
    o := Offsets(idOff, pkgIDOff, payloadOff, errCodeOff, errMsgOff, failedAtOff, resolvedAtOff);
  }

  /** Slot `k`, if there is a string for it. */
  method AddOptional(b: Builder, k: nat, off: nat, s: Option<Bytes>, ghost base: Bytes, ghost fields: seq<Field>)
    requires b.Valid() && b.Building(fields) && k < |fields| && fields[k] == Missing
    requires |base| == b.objectEnd && Extends(base, b.data) && OptionalAt(base, off, s)
    modifies b`data, b`minalign, b`slots
    ensures b.Valid() && b.Building(fields[k := TextOf(s)]) && Extends(base, b.data)
    ensures |b.data| <= |old(b.data)| + 7
  {
    OptionalKept(base, b.data, off, s);
    if off > 0 {
      b.PrependUOffsetSlot(k, off, fields, TextOf(s));
      ExtendsTransitive(base, old(b.data), b.data);
    } else {
      assert fields[k := TextOf(s)] == fields;
    }
  }

  /** The fields of a table no slot of which has been written. */
  function NoFields(): (r: seq<Field>)
    ensures |r| == 10
  {
    [Missing, Missing, Missing, Missing, Missing, Missing, Int(0), Truth(false), Missing, Int(0)]
  }

  lemma NothingBuilt(b: Builder)
    requires b.objectEnd == |b.data|
    ensures b.slots == NoSlots(10) ==> b.Building(NoFields())
    ensures b.slots == NoSlots(1) ==> b.Building([Missing])
  {
  }

  /** The first `i` fields of an entry, and nothing in the slots behind them. */
  function Upto(e: Entry, i: nat): (r: seq<Field>)
    requires i <= 10
    ensures |r| == 10
  {
    Fields(e)[..i] + NoFields()[i..]
  }

  lemma UptoNext(e: Entry, i: nat)
    requires i < 10
    ensures Upto(e, i)[i := Fields(e)[i]] == Upto(e, i + 1)
    ensures Upto(e, i)[i] == (if i == 7 then Truth(false) else if i == 6 || i == 9 then Int(0) else Missing)
  {
  }

  lemma FieldsOf(e: Entry)
    ensures var f := Fields(e);
            && f[0] == TextOf(Some(e.id)) && f[1] == TextOf(e.packageId) && f[2] == TextOf(Some(e.payload))
            && f[3] == TextOf(e.errorCode) && f[4] == TextOf(e.errorMessage) && f[5] == TextOf(Some(e.failedAt.text))
            && f[6] == Int(UnixMs(e.failedAt)) && f[7] == Truth(e.resolved) && f[8] == TextOf(TimeText(e.resolvedAt))
            && (e.resolvedAt.Some? ==> f[9] == Int(UnixMs(e.resolvedAt.value)))
  {
  }

  lemma UptoEnds(e: Entry)
    ensures Upto(e, 0) == NoFields() && Upto(e, 10) == Fields(e)
    ensures e.resolvedAt.None? ==> Upto(e, 9) == Upto(e, 10)
  {
    assert e.resolvedAt.None? ==> Fields(e)[9] == NoFields()[9];
  }

  method AddNames(b: Builder, o: Offsets, e: Entry, ghost base: Bytes)
    requires b.Valid() && b.Building(Upto(e, 0)) && Extends(base, b.data)
    requires b.objectEnd == |base| && StringsAt(base, o, e)
    modifies b`data, b`minalign, b`slots
    ensures b.Valid() && b.Building(Upto(e, 3)) && Extends(base, b.data) && |b.data| <= |old(b.data)| + 21
  {
    FieldsOf(e);
    hide OptionalAt, Builder.Building, Extends, Fields, Upto, NoFields, TextOf, TimeText, Builder.Valid, UnixMs;
    UptoNext(e, 0);
    AddOptional(b, 0, o.id, Some(e.id), base, Upto(e, 0));
    UptoNext(e, 1);
    AddOptional(b, 1, o.packageId, e.packageId, base, Upto(e, 1));
    UptoNext(e, 2);
    AddOptional(b, 2, o.payload, Some(e.payload), base, Upto(e, 2));
  }

  method AddErrors(b: Builder, o: Offsets, e: Entry, ghost base: Bytes)
    requires b.Valid() && b.Building(Upto(e, 3)) && Extends(base, b.data)
    requires b.objectEnd == |base| && StringsAt(base, o, e)
    modifies b`data, b`minalign, b`slots
    ensures b.Valid() && b.Building(Upto(e, 6)) && Extends(base, b.data) && |b.data| <= |old(b.data)| + 21
  {
    FieldsOf(e);
    hide OptionalAt, Builder.Building, Extends, Fields, Upto, NoFields, TextOf, TimeText, Builder.Valid, UnixMs;
    UptoNext(e, 3);
    AddOptional(b, 3, o.errorCode, e.errorCode, base, Upto(e, 3));
    UptoNext(e, 4);
    AddOptional(b, 4, o.errorMessage, e.errorMessage, base, Upto(e, 4));
    UptoNext(e, 5);
    AddOptional(b, 5, o.failedAt, Some(e.failedAt.text), base, Upto(e, 5));
  }

  method AddTimes(b: Builder, o: Offsets, e: Entry, ghost base: Bytes)
    requires b.Valid() && b.Building(Upto(e, 6))
    requires b.objectEnd == |base| && Extends(base, b.data) && StringsAt(base, o, e)
    modifies b`data, b`minalign, b`slots
    ensures b.Valid() && b.Building(Upto(e, 10)) && Extends(base, b.data) && |b.data| <= |old(b.data)| + 38
  {
    FieldsOf(e);
    hide OptionalAt, Builder.Building, Extends, UnixMs, Fields, Upto, NoFields, TextOf, Builder.Valid;
    ghost var d0 := b.data;
    UptoNext(e, 6);
    b.PrependInt64Slot(6, UnixMs(e.failedAt), Upto(e, 6));
    ExtendsTransitive(base, d0, b.data);
    ghost var d1 := b.data;
    UptoNext(e, 7);
    b.PrependBoolSlot(7, e.resolved, Upto(e, 7));
    ExtendsTransitive(base, d1, b.data);
    UptoNext(e, 8);
    AddOptional(b, 8, o.resolvedAt, TimeText(e.resolvedAt), base, Upto(e, 8));
    UptoNext(e, 9);
    UptoEnds(e);
    if e.resolvedAt.Some? {
      ghost var d2 := b.data;
      b.PrependInt64Slot(9, UnixMs(e.resolvedAt.value), Upto(e, 9));
      ExtendsTransitive(base, d2, b.data);
    }
  }

  /** One turn of the encoder's loop. */
  method EncodeEntry(b: Builder, e: Entry) returns (off: nat)
    requires b.Valid()
    modifies b
    ensures b.Valid() && Extends(old(b.data), b.data) && 0 < off <= |b.data|
    ensures |b.data| <= |old(b.data)| + EntrySize(e)
    ensures |b.data| <= MAX_SIZE ==> EntryIs(TableAt(b.data, off), e) && TableShows(TableAt(b.data, off), e)
  {
    hide Extends, TableIs, EntryIs, StringsAt, Fields, Upto, TableShows;
    UptoEnds(e);
    ghost var before := b.data;
    var o := CreateStrings(b, e);
    ghost var base := b.data;
    b.StartObject(10);
    NothingBuilt(b);
    InFront([], base);
    assert [] + base == base;
    AddNames(b, o, e, base);
    AddErrors(b, o, e, base);
    AddTimes(b, o, e, base);
    ghost var (built, slots) := (b.data, b.slots);
    off := b.EndObject();
    ExtendsTransitive(before, base, built);
    ExtendsTransitive(before, built, b.data);
    if |b.data| <= MAX_SIZE {
      FieldsKept(built, b.data, slots, Fields(e));
      EntryIsShown(b.data, off, slots, e);
      SlotsShow(TableAt(b.data, off), e);
    }
  }

  // ----- The list

  function ListSize(entries: seq<Entry>): nat {
    if entries == [] then 0 else ListSize(entries[..|entries| - 1]) + EntrySize(entries[|entries| - 1])
  }

  /** Room for the entries, their references, and the list around them. */
  function EncodedSize(entries: seq<Entry>): nat {
    ListSize(entries) + 4 * |entries| + 60
  }

  function OptionalLength(s: Option<Bytes>): nat {
    match s
    case None => 0
    case Some(t) => |t|
  }

  /** The bytes of all texts of an entry. */
  function TextSize(e: Entry): nat {
    |e.id| + OptionalLength(e.packageId) + |e.payload| + OptionalLength(e.errorCode) + OptionalLength(e.errorMessage)
        + |e.failedAt.text| + match e.resolvedAt case None => 0 case Some(t) => |t.text|
  }

  lemma SizeOfTexts(e: Entry)
    ensures EntrySize(e) <= TextSize(e) + 176
  {
  }

  lemma {:induction false} ListSizeBound(entries: seq<Entry>)
    requires forall e <- entries :: TextSize(e) <= 10_000_000
    ensures ListSize(entries) <= |entries| * 10_000_176
  {
    if entries != [] {
      var n := |entries| - 1;
      assert entries[n] in entries && forall e <- entries[..n] :: e in entries;
      ListSizeBound(entries[..n]);
      SizeOfTexts(entries[n]);
      hide TextSize, EntrySize;
    }
  }

  /** The handler fetches at most 100 entries (internal/http/server_bin.go:43). */
  lemma PageFits(entries: seq<Entry>)
    ensures |entries| <= 100 && (forall e <- entries :: TextSize(e) <= 10_000_000) ==>
              EncodedSize(entries) <= 0x4000_0000
  {
    if forall e <- entries :: TextSize(e) <= 10_000_000 {
      ListSizeBound(entries);
    }
    hide TextSize, ListSize;
  }

  /** Every offset leads to the table of its entry. */
  ghost predicate EntriesAt(d: Bytes, offsets: seq<nat>, entries: seq<Entry>) {
    && |offsets| == |entries|
    && forall i :: 0 <= i < |offsets| ==>
        0 < offsets[i] <= |d| && (|d| <= MAX_SIZE ==> EntryIs(TableAt(d, offsets[i]), entries[i]))
  }

  lemma EntriesKept(d: Bytes, e: Bytes, offsets: seq<nat>, entries: seq<Entry>)
    requires Extends(d, e) && EntriesAt(d, offsets, entries)
    ensures EntriesAt(e, offsets, entries)
  {
    hide EntryIs;
    forall i | 0 <= i < |offsets|
      ensures 0 < offsets[i] <= |e| && (|e| <= MAX_SIZE ==> EntryIs(TableAt(e, offsets[i]), entries[i]))
    {
      if |e| <= MAX_SIZE {
        EntryKept(d, e, offsets[i], entries[i]);
      }
    }
  }

  method EncodeEntries(b: Builder, entries: seq<Entry>) returns (offsets: seq<nat>)
    requires b.Valid() && b.data == []
    modifies b
    ensures b.Valid() && EntriesAt(b.data, offsets, entries) && |b.data| <= ListSize(entries)
  {
    hide EntryIs, TableShows, Extends;
    offsets := [];
    for i := 0 to |entries|
      invariant b.Valid() && EntriesAt(b.data, offsets, entries[..i]) && |b.data| <= ListSize(entries[..i])
    {
      ghost var before := b.data;
      var off := EncodeEntry(b, entries[i]);
      EntriesKept(before, b.data, offsets, entries[..i]);
      assert entries[..i + 1][..i] == entries[..i];
      offsets := offsets + [off];
    }
    assert entries[..|entries|] == entries;
  }

  /** A vector of references at `vec`. */
  ghost predicate VectorIs(d: Bytes, vec: nat, targets: seq<nat>) {
    && Uint32Is(d, vec, |targets|)
    && 4 + 4 * |targets| <= vec
    && forall j :: 0 <= j < |targets| ==> RefIs(d, vec - 4 - 4 * j, targets[j])
  }

  lemma VectorKept(d: Bytes, e: Bytes, vec: nat, targets: seq<nat>)
    requires Extends(d, e) && VectorIs(d, vec, targets)
    ensures VectorIs(e, vec, targets)
  {
    hide Uint32Is, RefIs, Extends;
    NumbersKept(d, e, vec);
    forall j | 0 <= j < |targets|
      ensures RefIs(e, vec - 4 - 4 * j, targets[j])
    {
      NumbersKept(d, e, vec - 4 - 4 * j);
    }
  }

  /** The references, prepended last first, then the length. */
  method EncodeVector(b: Builder, offsets: seq<nat>) returns (vec: nat)
    requires b.Valid() && forall o <- offsets :: o <= |b.data|
    modifies b`data, b`minalign
    ensures b.Valid() && Extends(old(b.data), b.data) && 0 < vec == |b.data| <= |old(b.data)| + 4 * |offsets| + 10
    ensures |b.data| <= MAX_SIZE ==> VectorIs(b.data, vec, offsets)
  {
    hide Uint32Is, RefIs, Extends;
    b.StartVector(|offsets|);
    ghost var base := |b.data|;
    ghost var n := |offsets|;
    var i := |offsets|;
    while i > 0
      invariant 0 <= i <= n && b.Valid() && Extends(old(b.data), b.data)
      invariant |b.data| == base + 4 * (n - i) && |b.data| % 4 == 0
      invariant |b.data| <= MAX_SIZE ==> forall j :: i <= j < n ==> RefIs(b.data, base + 4 * (n - j), offsets[j])
    {
      i := i - 1;
      ghost var before := b.data;
      assert offsets[i] in offsets;
      LongEnough(old(b.data), before);
      b.PrependUOffset(offsets[i]);
      ExtendsTransitive(old(b.data), before, b.data);
      forall j | i <= j < n
        ensures |b.data| <= MAX_SIZE ==> RefIs(b.data, base + 4 * (n - j), offsets[j])
      {
        NumbersKept(before, b.data, base + 4 * (n - j));
      }
    }
    ghost var before := b.data;
    vec := b.EndVector(|offsets|);
    ExtendsTransitive(old(b.data), before, b.data);
    forall j | 0 <= j < n
      ensures |b.data| <= MAX_SIZE ==> RefIs(b.data, vec - 4 - 4 * j, offsets[j])
    {
      NumbersKept(before, b.data, base + 4 * (n - j));
      assert vec - 4 - 4 * j == base + 4 * (n - j);
    }
  }

  lemma LongEnough(d: Bytes, e: Bytes)
    requires Extends(d, e)
    ensures |d| <= |e|
  {
  }

  /** The root table with its single slot, and the reference to it in front. */
  ghost predicate RootIs(d: Bytes, root: nat, slot: nat, vec: nat) {
    0 < slot < root && RefIs(d, |d|, root) && TableIs(d, root, [slot]) && RefIs(d, slot, vec)
  }

  method EncodeRoot(b: Builder, vec: nat) returns (ghost root: nat, ghost slot: nat)
    requires b.Valid() && vec == |b.data| > 0
    modifies b
    ensures b.Valid() && Extends(old(b.data), b.data) && |b.data| <= |old(b.data)| + 34
    ensures |b.data| <= MAX_SIZE ==> RootIs(b.data, root, slot, vec)
  {
    hide TableIs, RefIs, Extends;
    ghost var d0 := b.data;
    b.StartObject(1);
    NothingBuilt(b);
    b.PrependUOffsetSlot(0, vec, [Missing], Ref(vec));
    ghost var d1 := b.data;
    slot := b.slots[0];
    assert b.slots == [slot];
    var rootOff := b.EndObject();
    root := rootOff;
    ghost var d2 := b.data;
    b.Finish(rootOff);
    ExtendsTransitive(d0, d1, d2);
    ExtendsTransitive(d0, d2, b.data);
    ExtendsLength(d2, b.data);
    if |b.data| <= MAX_SIZE {
      TableKept(d2, b.data, root, [slot]);
      ExtendsTransitive(d1, d2, b.data);
      NumbersKept(d1, b.data, slot);
    }
  }

  /** Reading the finished buffer by index gives the entries in their order. */
  ghost predicate ListReads(buf: Bytes, entries: seq<Entry>) {
    && GetRoot(buf).Val?
    && var list := GetRoot(buf).value;
       && EntriesLength(list) == Val(|entries|)
       && forall j :: 0 <= j < |entries| ==>
           EntryAt(list, j).Val? && EntryAt(list, j).value.Some?
               && TableShows(EntryAt(list, j).value.value, entries[j])
  }

  /** The accessors of the list find the vector through the root. */
  lemma RootLeadsToVector(d: Bytes, root: nat, slot: nat, vec: nat, n: nat)
    requires RootIs(d, root, slot, vec) && Uint32Is(d, vec, n)
    ensures GetRoot(d) == Val(TableAt(d, root))
    ensures EntriesLength(TableAt(d, root)) == Val(n)
    ensures TableAt(d, root).Offset(4).Val? && TableAt(d, root).Offset(4).value != 0
    ensures TableAt(d, root).Vector(TableAt(d, root).Offset(4).value) == Val(|d| - vec + 4)
  {
    hide Table.Offset, ReadUint32;
    var list := TableAt(d, root);
    assert list.Offset(4 + 2 * 0) == Val(FieldOffset(root, [slot][0]));
    assert list.pos + (root - slot) == |d| - slot;
    assert |d| - slot + (slot - vec) == |d| - vec;
  }

  lemma VectorRef(d: Bytes, vec: nat, targets: seq<nat>, j: nat)
    requires VectorIs(d, vec, targets) && j < |targets|
    ensures Uint32Is(d, vec, |targets|) && 4 + 4 * j <= vec <= |d| && RefIs(d, vec - 4 - 4 * j, targets[j])
  {
    hide ReadUint32, RefIs;
  }

  lemma VectorLeadsToEntry(d: Bytes, root: nat, slot: nat, vec: nat, targets: seq<nat>, j: nat)
    requires RootIs(d, root, slot, vec) && VectorIs(d, vec, targets) && j < |targets|
    ensures EntryAt(TableAt(d, root), j) == Val(Some(TableAt(d, targets[j])))
  {
    hide RootIs, VectorIs, RefIs, Uint32Is, Table.Offset, Table.Vector, Table.Indirect;
    VectorRef(d, vec, targets, j);
    RootLeadsToVector(d, root, slot, vec, |targets|);
    var at := vec - 4 - 4 * j;
    RefIsFollowed(d, root, at, targets[j]);
    assert |d| - vec + 4 + j * 4 == |d| - at;
  }

  lemma RefIsFollowed(d: Bytes, root: nat, at: nat, target: nat)
    requires RefIs(d, at, target)
    ensures TableAt(d, root).Indirect(|d| - at) == Val(|d| - target)
  {
    assert |d| - at + (at - target) == |d| - target;
  }

  lemma ListIsRead(d: Bytes, root: nat, slot: nat, vec: nat, offsets: seq<nat>, entries: seq<Entry>)
    requires |d| <= MAX_SIZE && RootIs(d, root, slot, vec) && VectorIs(d, vec, offsets)
             && EntriesAt(d, offsets, entries)
    ensures ListReads(d, entries)
  {
    RootLeadsToVector(d, root, slot, vec, |offsets|);
    hide RootIs, VectorIs, EntryIs, EntryAt, EntriesLength, GetRoot, TableShows;
    forall j | 0 <= j < |entries|
      ensures EntryAt(TableAt(d, root), j) == Val(Some(TableAt(d, offsets[j])))
      ensures TableShows(TableAt(d, offsets[j]), entries[j])
    {
      VectorLeadsToEntry(d, root, slot, vec, offsets, j);
      SlotsShow(TableAt(d, offsets[j]), entries[j]);
    }
  }

  /** The body of `handleDLQBin`; `None` is the builder's panic when it outgrows its buffer. */
  method EncodeList(entries: seq<Entry>) returns (buf: Option<Bytes>)
    ensures buf.Some? ==> ListReads(buf.value, entries)
    ensures EncodedSize(entries) <= 0x4000_0000 ==> buf.Some?
    ensures |entries| <= 100 && (forall e <- entries :: TextSize(e) <= 10_000_000) ==> buf.Some?
  {
    PageFits(entries);
    hide EntriesAt, ListReads, EntryIs, VectorIs, RootIs, Extends, ListSize;
    var b := new Builder();
    var offsets := EncodeEntries(b, entries);
    ghost var d0 := b.data;
    OffsetsInside(d0, offsets, entries);
    var vec := EncodeVector(b, offsets);
    ghost var d1 := b.data;
    ghost var root, slot := EncodeRoot(b, vec);
    ghost var d2 := b.data;
    if |b.data| > MAX_SIZE {
      return None;
    }
    buf := Some(b.data);
    ExtendsTransitive(d0, d1, d2);
    LongEnough(d1, d2);
    EntriesKept(d0, d2, offsets, entries);
    VectorKept(d1, d2, vec, offsets);
    ListIsRead(d2, root, slot, vec, offsets, entries);
  }

  lemma OffsetsInside(d: Bytes, offsets: seq<nat>, entries: seq<Entry>)
    requires EntriesAt(d, offsets, entries)
    ensures |offsets| == |entries| && forall o <- offsets :: o <= |d|
  {
  }

  /** Reading by index: a fresh accessor object pointed at entry `j` shows entry `j` of what was encoded. */
  method ReadEntry(buf: Bytes, j: nat, ghost entries: seq<Entry>) returns (entry: DLQEntry)
    requires ListReads(buf, entries) && j < |entries|
    ensures fresh(entry) && entry.Shows(entries[j])
  {
    hide TableShows, EntryAt, GetRoot, EntriesLength;
    entry := new DLQEntry();
    var list := GetRoot(buf);
    var found := EntryOf(list.value, entry, j);
    PointedObjectShows(entry, entries[j]);
  }

  /** A buffer shows at most one list: what was encoded can be recovered, times up to the millisecond. */
  lemma ListIsRecovered(buf: Bytes, a: seq<Entry>, b: seq<Entry>)
    requires ListReads(buf, a) && ListReads(buf, b)
    ensures |a| == |b|
    ensures forall j :: 0 <= j < |a| ==>
              && a[j].id == b[j].id && a[j].packageId == b[j].packageId && a[j].payload == b[j].payload
              && a[j].errorCode == b[j].errorCode && a[j].errorMessage == b[j].errorMessage
              && a[j].failedAt.text == b[j].failedAt.text && UnixMs(a[j].failedAt) == UnixMs(b[j].failedAt)
              && a[j].resolved == b[j].resolved
              && (a[j].resolvedAt.Some? <==> b[j].resolvedAt.Some?)
              && (a[j].resolvedAt.Some? ==>
                    && a[j].resolvedAt.value.text == b[j].resolvedAt.value.text
                    && UnixMs(a[j].resolvedAt.value) == UnixMs(b[j].resolvedAt.value))
  {
    hide EntryAt, GetRoot, EntriesLength, Table.StringField, Table.Int64Field, Table.BoolField;
    forall j | 0 <= j < |a|
      ensures TableShows(EntryAt(GetRoot(buf).value, j).value.value, a[j])
      ensures TableShows(EntryAt(GetRoot(buf).value, j).value.value, b[j])
    {}
  }
}
