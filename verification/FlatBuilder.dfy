/**
 The FlatBuffers builder: a buffer that grows downwards. `data` holds the bytes written so far, the last written
 first; a place in it is named by its distance from the end, which later writes in front do not change.
 */
module FlatBuilder {
  import opened Base
  import opened FlatTable

  /** The builder doubles its buffer up to this size and panics when it needs more. */
  const MAX_SIZE: nat := 0x4000_0000

  // ----- What is stored at a distance `o` from the end

  ghost predicate Uint32Is(d: Bytes, o: nat, v: nat) {
    o <= |d| && ReadUint32(d, |d| - o) == Val(v)
  }

  ghost predicate Int64Is(d: Bytes, o: nat, v: int) {
    o <= |d| && ReadInt64(d, |d| - o) == Val(v)
  }

  ghost predicate BoolIs(d: Bytes, o: nat, v: bool) {
    o <= |d| && ReadBool(d, |d| - o) == Val(v)
  }

  /** A relative reference at `o` to the thing at `target`. */
  ghost predicate RefIs(d: Bytes, o: nat, target: nat) {
    target < o && Uint32Is(d, o, o - target)
  }

  ghost predicate StringIs(d: Bytes, o: nat, s: Bytes) {
    Uint32Is(d, o, |s|) && Slice(d, |d| - o + 4, |s|) == Val(s)
  }

  ghost predicate Uint16Is(d: Bytes, o: nat, ahead: nat, v: nat) {
    o <= |d| && ReadUint16(d, |d| - o + ahead) == Val(v)
  }

  /** A vtable with the field offsets `xs`. */
  ghost predicate VtableIs(d: Bytes, o: nat, xs: seq<nat>) {
    && Uint16Is(d, o, 0, 4 + 2 * |xs|)
    && forall k :: 0 <= k < |xs| ==> Uint16Is(d, o, 4 + 2 * k, xs[k])
  }

  function TableAt(d: Bytes, obj: nat): Table {
    Table(d, |d| - obj)
  }

  /** Where a reader finds a slot that was written at distance `slot`, 0 if it was not written. */
  function FieldOffset(obj: nat, slot: nat): nat
    requires slot <= obj
  {
    if slot == 0 then 0 else obj - slot
  }

  /** A finished table whose slots lead to where its fields were written. */
  ghost predicate TableIs(d: Bytes, obj: nat, slots: seq<nat>) {
    && obj <= |d|
    && forall k :: 0 <= k < |slots| ==>
        slots[k] <= obj && TableAt(d, obj).Offset(4 + 2 * k) == Val(FieldOffset(obj, slots[k]))
  }

  // ----- Writing in front keeps it

  ghost predicate Extends(d: Bytes, e: Bytes) {
    |d| <= |e| && e[|e| - |d|..] == d
  }

  lemma ExtendsTransitive(d: Bytes, e: Bytes, f: Bytes)
    requires Extends(d, e) && Extends(e, f)
    ensures Extends(d, f)
  {
    assert f[|f| - |d|..] == f[|f| - |e|..][|e| - |d|..];
  }

  lemma ExtendsLength(d: Bytes, e: Bytes)
    requires Extends(d, e)
    ensures |d| <= |e|
  {
  }

  lemma InFront(front: Bytes, d: Bytes)
    ensures Extends(d, front + d)
  {
  }

  lemma SplitFront(d: Bytes, e: Bytes) returns (front: Bytes)
    requires Extends(d, e)
    ensures e == front + d
  {
    front := e[..|e| - |d|];
  }

  lemma NumbersKept(d: Bytes, e: Bytes, o: nat)
    requires Extends(d, e)
    ensures forall v :: Uint32Is(d, o, v) ==> Uint32Is(e, o, v)
    ensures forall v :: Int64Is(d, o, v) ==> Int64Is(e, o, v)
    ensures forall v :: BoolIs(d, o, v) ==> BoolIs(e, o, v)
    ensures forall target :: RefIs(d, o, target) ==> RefIs(e, o, target)
  {
    hide ReadUint32, ReadInt64, ReadBool;
    var front := SplitFront(d, e);
    if o <= |d| {
      NumbersBehind(d, front, |d| - o);
      assert |front| + (|d| - o) == |e| - o;
    }
  }

  lemma StringKept(d: Bytes, e: Bytes, o: nat, s: Bytes)
    requires Extends(d, e) && StringIs(d, o, s)
    ensures StringIs(e, o, s)
  {
    hide ReadUint32, Slice;
    NumbersKept(d, e, o);
    var front := SplitFront(d, e);
    SliceBehind(d, front, |d| - o + 4, |s|);
    assert |front| + (|d| - o + 4) == |e| - o + 4;
  }

  lemma VtableKept(d: Bytes, e: Bytes, o: nat, xs: seq<nat>)
    requires Extends(d, e) && VtableIs(d, o, xs)
    ensures VtableIs(e, o, xs)
  {
    hide ReadUint16;
    var front := SplitFront(d, e);
    assert |front| + (|d| - o) == |e| - o;
    NumbersBehind(d, front, |d| - o + 0);
    forall k | 0 <= k < |xs|
      ensures Uint16Is(e, o, 4 + 2 * k, xs[k])
    {
      assert Uint16Is(d, o, 4 + 2 * k, xs[k]);
      NumbersBehind(d, front, |d| - o + (4 + 2 * k));
      assert |front| + (|d| - o + (4 + 2 * k)) == |e| - o + (4 + 2 * k);
    }
  }

  lemma TableKept(d: Bytes, e: Bytes, obj: nat, slots: seq<nat>)
    requires Extends(d, e) && TableIs(d, obj, slots)
    ensures TableIs(e, obj, slots)
  {
    hide Table.Offset;
    var front := SplitFront(d, e);
    assert TableAt(d, obj).Behind(front) == TableAt(e, obj);
    forall k | 0 <= k < |slots|
      ensures TableAt(e, obj).Offset(4 + 2 * k) == Val(FieldOffset(obj, slots[k]))
    {
      assert TableAt(d, obj).Offset(4 + 2 * k) == Val(FieldOffset(obj, slots[k]));
      OffsetBehind(TableAt(d, obj), front, 4 + 2 * k);
    }
  }

  // ----- Fields of a table under construction

  datatype Field = Missing | Ref(target: nat) | Text(s: Bytes) | Int(n: int) | Truth(b: bool)

  /** The slot at distance `slot` holds what a reader has to see as `f`. */
  ghost predicate SlotHolds(d: Bytes, slot: nat, f: Field) {
    match f
    case Missing => slot == 0
    case Ref(target) => slot != 0 && RefIs(d, slot, target)
    case Text(s) => slot != 0 && exists target: nat :: RefIs(d, slot, target) && StringIs(d, target, s)
    case Int(n) => if slot == 0 then n == 0 else Int64Is(d, slot, n)
    case Truth(b) => if slot == 0 then !b else BoolIs(d, slot, b)
  }

  lemma SlotKept(d: Bytes, e: Bytes, slot: nat, f: Field)
    requires Extends(d, e) && SlotHolds(d, slot, f)
    ensures SlotHolds(e, slot, f)
  {
    hide Int64Is, BoolIs, RefIs, StringIs;
    NumbersKept(d, e, slot);
    if f.Text? {
      var target: nat :| RefIs(d, slot, target) && StringIs(d, target, f.s);
      StringKept(d, e, target, f.s);
    }
  }

  ghost predicate FieldsHold(d: Bytes, slots: seq<nat>, fields: seq<Field>) {
    |slots| == |fields| && forall k :: 0 <= k < |slots| ==> slots[k] <= |d| && SlotHolds(d, slots[k], fields[k])
  }

  lemma FieldsKept(d: Bytes, e: Bytes, slots: seq<nat>, fields: seq<Field>)
    requires Extends(d, e) && FieldsHold(d, slots, fields)
    ensures FieldsHold(e, slots, fields)
  {
    hide SlotHolds;
    forall k | 0 <= k < |slots|
      ensures SlotHolds(e, slots[k], fields[k])
    {
      SlotKept(d, e, slots[k], fields[k]);
    }
  }

  // ----- Vtable bytes

  /** The field offsets of a vtable, in its order. */
  function Entries(xs: seq<nat>): Bytes {
    if xs == [] then [] else Uint16(xs[0]) + Entries(xs[1..])
  }

  lemma {:induction false} EntriesLength(xs: seq<nat>)
    ensures |Entries(xs)| == 2 * |xs|
  {
    if xs != [] {
      EntriesLength(xs[1..]);
    }
  }

  lemma {:induction false} EntryReadsBack(pre: Bytes, xs: seq<nat>, post: Bytes, k: nat)
    requires k < |xs| && xs[k] < 65536
    ensures ReadUint16(pre + Entries(xs) + post, |pre| + 2 * k) == Val(xs[k])
    decreases k
  {
    hide ReadUint16, Uint16;
    var rest := Entries(xs[1..]);
    if k == 0 {
      ReadsBack(pre, rest + post, xs[0]);
      assert pre + Uint16(xs[0]) + (rest + post) == pre + Entries(xs) + post;
    } else {
      EntryReadsBack(pre + Uint16(xs[0]), xs[1..], post, k - 1);
      assert pre + Uint16(xs[0]) + rest + post == pre + Entries(xs) + post;
      assert |pre + Uint16(xs[0])| + 2 * (k - 1) == |pre| + 2 * k;
    }
  }

  /** What the builder writes in front of a table. */
  function VtableBytes(xs: seq<nat>, objectSize: nat): Bytes {
    Uint16(4 + 2 * |xs|) + Uint16(objectSize) + Entries(xs)
  }

  lemma VtableReadsBack(xs: seq<nat>, objectSize: nat, post: Bytes)
    requires 4 + 2 * |xs| < 65536 && forall x <- xs :: x < 65536
    ensures var d := VtableBytes(xs, objectSize) + post;
            |d| == 4 + 2 * |xs| + |post| && VtableIs(d, |d|, xs)
  {
    hide ReadUint16, Uint16, Entries;
    EntriesLength(xs);
    var (size, osize) := (Uint16(4 + 2 * |xs|), Uint16(objectSize));
    var d := VtableBytes(xs, objectSize) + post;
    ReadsBack([], osize + Entries(xs) + post, 4 + 2 * |xs|);
    assert [] + size + (osize + Entries(xs) + post) == d;
    forall k | 0 <= k < |xs|
      ensures Uint16Is(d, |d|, 4 + 2 * k, xs[k])
    {
      assert xs[k] in xs;
      EntryReadsBack(size + osize, xs, post, k);
    }
  }

  /** Its second word is the size of the table. */
  lemma VtableHoldsObjectSize(xs: seq<nat>, objectSize: nat, post: Bytes)
    requires objectSize < 65536
    ensures ReadUint16(VtableBytes(xs, objectSize) + post, 2) == Val(objectSize)
  {
    hide ReadUint16, Uint16, Entries;
    var (size, osize) := (Uint16(4 + 2 * |xs|), Uint16(objectSize));
    ReadsBack(size, Entries(xs) + post, objectSize);
    assert size + osize + (Entries(xs) + post) == VtableBytes(xs, objectSize) + post;
  }

  /** The slots up to the last one used. */
  function Trim(slots: seq<nat>): (r: seq<nat>)
    ensures r <= slots
    ensures forall s <- r :: s in slots
    ensures forall k :: |r| <= k < |slots| ==> slots[k] == 0
    ensures r != [] ==> r[|r| - 1] != 0
  {
    if slots != [] && slots[|slots| - 1] == 0 then Trim(slots[..|slots| - 1]) else slots
  }

  function FieldOffsets(obj: nat, slots: seq<nat>): (r: seq<nat>)
    requires forall s <- slots :: s <= obj
    ensures |r| == |slots|
    ensures forall k :: 0 <= k < |slots| ==> slots[k] <= obj && r[k] == FieldOffset(obj, slots[k])
  {
    assert forall k :: 0 <= k < |slots| ==> slots[k] in slots;
    seq(|slots|, k requires 0 <= k < |slots| => FieldOffset(obj, slots[k]))
  }

  lemma OffsetFromVtable(d: Bytes, obj: nat, vtable: nat, xs: seq<nat>, k: nat)
    requires obj <= |d| && ReadInt32(d, |d| - obj) == Val(vtable - obj) && VtableIs(d, vtable, xs)
    ensures TableAt(d, obj).Offset(4 + 2 * k) == Val(if k < |xs| then xs[k] else 0)
  {
    hide ReadInt32, ReadUint16;
    assert |d| - obj - (vtable - obj) == |d| - vtable;
    if k < |xs| {
      assert Uint16Is(d, vtable, 4 + 2 * k, xs[k]);
    }
  }

  /** A table whose first word leads to a vtable with the right offsets is finished. */
  lemma TableFromVtable(d: Bytes, obj: nat, vtable: nat, slots: seq<nat>)
    requires obj <= |d| && (forall s <- slots :: s <= obj)
    requires ReadInt32(d, |d| - obj) == Val(vtable - obj)
    requires VtableIs(d, vtable, FieldOffsets(obj, Trim(slots)))
    ensures TableIs(d, obj, slots)
  {
    hide ReadInt32, Table.Offset, VtableIs, Trim, FieldOffsets;
    var xs := FieldOffsets(obj, Trim(slots));
    forall k | 0 <= k < |slots|
      ensures TableAt(d, obj).Offset(4 + 2 * k) == Val(FieldOffset(obj, slots[k]))
    {
      assert slots[k] in slots;
      OffsetFromVtable(d, obj, vtable, xs, k);
      if k < |xs| {
        assert xs[k] == FieldOffset(obj, Trim(slots)[k]);
      }
    }
  }

  // ----- Sharing vtables

  /** A vtable in the buffer whose field offsets are smaller than its own distance, as they all are. */
  ghost predicate VtableKnown(d: Bytes, o: nat, xs: seq<nat>) {
    VtableIs(d, o, xs) && 0 < o && forall x <- xs :: x < o
  }

  ghost predicate VtablesKnown(d: Bytes, vtables: seq<nat>, contents: seq<seq<nat>>) {
    |contents| == |vtables| && forall i :: 0 <= i < |vtables| ==> VtableKnown(d, vtables[i], contents[i])
  }

  lemma VtablesKept(d: Bytes, e: Bytes, vtables: seq<nat>, contents: seq<seq<nat>>)
    requires Extends(d, e) && VtablesKnown(d, vtables, contents)
    ensures VtablesKnown(e, vtables, contents)
  {
    hide VtableIs;
    forall i | 0 <= i < |vtables|
      ensures VtableKnown(e, vtables[i], contents[i])
    {
      assert VtableKnown(d, vtables[i], contents[i]);
      VtableKept(d, e, vtables[i], contents[i]);
    }
  }

  /** The builder's comparison of the slots of the table at `obj` with a vtable written before. */
  predicate VtableMatches(d: Bytes, vtable: nat, slots: seq<nat>, obj: nat) {
    && ReadUint16(d, |d| - vtable) == Val(4 + 2 * |slots|)
    && forall k :: 0 <= k < |slots| ==>
         var x := ReadUint16(d, |d| - vtable + (4 + 2 * k));
         x.Val? && ((x.value == 0 && slots[k] == 0) || x.value == obj - slots[k])
  }

  lemma MatchIsExact(d: Bytes, vtable: nat, xs: seq<nat>, slots: seq<nat>, obj: nat)
    requires VtableKnown(d, vtable, xs) && vtable < obj && VtableMatches(d, vtable, slots, obj)
    requires forall s <- slots :: s <= obj
    ensures xs == FieldOffsets(obj, slots)
  {
    hide ReadUint16;
    assert Uint16Is(d, vtable, 0, 4 + 2 * |xs|);
    forall k | 0 <= k < |xs|
      ensures xs[k] == FieldOffset(obj, slots[k])
    {
      assert slots[k] in slots && xs[k] in xs;
      assert Uint16Is(d, vtable, 4 + 2 * k, xs[k]);
    }
  }

  // ----- The builder

  function NoSlots(n: nat): seq<nat> {
    seq(n, _ => 0)
  }

  function PaddingToFour(n: nat): (r: nat)
    ensures r < 4 && (n + r) % 4 == 0 && (n % 4 == 0 ==> r == 0)
  {
    if n % 4 == 0 then 0 else 4 - n % 4
  }

  function PaddingToEight(n: nat): (r: nat)
    ensures r < 8 && (n + r) % 8 == 0 && (n % 8 == 0 ==> r == 0)
  {
    if n % 8 == 0 then 0 else 8 - n % 8
  }

  /** How many bytes bring a buffer of `n` bytes to a multiple of `size`. */
  function Padding(n: nat, size: nat): (r: nat)
    ensures size in {1, 2, 4, 8} ==> r < size
    ensures size == 2 ==> (n + r) % 2 == 0 && (n % 2 == 0 ==> r == 0)
    ensures size == 4 ==> (n + r) % 4 == 0 && (n % 4 == 0 ==> r == 0)
    ensures size == 8 ==> (n + r) % 8 == 0 && (n % 8 == 0 ==> r == 0)
  {
    if size == 2 then n % 2 else if size == 4 then PaddingToFour(n) else if size == 8 then PaddingToEight(n) else 0
  }

  lemma EvenFront(front: Bytes, d: Bytes)
    requires |d| % 4 == 0 && |front| % 2 == 0
    ensures Zeros(Padding(|front + d|, 2)) == []
  {
    EvenSum(|front|, |d|);
    assert |front + d| == |front| + |d|;
  }

  lemma EvenSum(m: nat, n: nat)
    requires m % 2 == 0 && n % 4 == 0
    ensures Padding(m + n, 2) == 0
  {
  }

  lemma EntriesEnd(xs: seq<nat>)
    ensures Entries(xs[|xs|..]) == []
  {
  }

  lemma EntriesFrom(xs: seq<nat>, i: nat)
    requires i < |xs|
    ensures Entries(xs[i..]) == Uint16(xs[i]) + Entries(xs[i + 1..])
    ensures |Entries(xs[i..])| % 2 == 0 && |Entries(xs[i + 1..])| % 2 == 0
  {
    assert xs[i..][1..] == xs[i + 1..];
    EntriesLength(xs[i..]);
    EntriesLength(xs[i + 1..]);
  }

  /** One field offset more, with no padding between the words of a vtable. */
  lemma EntryInFront(xs: seq<nat>, i: nat, d: Bytes)
    requires i < |xs| && |d| % 4 == 0
    ensures var rest := Entries(xs[i + 1..]) + d;
            Uint16(xs[i]) + Zeros(Padding(|rest|, 2)) + rest == Entries(xs[i..]) + d
  {
    hide Uint16, Entries, Padding;
    EntriesFrom(xs, i);
    EvenFront(Entries(xs[i + 1..]), d);
    assert Uint16(xs[i]) + [] + (Entries(xs[i + 1..]) + d) == Uint16(xs[i]) + Entries(xs[i + 1..]) + d;
  }

  /** The two sizes in front of all field offsets. */
  lemma SizesInFront(xs: seq<nat>, objectSize: nat, d: Bytes)
    requires |d| % 4 == 0
    ensures var rest := Entries(xs[0..]) + d;
            var more := Uint16(objectSize) + Zeros(Padding(|rest|, 2)) + rest;
            Uint16(4 + 2 * |xs|) + Zeros(Padding(|more|, 2)) + more == VtableBytes(xs, objectSize) + d
  {
    hide Uint16, Entries, Padding;
    assert xs[0..] == xs;
    EntriesLength(xs);
    EvenFront(Entries(xs), d);
    EvenFront(Uint16(objectSize) + Entries(xs), d);
    var rest := Entries(xs) + d;
    assert Uint16(objectSize) + [] + rest == Uint16(objectSize) + Entries(xs) + d;
    var more := Uint16(objectSize) + Entries(xs) + d;
    assert Uint16(4 + 2 * |xs|) + [] + more == VtableBytes(xs, objectSize) + d;
  }

  lemma StringWritten(s: Bytes, tail: Bytes)
    ensures var d := Uint32(|s|) + (s + tail); |d| <= MAX_SIZE ==> StringIs(d, |d|, s)
  {
    hide Uint32, ReadUint32, Slice;
    var size := Uint32(|s|);
    ReadsBack([], s + tail, |s|);
    assert [] + size + (s + tail) == size + (s + tail);
    SliceMiddle(size, s, tail);
    assert size + s + tail == size + (s + tail);
  }

  lemma ReferenceWritten(d: Bytes, target: nat)
    requires target <= |d|
    ensures |d| + 4 <= MAX_SIZE ==> RefIs(Uint32(|d| - target + 4) + d, |d| + 4, target)
  {
    hide Uint32, Uint32Is;
    if |d| + 4 <= MAX_SIZE {
      Uint32InFront(d, |d| - target + 4);
    }
  }

  lemma Uint32InFront(d: Bytes, n: nat)
    requires n < TWO_32
    ensures |Uint32(n) + d| == |d| + 4 && Uint32Is(Uint32(n) + d, |d| + 4, n)
  {
    hide Uint32, ReadUint32, ReadUint16, ReadInt32, ReadInt64, Uint16, Uint64;
    ReadsBack([], d, n);
    assert [] + Uint32(n) + d == Uint32(n) + d;
  }

  lemma NumberWritten(d: Bytes, n: int)
    requires -TWO_63 <= n < TWO_63
    ensures SlotHolds(Uint64(n) + d, |d| + 8, Int(n))
  {
    hide Uint64, ReadInt64;
    ReadsBack([], d, n);
    assert [] + Uint64(n) + d == Uint64(n) + d;
  }

  lemma PaddedByEight(n: nat)
    ensures (n + Padding(n, 8) + 8) % 8 == 0
  {
  }

  lemma MultipleOfFour(m: nat)
    requires (m + 4) % 8 == 0
    ensures m % 4 == 0
  {
    var q := (m + 4) / 8;
    assert m == 4 * (2 * q - 1);
  }

  /** The root reference ends where the alignment asks for it. */
  lemma FinishIsAligned(n: nat, align: nat)
    requires align in {1, 2, 4, 8}
    ensures var m := n + Padding(n + 4, align);
            m <= n + 7 && Padding(m, 4) <= 3 && (align == 8 ==> Padding(m, 4) == 0 && (m + 4) % 8 == 0)
  {
    hide Padding;
    var m := n + Padding(n + 4, align);
    if align == 8 {
      assert m + 4 == n + 4 + Padding(n + 4, 8);
      MultipleOfFour(m);
    }
  }

  lemma PaddedByFour(n: nat)
    ensures (n + Padding(n, 4) + 4) % 4 == 0 && Padding(n, 4) <= 3
  {
  }

  lemma StringEnds(s: Bytes, padded: Bytes)
    ensures var d := Uint32(|s|) + (s + ([0] + padded)); |d| == |padded| + |s| + 5 && d[|s| + 4] == 0
  {
    hide Uint32;
    var text := s + ([0] + padded);
    assert text[|s|] == 0;
  }

  ghost predicate SlotsWithin(slots: seq<nat>, low: nat, high: nat) {
    forall i :: 0 <= i < |slots| ==> slots[i] == 0 || low < slots[i] <= high
  }

  /** The first word of the table at `obj`, set once its vtable is known. */
  function Patch(d: Bytes, obj: nat, word: Bytes): (r: Bytes)
    requires |word| == 4 <= obj <= |d|
    ensures |r| == |d|
  {
    d[..|d| - obj] + word + d[|d| - obj + 4..]
  }

  lemma PatchIs(front: Bytes, word: Bytes, tail: Bytes, to: Bytes)
    requires |word| == |to| == 4
    ensures Patch(front + word + tail, 4 + |tail|, to) == front + to + tail
  {
    var d := front + word + tail;
    assert d[..|front|] == front && d[|front| + 4..] == tail;
  }

  lemma UsedSlotsAreNear(slots: seq<nat>, low: nat, obj: nat)
    requires SlotsWithin(slots, low, obj)
    ensures forall s <- slots :: s == 0 || low < s <= obj
    ensures forall s <- Trim(slots) :: s <= obj
  {
  }

  /** The table at the front of `word + tail` behind a vtable written right before it. */
  lemma FreshVtable(slots: seq<nat>, objectSize: nat, tail: Bytes)
    requires |slots| <= 1000 && forall s <- slots :: s == 0 || 4 + |tail| - 65536 < s <= 4 + |tail|
    ensures var obj := 4 + |tail|;
            var xs := FieldOffsets(obj, Trim(slots));
            var front := VtableBytes(xs, objectSize);
            var d := front + Uint32(|front|) + tail;
            && |front| == 4 + 2 * |xs|
            && VtableIs(d, |d|, xs) && TableIs(d, obj, slots)
  {
    hide Trim, FieldOffsets, Uint32, VtableBytes, VtableIs, TableIs, ReadInt32;
    var obj := 4 + |tail|;
    var xs := FieldOffsets(obj, Trim(slots));
    var front := VtableBytes(xs, objectSize);
    var word := Uint32(|front|);
    forall x <- xs
      ensures x < 65536
    {
      var k :| 0 <= k < |xs| && x == xs[k];
      assert Trim(slots)[k] in slots;
    }
    VtableReadsBack(xs, objectSize, word + tail);
    assert front + word + tail == front + (word + tail);
    ReadsBack(front, tail, |front|);
    TableFromVtable(front + word + tail, obj, |front| + obj, slots);
  }

  /** The table at the front of `word + tail` with a vtable that lies further back. */
  lemma SharedVtable(slots: seq<nat>, vtable: nat, tail: Bytes)
    requires vtable <= |tail| <= MAX_SIZE && forall s <- slots :: s <= 4 + |tail|
    requires VtableIs(tail, vtable, FieldOffsets(4 + |tail|, Trim(slots)))
    ensures TableIs(Uint32(vtable - (4 + |tail|)) + tail, 4 + |tail|, slots)
  {
    hide Uint32, VtableIs, TableIs, ReadInt32, Trim, FieldOffsets;
    var obj := 4 + |tail|;
    var word := Uint32(vtable - obj);
    InFront(word, tail);
    VtableKept(tail, word + tail, vtable, FieldOffsets(obj, Trim(slots)));
    ReadsBack([], tail, vtable - obj);
    assert [] + word + tail == word + tail;
    TableFromVtable(word + tail, obj, vtable, slots);
  }

  /** A table ended with a vtable of its own. */
  lemma EndFresh(before: Bytes, tail: Bytes, vtables: seq<nat>, contents: seq<seq<nat>>, slots: seq<nat>, low: nat)
    requires Extends(before, tail) && low <= |before| && |tail| - low <= 65000
    requires |slots| <= 1000 && SlotsWithin(slots, low, |before|)
    requires |before| <= MAX_SIZE ==> VtablesKnown(before, vtables, contents)
    ensures forall s <- Trim(slots) :: s <= 4 + |tail|
    ensures var obj := 4 + |tail|;
            var xs := FieldOffsets(obj, Trim(slots));
            var front := VtableBytes(xs, obj - low);
            var d := front + Uint32(|front|) + tail;
            && |front| == 4 + 2 * |xs|
            && Extends(before, d)
            && (|d| <= MAX_SIZE ==> TableIs(d, obj, slots) && VtablesKnown(d, vtables + [|d|], contents + [xs]))
  {
    hide Trim, FieldOffsets, Uint32, VtableBytes, VtableIs, TableIs;
    UsedSlotsAreNear(slots, low, |before|);
    var obj := 4 + |tail|;
    var xs := FieldOffsets(obj, Trim(slots));
    var front := VtableBytes(xs, obj - low);
    var d := front + Uint32(|front|) + tail;
    FreshVtable(slots, obj - low, tail);
    InFront(front + Uint32(|front|), tail);
    ExtendsTransitive(before, tail, d);
    if |d| <= MAX_SIZE {
      VtablesKept(before, d, vtables, contents);
      forall x <- xs
        ensures x < |d|
      {
        var k :| 0 <= k < |xs| && x == xs[k];
      }
      assert VtableKnown(d, |d|, xs);
    }
  }

  /** A table ended with the vtable of an earlier one. */
  lemma EndShared(before: Bytes, word: Bytes, tail: Bytes, vtables: seq<nat>, contents: seq<seq<nat>>, slots: seq<nat>,
      low: nat, i: nat)
    requires Extends(before, tail) && low <= |before| && SlotsWithin(slots, low, |before|)
    requires |before| <= MAX_SIZE ==> VtablesKnown(before, vtables, contents)
    requires i < |vtables| && |word| == 4 && VtableMatches(word + tail, vtables[i], Trim(slots), 4 + |tail|)
    ensures var obj := 4 + |tail|;
            var d := Uint32(vtables[i] - obj) + tail;
            && Extends(before, d)
            && (|d| <= MAX_SIZE ==> TableIs(d, obj, slots) && VtablesKnown(d, vtables, contents))
  {
    hide Uint32, VtableIs, TableIs, VtableMatches;
    UsedSlotsAreNear(slots, low, |before|);
    var obj := 4 + |tail|;
    var to := Uint32(vtables[i] - obj);
    InFront(to, tail);
    ExtendsTransitive(before, tail, to + tail);
    if |to + tail| <= MAX_SIZE {
      VtablesKept(before, to + tail, vtables, contents);
      VtablesKept(before, tail, vtables, contents);
      assert VtableKnown(tail, vtables[i], contents[i]);
      VtableInBounds(tail, vtables[i], contents[i]);
      InFront(word, tail);
      VtableKept(tail, word + tail, vtables[i], contents[i]);
      MatchIsExact(word + tail, vtables[i], contents[i], Trim(slots), obj);
      SharedVtable(slots, vtables[i], tail);
    }
  }

  lemma VtableInBounds(d: Bytes, vtable: nat, xs: seq<nat>)
    requires VtableIs(d, vtable, xs)
    ensures vtable <= |d|
  {
  }

  class Builder {
    var data: Bytes
    var slots: seq<nat>
    var objectEnd: nat
    var vtables: seq<nat>
    var minalign: nat
    ghost var contents: seq<seq<nat>>

    ghost predicate Valid()
      reads this
    {
      && minalign in {1, 2, 4, 8}
      && (|data| <= MAX_SIZE ==> VtablesKnown(data, vtables, contents))
    }

    constructor ()
      ensures Valid() && data == [] && slots == [] && fresh(this)
    {
      data, slots, objectEnd, vtables, minalign, contents := [], [], 0, [], 1, [];
    }

    /** Pads so that `size` bytes are aligned once `additional` bytes have been written. */
    method Prep(size: nat, additional: nat)
      requires Valid() && size in {1, 2, 4, 8}
      modifies this`data, this`minalign
      ensures Valid()
      ensures data == Zeros(Padding(|old(data)| + additional, size)) + old(data) && Extends(old(data), data)
      ensures minalign >= size && minalign >= old(minalign)
    {
      if size > minalign {
        minalign := size;
      }
      hide Padding, Zeros, Extends, VtablesKnown;
      var padded := Zeros(Padding(|data| + additional, size)) + data;
      InFront(Zeros(Padding(|data| + additional, size)), data);
      KeepVtables(padded);
      data := padded;
    }

    lemma KeepVtables(e: Bytes)
      requires Valid() && Extends(data, e)
      ensures |e| <= MAX_SIZE ==> VtablesKnown(e, vtables, contents)
    {
      if |e| <= MAX_SIZE {
        VtablesKept(data, e, vtables, contents);
      }
    }

    lemma MinalignIsKnown()
      requires Valid()
      ensures minalign in {1, 2, 4, 8}
    {
    }

    method Place(bytes: Bytes)
      requires Valid()
      modifies this`data
      ensures Valid() && data == bytes + old(data) && Extends(old(data), data)
    {
      hide Extends, VtablesKnown;
      InFront(bytes, data);
      KeepVtables(bytes + data);
      data := bytes + data;
    }

    method PrependUint16(n: int)
      requires Valid()
      modifies this`data, this`minalign
      ensures Valid() && data == Uint16(n) + Zeros(Padding(|old(data)|, 2)) + old(data)
    {
      hide Padding, Zeros, Extends, Builder.Valid, Uint16;
      Prep(2, 0);
      Place(Uint16(n));
    }

    /** A reference to what was written at distance `target`. */
    method PrependUOffset(target: nat)
      requires Valid() && target <= |data|
      modifies this`data, this`minalign
      ensures Valid() && Extends(old(data), data)
      ensures |data| == |old(data)| + Padding(|old(data)|, 4) + 4 && |data| % 4 == 0
      ensures |data| <= MAX_SIZE ==> RefIs(data, |data|, target)
    {
      hide Padding, RefIs, Uint32, Builder.Valid, Extends;
      Prep(4, 0);
      ghost var padded := data;
      ReferenceWritten(data, target);
      Place(Uint32(|data| - target + 4));
      ExtendsTransitive(old(data), padded, data);
      PaddedByFour(|old(data)|);
    }

    method CreateString(s: Bytes) returns (off: nat)
      requires Valid()
      modifies this`data, this`minalign
      ensures Valid() && Extends(old(data), data)
      ensures off == |data| > 0 && |data| <= |old(data)| + |s| + 8
      ensures |data| <= MAX_SIZE ==> StringIs(data, off, s)
      ensures |data| % 4 == 0 && |s| + 4 < |data| && data[|s| + 4] == 0
    {
      PaddedByFour(|data| + (|s| + 1));
      hide Padding, Zeros, StringIs, Uint32, Builder.Valid, Extends;
      Prep(4, |s| + 1);
      ghost var padded := data;
      Place([0]);
      ghost var ended := data;
      Place(s);
      ghost var text := data;
      Place(Uint32(|s|));
      StringWritten(s, ended);
      StringEnds(s, padded);
      ExtendsTransitive(old(data), padded, ended);
      ExtendsTransitive(old(data), ended, text);
      ExtendsTransitive(old(data), text, data);
      off := |data|;
    }

    /** Aligns for the length and `numElems` references of four bytes each. */
    method StartVector(numElems: nat)
      requires Valid()
      modifies this`data, this`minalign
      ensures Valid() && Extends(old(data), data) && |data| % 4 == 0 && |data| <= |old(data)| + 6
    {
      Prep(4, 4 * numElems);
      Prep(4, 4 * numElems);
    }

    method EndVector(numElems: nat) returns (off: nat)
      requires Valid()
      modifies this`data
      ensures Valid() && Extends(old(data), data) && off == |data| == |old(data)| + 4
      ensures |data| <= MAX_SIZE && numElems <= MAX_SIZE ==> Uint32Is(data, off, numElems)
    {
      hide Uint32, Uint32Is, VtablesKnown;
      if numElems <= MAX_SIZE {
        Uint32InFront(data, numElems);
      }
      Place(Uint32(numElems));
      off := |data|;
    }

    /** The reference to the root table in front of everything. */
    method Finish(root: nat)
      requires Valid() && root <= |data|
      modifies this`data, this`minalign
      ensures Valid() && Extends(old(data), data) && |data| <= |old(data)| + 14
      ensures |data| <= MAX_SIZE ==> RefIs(data, |data|, root)
      ensures |data| % 4 == 0 && (old(minalign) == 8 ==> |data| % 8 == 0)
    {
      MinalignIsKnown();
      hide Padding, RefIs, Builder.Valid, Extends;
      FinishIsAligned(|data|, minalign);
      Prep(minalign, 4);
      ghost var padded := data;
      PrependUOffset(root);
      ExtendsTransitive(old(data), padded, data);
    }

    method StartObject(numFields: nat)
      requires Valid()
      modifies this`slots, this`objectEnd
      ensures Valid() && slots == NoSlots(numFields) && objectEnd == |data|
    {
      slots := NoSlots(numFields);
      objectEnd := |data|;
    }

    /** The table under construction starts behind `objectEnd` and has the given fields so far. */
    ghost predicate Building(fields: seq<Field>)
      reads this
    {
      && objectEnd <= |data|
      && |slots| == |fields|
      && SlotsWithin(slots, objectEnd, |data|)
      && (|data| <= MAX_SIZE ==> FieldsHold(data, slots, fields))
    }

    method PrependUOffsetSlot(k: nat, target: nat, ghost fields: seq<Field>, ghost f: Field)
      requires Valid() && Building(fields) && k < |fields| && 0 < target <= objectEnd
      requires f == Ref(target) || (f.Text? && (|data| <= MAX_SIZE ==> StringIs(data, target, f.s)))
      modifies this`data, this`minalign, this`slots
      ensures Valid() && Building(fields[k := f]) && Extends(old(data), data)
      ensures |data| <= |old(data)| + 7
      ensures slots == old(slots)[k := |data|]
    {
      PrependUOffset(target);
      KeepSlots(old(data), k, fields, f) by {
        if |data| <= MAX_SIZE && f.Text? {
          StringKept(old(data), data, target, f.s);
        }
      }
      slots := slots[k := |data|];
    }

    method PrependInt64Slot(k: nat, n: int, ghost fields: seq<Field>)
      requires Valid() && Building(fields) && k < |fields| && -TWO_63 <= n < TWO_63
      requires fields[k] == Int(0)
      modifies this`data, this`minalign, this`slots
      ensures Valid() && Building(fields[k := Int(n)]) && Extends(old(data), data)
      ensures |data| <= |old(data)| + 15 && (n != 0 ==> |data| % 8 == 0 && minalign == 8)
    {
      if n != 0 {
        hide Padding, Uint64, SlotHolds, VtablesKnown, Extends;
        Prep(8, 0);
        ghost var padded := data;
        NumberWritten(data, n);
        Place(Uint64(n));
        ExtendsTransitive(old(data), padded, data);
        PaddedByEight(|old(data)|);
        KeepSlots(old(data), k, fields, Int(n));
        slots := slots[k := |data|];
      }
    }

    method PrependBoolSlot(k: nat, b: bool, ghost fields: seq<Field>)
      requires Valid() && Building(fields) && k < |fields|
      requires fields[k] == Truth(false)
      modifies this`data, this`minalign, this`slots
      ensures Valid() && Building(fields[k := Truth(b)]) && Extends(old(data), data)
      ensures |data| <= |old(data)| + 1
    {
      if b {
        Prep(1, 0);
        SliceMiddle([], Flag(b), data);
        assert [] + Flag(b) + data == Flag(b) + data;
        Place(Flag(b));
        KeepSlots(old(data), k, fields, Truth(b));
        slots := slots[k := |data|];
      }
    }

    /** Setting slot `k` to what has just been written keeps the other fields. */
    lemma KeepSlots(before: Bytes, k: nat, fields: seq<Field>, f: Field)
      requires Extends(before, data) && |before| < |data| && objectEnd <= |before|
      requires |slots| == |fields| && k < |slots| && SlotsWithin(slots, objectEnd, |before|)
      requires |before| <= MAX_SIZE ==> FieldsHold(before, slots, fields)
      requires |data| <= MAX_SIZE ==> SlotHolds(data, |data|, f)
      ensures SlotsWithin(slots[k := |data|], objectEnd, |data|)
      ensures |data| <= MAX_SIZE ==> FieldsHold(data, slots[k := |data|], fields[k := f])
    {
      hide SlotHolds;
      if |data| <= MAX_SIZE {
        FieldsKept(before, data, slots, fields);
      }
    }

    /** A vtable written before with the same field offsets, the latest first. */
    method FindVtable(used: seq<nat>, obj: nat) returns (existing: Option<nat>)
      requires Valid()
      ensures existing.Some? ==>
              exists i :: 0 <= i < |vtables| && vtables[i] == existing.value
                && VtableMatches(data, vtables[i], used, obj)
    {
      existing := None;
      var i := |vtables|;
      while i > 0
        invariant 0 <= i <= |vtables|
      {
        i := i - 1;
        if VtableMatches(data, vtables[i], used, obj) {
          return Some(vtables[i]);
        }
      }
    }

    /** The field offsets, written last first, then the two sizes. */
    method WriteVtable(used: seq<nat>, obj: nat)
      requires Valid() && obj == |data| && |data| % 4 == 0 && objectEnd <= |data| && (forall s <- used :: s <= obj)
      modifies this`data, this`minalign
      ensures Valid() && data == VtableBytes(FieldOffsets(obj, used), obj - objectEnd) + old(data)
    {
      hide Uint16, Padding, Entries, VtableBytes, Builder.Valid;
      ghost var xs := FieldOffsets(obj, used);
      EntriesEnd(xs);
      var i := |used|;
      while i > 0
        invariant 0 <= i <= |used| && Valid()
        invariant data == Entries(xs[i..]) + old(data)
      {
        i := i - 1;
        EntryInFront(xs, i, old(data));
        var off := 0;
        if used[i] != 0 {
          off := obj - used[i];
        }
        PrependUint16(off);
      }
      SizesInFront(xs, obj - objectEnd, old(data));
      PrependUint16(obj - objectEnd);
      PrependUint16(4 + 2 * |used|);
    }

    /** The last part of `EndObject` when the vtable is new; `word` is the table's first word, `tail` all behind it. */
    method FinishWithNewVtable(used: seq<nat>, obj: nat, ghost before: Bytes, ghost word: Bytes, ghost tail: Bytes)
      requires Valid() && data == word + tail && |word| == 4 && obj == |data| && |data| % 4 == 0
      requires Extends(before, tail) && objectEnd <= |before| && |tail| - objectEnd <= 65000
      requires |slots| <= 1000 && SlotsWithin(slots, objectEnd, |before|) && used == Trim(slots)
      requires |before| <= MAX_SIZE ==> VtablesKnown(before, vtables, contents)
      modifies this`data, this`minalign, this`vtables, this`contents
      ensures Valid() && Extends(before, data) && |data| == 4 + 2 * |used| + obj
      ensures |data| <= MAX_SIZE ==> TableIs(data, obj, slots)
    {
      hide Uint32, VtableBytes, VtablesKnown, TableIs, Patch, FieldOffsets, SlotsWithin, Extends, Padding;
      EndFresh(before, tail, vtables, contents, slots, objectEnd);
      assert obj == 4 + |tail| && |before| <= |tail| by {
        ExtendsLength(before, tail);
      }
      WriteVtable(used, obj);
      ghost var xs := FieldOffsets(obj, used);
      ghost var front := VtableBytes(xs, obj - objectEnd);
      assert data == front + word + tail;
      PatchIs(front, word, tail, Uint32(|front|));
      data := Patch(data, obj, Uint32(|data| - obj));
      vtables := vtables + [|data|];
      contents := contents + [xs];
    }

    /** The last part of `EndObject` when the vtable at `existing` fits. */
    method FinishWithSharedVtable(existing: nat, obj: nat, ghost i: nat, ghost before: Bytes, ghost word: Bytes,
        ghost tail: Bytes)
      requires Valid() && data == word + tail && |word| == 4 && obj == |data|
      requires Extends(before, tail) && objectEnd <= |before| && SlotsWithin(slots, objectEnd, |before|)
      requires |before| <= MAX_SIZE ==> VtablesKnown(before, vtables, contents)
      requires i < |vtables| && vtables[i] == existing && VtableMatches(data, existing, Trim(slots), obj)
      modifies this`data
      ensures Valid() && Extends(before, data) && |data| == obj
      ensures |data| <= MAX_SIZE ==> TableIs(data, obj, slots)
    {
      hide Uint32, VtablesKnown, TableIs, Patch, SlotsWithin, Extends, VtableMatches;
      EndShared(before, word, tail, vtables, contents, slots, objectEnd, i);
      PatchIs([], word, tail, Uint32(existing - obj));
      assert [] + word + tail == data;
      data := Patch(data, obj, Uint32(existing - obj));
      assert data == Uint32(existing - obj) + tail;
    }

    /** Ends the table under construction: shares a vtable or writes one, and lets the table's first word lead to it. */
    method EndObject() returns (obj: nat)
      requires Valid() && objectEnd <= |data| && SlotsWithin(slots, objectEnd, |data|)
      requires |slots| <= 1000 && |data| - objectEnd <= 60000
      modifies this
      ensures Valid() && Extends(old(data), data) && |old(data)| < obj <= |data|
      ensures |data| <= |old(data)| + 11 + 2 * |old(slots)|
      ensures |data| <= MAX_SIZE ==> TableIs(data, obj, old(slots))
    {
      hide VtablesKnown, VtableMatches, TableIs, RefIs, SlotsWithin;
      ghost var before := data;
      PrependUOffset(0);
      obj := |data|;
      ghost var (word, tail) := (data[..4], data[4..]);
      assert data == word + tail && Extends(before, tail);
      var used := Trim(slots);
      var existing := FindVtable(used, obj);
      if existing.None? {
        FinishWithNewVtable(used, obj, before, word, tail);
      } else {
        ghost var i: nat :| i < |vtables| && vtables[i] == existing.value && VtableMatches(data, vtables[i], used, obj);
        FinishWithSharedVtable(existing.value, obj, i, before, word, tail);
      }
      slots := [];
    }
  }
}
