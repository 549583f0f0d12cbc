/** Little-endian numbers and FlatBuffers tables, as a reader finds them in a finished buffer. */
module FlatTable {
  import opened Base

  /** What a read gives; out of bounds, Go panics. */
  datatype Read<+T> = Panic | Val(value: T) {
    predicate IsFailure() {
      Panic?
    }

    function PropagateFailure<U>(): Read<U>
      requires Panic?
    {
      Panic
    }

    function Extract(): T
      requires Val?
    {
      value
    }
  }

  // ----- Numbers

  const TWO_31: int := 0x8000_0000
  const TWO_32: int := 0x1_0000_0000
  const TWO_63: int := 0x8000_0000_0000_0000
  const TWO_64: int := 0x1_0000_0000_0000_0000

  function Power256(k: nat): nat {
    if k == 0 then 1 else 256 * Power256(k - 1)
  }

  function LittleEndian(n: nat, k: nat): (r: Bytes)
    ensures |r| == k
  {
    if k == 0 then [] else [(n % 256) as byte] + LittleEndian(n / 256, k - 1)
  }

  function Number(s: Bytes): nat {
    if s == [] then 0 else s[0] as int + 256 * Number(s[1..])
  }

  lemma {:induction false} NumberOfLittleEndian(n: nat, k: nat)
    requires n < Power256(k)
    ensures Number(LittleEndian(n, k)) == n
  {
    if k > 0 {
      NumberOfLittleEndian(n / 256, k - 1);
      assert LittleEndian(n, k)[1..] == LittleEndian(n / 256, k - 1);
    }
  }

  lemma Powers()
    ensures Power256(1) == 256 && Power256(2) == 65536 && Power256(4) == TWO_32 && Power256(8) == TWO_64
  {
    assert Power256(3) == 256 * Power256(2);
    assert Power256(5) == 256 * Power256(4);
    assert Power256(6) == 256 * Power256(5);
    assert Power256(7) == 256 * Power256(6);
  }

  /** The bytes of a uint16, uint32, int32, int64 or bool, wrapped around as Go's conversions do. */
  function Uint16(n: int): (r: Bytes)
    ensures |r| == 2
  {
    LittleEndian(n % 65536, 2)
  }

  function Uint32(n: int): (r: Bytes)
    ensures |r| == 4
  {
    LittleEndian(n % TWO_32, 4)
  }

  function Uint64(n: int): (r: Bytes)
    ensures |r| == 8
  {
    LittleEndian(n % TWO_64, 8)
  }

  function Flag(b: bool): (r: Bytes)
    ensures |r| == 1
  {
    if b then [1] else [0]
  }

  function Slice(d: Bytes, i: int, n: nat): Read<Bytes> {
    if 0 <= i && i + n <= |d| then Val(d[i..i + n]) else Panic
  }

  function ReadUint16(d: Bytes, i: int): Read<nat> {
    var s :- Slice(d, i, 2);
    Val(Number(s))
  }

  function ReadUint32(d: Bytes, i: int): Read<nat> {
    var s :- Slice(d, i, 4);
    Val(Number(s))
  }

  function ReadInt32(d: Bytes, i: int): Read<int> {
    var n :- ReadUint32(d, i);
    Val(if n < TWO_31 then n else n - TWO_32)
  }

  function ReadInt64(d: Bytes, i: int): Read<int> {
    var s :- Slice(d, i, 8);
    Val(if Number(s) < TWO_63 then Number(s) else Number(s) - TWO_64)
  }

  function ReadBool(d: Bytes, i: int): Read<bool> {
    var s :- Slice(d, i, 1);
    Val(s[0] == 1)
  }

  lemma NumbersFit(n: int)
    ensures 0 <= n < 65536 ==> Number(Uint16(n)) == n
    ensures 0 <= n < TWO_32 ==> Number(Uint32(n)) == n
    ensures -TWO_31 <= n < 0 ==> Number(Uint32(n)) == n + TWO_32
    ensures 0 <= n < TWO_64 ==> Number(Uint64(n)) == n
    ensures -TWO_63 <= n < 0 ==> Number(Uint64(n)) == n + TWO_64
  {
    Powers();
    hide LittleEndian, Number, Power256;
    NumberOfLittleEndian(n % 65536, 2);
    NumberOfLittleEndian(n % TWO_32, 4);
    NumberOfLittleEndian(n % TWO_64, 8);
  }

  /** A number of the right width, written somewhere, reads back. */
  lemma ReadsBack(pre: Bytes, post: Bytes, n: int)
    ensures 0 <= n < 65536 ==> ReadUint16(pre + Uint16(n) + post, |pre|) == Val(n)
    ensures 0 <= n < TWO_32 ==> ReadUint32(pre + Uint32(n) + post, |pre|) == Val(n)
    ensures -TWO_31 <= n < TWO_31 ==> ReadInt32(pre + Uint32(n) + post, |pre|) == Val(n)
    ensures -TWO_63 <= n < TWO_63 ==> ReadInt64(pre + Uint64(n) + post, |pre|) == Val(n)
  {
    NumbersFit(n);
    hide Uint16, Uint32, Uint64, Number, Slice;
    SliceMiddle(pre, Uint16(n), post);
    SliceMiddle(pre, Uint32(n), post);
    SliceMiddle(pre, Uint64(n), post);
  }

  lemma SliceMiddle(pre: Bytes, s: Bytes, post: Bytes)
    ensures Slice(pre + s + post, |pre|, |s|) == Val(s)
  {
    assert (pre + s + post)[|pre|..|pre| + |s|] == s;
  }

  lemma NumberIs(s: Bytes)
    ensures |s| == 2 ==> Number(s) == s[0] as int + 0x100 * s[1] as int
    ensures |s| == 4 ==> Number(s) == s[0] as int + 0x100 * s[1] as int + 0x1_0000 * s[2] as int
                                      + 0x100_0000 * s[3] as int
  {
    if |s| == 2 || |s| == 4 {
      var t := s[1..];
      assert Number(s) == s[0] as int + 256 * Number(t);
      assert Number(t) == t[0] as int + 256 * Number(t[1..]);
      if |s| == 4 {
        assert Number(t[1..]) == t[1..][0] as int + 256 * Number(t[1..][1..]);
        assert t[1..][1..] == [s[3]] && Number([s[3]][1..]) == 0;
      } else {
        assert t[1..] == [];
      }
    }
  }

  lemma NumberOfEight(s: Bytes)
    requires |s| == 8
    ensures Number(s) == Number(s[..4]) + 0x1_0000_0000 * Number(s[4..])
  {
    assert s[1..][1..] == s[2..] && s[2..][1..] == s[3..] && s[3..][1..] == s[4..];
    NumberIs(s[..4]);
    assert Number(s) == s[0] as int + 256 * Number(s[1..]);
    assert Number(s[1..]) == s[1] as int + 256 * Number(s[2..]);
    assert Number(s[2..]) == s[2] as int + 256 * Number(s[3..]);
    assert Number(s[3..]) == s[3] as int + 256 * Number(s[4..]);
    hide Number;
  }

  /** Every number is read with its lowest byte first and, where it has a sign, in two's complement. */
  lemma ReadsAreLittleEndian(d: Bytes, i: int)
    ensures if 0 <= i && i + 2 <= |d| then ReadUint16(d, i) == Val(d[i] as int + 0x100 * d[i + 1] as int)
            else ReadUint16(d, i) == Panic
    ensures if 0 <= i && i + 4 <= |d| then
              var low := d[i] as int + 0x100 * d[i + 1] as int + 0x1_0000 * d[i + 2] as int;
              var n := low + 0x100_0000 * d[i + 3] as int;
              ReadUint32(d, i) == Val(n) && ReadInt32(d, i) == Val(if d[i + 3] < 128 then n else n - 0x1_0000_0000)
            else ReadUint32(d, i) == ReadInt32(d, i) == Panic
    ensures if 0 <= i && i + 8 <= |d| then
              ReadInt64(d, i) == Val(ReadUint32(d, i).value + 0x1_0000_0000 * ReadInt32(d, i + 4).value)
            else ReadInt64(d, i) == Panic
    ensures if 0 <= i < |d| then ReadBool(d, i) == Val(d[i] == 1) else ReadBool(d, i) == Panic
  {
    if 0 <= i && i + 2 <= |d| { NumberIs(d[i..i + 2]); }
    if 0 <= i && i + 4 <= |d| { NumberIs(d[i..i + 4]); }
    if 0 <= i && i + 8 <= |d| {
      NumberIs(d[i + 4..i + 4 + 4]);
      NumberOfEight(d[i..i + 8]);
      assert d[i..i + 8][..4] == d[i..i + 4] && d[i..i + 8][4..] == d[i + 4..i + 4 + 4];
    }
    hide Number;
  }

  // ----- Tables

  datatype Table = Table(bytes: Bytes, pos: int) {
    /** Where the field of a vtable slot lies behind the table's start; 0 if it is not there. */
    function Offset(slot: nat): Read<nat> {
      var back :- ReadInt32(bytes, pos);
      var vtable := pos - back;
      var size :- ReadUint16(bytes, vtable);
      if slot < size then ReadUint16(bytes, vtable + slot) else Val(0)
    }

    function Indirect(at: int): Read<int> {
      var off :- ReadUint32(bytes, at);
      Val(at + off)
    }

    function ByteVector(at: int): Read<Bytes> {
      var start :- Indirect(at);
      var length :- ReadUint32(bytes, start);
      Slice(bytes, start + 4, length)
    }

    function Vector(off: int): Read<int> {
      var start :- Indirect(pos + off);
      Val(start + 4)
    }

    function VectorLen(off: int): Read<nat> {
      var start :- Indirect(pos + off);
      ReadUint32(bytes, start)
    }

    // The three kinds of accessor flatc generates.

    function StringField(slot: nat): Read<Option<Bytes>> {
      var o :- Offset(slot);
      if o == 0 then
        Val(None)
      else
        var s :- ByteVector(o + pos);
        Val(Some(s))
    }

    function Int64Field(slot: nat): Read<int> {
      var o :- Offset(slot);
      if o == 0 then Val(0) else ReadInt64(bytes, o + pos)
    }

    function BoolField(slot: nat): Read<bool> {
      var o :- Offset(slot);
      if o == 0 then Val(false) else ReadBool(bytes, o + pos)
    }

    /** The same table once more bytes have been put in front of the buffer. */
    function Behind(front: Bytes): Table {
      Table(front + bytes, |front| + pos)
    }
  }

  /**
   Where a reader looks: a signed distance at the table leads back to its vtable, whose first word is its size and whose
   word `slot` is the distance of the field; a field beyond the vtable or at distance 0 has its default.
   */
  lemma FieldsAreFound(t: Table, slot: nat, back: int, size: nat)
    requires ReadInt32(t.bytes, t.pos) == Val(back) && ReadUint16(t.bytes, t.pos - back) == Val(size)
    ensures var o := if slot < size then ReadUint16(t.bytes, t.pos - back + slot) else Val(0);
            if o.Panic? then
              t.StringField(slot) == Panic && t.Int64Field(slot) == Panic && t.BoolField(slot) == Panic
            else if o.value == 0 then
              t.StringField(slot) == Val(None) && t.Int64Field(slot) == Val(0) && t.BoolField(slot) == Val(false)
            else
              var at := t.pos + o.value;
              && t.Int64Field(slot) == ReadInt64(t.bytes, at)
              && t.BoolField(slot) == ReadBool(t.bytes, at)
              && forall off, n | ReadUint32(t.bytes, at) == Val(off) && ReadUint32(t.bytes, at + off) == Val(n)
                   && at + off + 4 + n <= |t.bytes| ::
                   t.StringField(slot) == Val(Some(t.bytes[at + off + 4..at + off + 4 + n]))
  {
    hide ReadInt32, ReadUint16, ReadInt64, ReadBool;
  }

  function GetRoot(bytes: Bytes): Read<Table> {
    var n :- ReadUint32(bytes, 0);
    Val(Table(bytes, n))
  }

  // ----- Nothing a reader can see changes when bytes are put in front

  lemma SliceBehind(d: Bytes, front: Bytes, i: int, n: nat)
    requires Slice(d, i, n).Val?
    ensures Slice(front + d, |front| + i, n) == Slice(d, i, n)
  {
    assert (front + d)[|front| + i..|front| + i + n] == d[i..i + n];
  }

  lemma NumbersBehind(d: Bytes, front: Bytes, i: int)
    ensures ReadUint16(d, i).Val? ==> ReadUint16(front + d, |front| + i) == ReadUint16(d, i)
    ensures ReadUint32(d, i).Val? ==> ReadUint32(front + d, |front| + i) == ReadUint32(d, i)
    ensures ReadInt32(d, i).Val? ==> ReadInt32(front + d, |front| + i) == ReadInt32(d, i)
    ensures ReadInt64(d, i).Val? ==> ReadInt64(front + d, |front| + i) == ReadInt64(d, i)
    ensures ReadBool(d, i).Val? ==> ReadBool(front + d, |front| + i) == ReadBool(d, i)
  {
    hide Number;
    if 0 <= i {
      if i + 1 <= |d| { SliceBehind(d, front, i, 1); }
      if i + 2 <= |d| { SliceBehind(d, front, i, 2); }
      if i + 4 <= |d| { SliceBehind(d, front, i, 4); }
      if i + 8 <= |d| { SliceBehind(d, front, i, 8); }
    }
  }

  lemma OffsetBehind(t: Table, front: Bytes, slot: nat)
    requires t.Offset(slot).Val?
    ensures t.Behind(front).Offset(slot) == t.Offset(slot)
  {
    hide ReadInt32, ReadUint16;
    NumbersBehind(t.bytes, front, t.pos);
    var vtable := t.pos - ReadInt32(t.bytes, t.pos).value;
    NumbersBehind(t.bytes, front, vtable);
    NumbersBehind(t.bytes, front, vtable + slot);
    assert |front| + t.pos - ReadInt32(t.bytes, t.pos).value == |front| + vtable;
    assert |front| + vtable + slot == |front| + (vtable + slot);
  }

  lemma ByteVectorBehind(t: Table, front: Bytes, at: int)
    requires t.ByteVector(at).Val?
    ensures t.Behind(front).ByteVector(|front| + at) == t.ByteVector(at)
  {
    hide ReadUint32, Slice;
    var start := at + ReadUint32(t.bytes, at).value;
    NumbersBehind(t.bytes, front, at);
    NumbersBehind(t.bytes, front, start);
    SliceBehind(t.bytes, front, start + 4, ReadUint32(t.bytes, start).value);
    assert |front| + at + ReadUint32(t.bytes, at).value == |front| + start;
    assert |front| + (start + 4) == |front| + start + 4;
  }

  /** Every accessor that succeeds gives the same value behind any front. */
  lemma FieldsBehind(t: Table, front: Bytes, slot: nat)
    ensures t.StringField(slot).Val? ==> t.Behind(front).StringField(slot) == t.StringField(slot)
    ensures t.Int64Field(slot).Val? ==> t.Behind(front).Int64Field(slot) == t.Int64Field(slot)
    ensures t.BoolField(slot).Val? ==> t.Behind(front).BoolField(slot) == t.BoolField(slot)
  {
    hide Table.Offset, Table.ByteVector, ReadInt64, ReadBool;
    if t.Offset(slot).Val? {
      OffsetBehind(t, front, slot);
      var at := t.Offset(slot).value + t.pos;
      NumbersBehind(t.bytes, front, at);
      if t.ByteVector(at).Val? {
        ByteVectorBehind(t, front, at);
      }
      assert t.Offset(slot).value + (|front| + t.pos) == |front| + at;
    }
  }
}
