/**
 Writing a pickle into a buffer that grows, reading it back with an iterator, and finding where one
 pickle ends in a stream of them.
 */
module Pickle {
  import opened Bytes
  import opened Wire
  import opened PickleFormat

  const PAYLOAD_UNIT: nat := 64
  const HEAP_ALIGN: nat := 4096

  // ---------------------------------------------------------------------------
  // Finding the end
  // ---------------------------------------------------------------------------

  function ClampAdd(a: nat, b: nat, sizeMax: nat): (r: nat)
  {
    if a + b > sizeMax then sizeMax else a + b
  }

  /** The size of the pickle at the start of the range; `sizeMax` is the largest `size_t`. */
  function PeekNext(headerSize: nat, range: seq<byte>, sizeMax: nat): (r: Option<nat>)
  {
    if |range| < 4 || |range| < headerSize then None
    else Some(ClampAdd(headerSize, FromLittleEndian(range[..4]), sizeMax))
  }

  function FindNext(headerSize: nat, range: seq<byte>, sizeMax: nat): (r: Option<nat>)
  {
    var size := PeekNext(headerSize, range, sizeMax);
    if size.None? || size.value > |range| then None else size
  }

  /** The header of a pickle: its first four bytes give the size of the payload after it. */
  ghost predicate WellFormed(data: seq<byte>, headerSize: nat)
  {
    && 4 <= headerSize <= |data| && headerSize % UNIT == 0
    && |data| - headerSize < TWO32 && data[..4] == LittleEndian(4, |data| - headerSize)
  }

  lemma HeaderSays(data: seq<byte>, headerSize: nat)
    requires WellFormed(data, headerSize)
    ensures FromLittleEndian(data[..4]) == |data| - headerSize
  {
    Pow256Values();
    LittleEndianExact(4, |data| - headerSize);
  }

  /** The end of a pickle is found exactly, whatever follows it. */
  lemma FindsTheEnd(data: seq<byte>, headerSize: nat, tail: seq<byte>, sizeMax: nat)
    requires WellFormed(data, headerSize) && |data| <= sizeMax
    ensures FindNext(headerSize, data + tail, sizeMax) == Some(|data|)
  {
    hide FromLittleEndian, LittleEndian;
    HeaderSays(data, headerSize);
    assert (data + tail)[..4] == data[..4];
  }

  /** The size announced by a header that is there; the largest possible if it would be larger. */
  lemma PeekNextIff(headerSize: nat, range: seq<byte>, sizeMax: nat, size: nat)
    requires headerSize >= 4
    ensures PeekNext(headerSize, range, sizeMax) == Some(size) <==>
            && headerSize <= |range| && size <= sizeMax
            && (size == headerSize + FromLittleEndian(range[..4]) || (size == sizeMax < headerSize + FromLittleEndian(range[..4])))
  {
    hide FromLittleEndian;
  }

  /** On any bytes at all: an end is found if and only if the range holds the whole of what the header
      announces, and then it is that end. */
  lemma FindNextIff(headerSize: nat, range: seq<byte>, sizeMax: nat, e: nat)
    requires headerSize >= 4 && |range| < sizeMax
    ensures FindNext(headerSize, range, sizeMax) == Some(e) <==>
            headerSize <= |range| && e == headerSize + FromLittleEndian(range[..4]) && e <= |range|
  {
    hide FromLittleEndian;
  }

  /** A pickle over constant data deduces its header size; unsigned 32-bit arithmetic. */
  function DeduceHeader(data: seq<byte>): (r: Option<nat>)
  {
    if |data| < 4 then None
    else
      var size := (|data| + TWO32 - FromLittleEndian(data[..4])) % TWO32;
      if size > |data| || size % UNIT != 0 || size == 0 then None else Some(size)
  }

  /** Accepted exactly when the announced payload fits and leaves an aligned, non-empty header; so the
      payload read from always lies within the data. */
  lemma DeduceHeaderIff(data: seq<byte>, size: nat)
    requires 4 <= |data| < TWO31
    ensures DeduceHeader(data) == Some(size) <==>
            size > 0 && size % UNIT == 0 && size + FromLittleEndian(data[..4]) == |data|
  {
    hide FromLittleEndian;
    Pow256Values();
    var n := FromLittleEndian(data[..4]);
    if n <= |data| {
      ModUnique(|data| + TWO32 - n, TWO32, 1, |data| - n);
    } else {
      ModSmall(|data| + TWO32 - n, TWO32);
    }
  }

  lemma DeducesItsHeader(data: seq<byte>, headerSize: nat)
    requires WellFormed(data, headerSize) && |data| < TWO31
    ensures DeduceHeader(data) == Some(headerSize)
  {
    hide DeduceHeader, FromLittleEndian, LittleEndian;
    HeaderSays(data, headerSize);
    DeduceHeaderIff(data, headerSize);
  }

  // ---------------------------------------------------------------------------
  // Writing
  // ---------------------------------------------------------------------------

  /** The capacity asked for when `size` bytes no longer fit: it about doubles, unless more is needed. */
  function Grown(capacity: nat, size: nat): (c: nat)
    ensures c >= size && c >= 2 * capacity - 64
    ensures c <= 2 * capacity + 4096 || c == size
  {
    var twice := 2 * capacity;
    var c := if twice > HEAP_ALIGN then Align(twice, HEAP_ALIGN) - PAYLOAD_UNIT else twice;
    if c > size then c else size
  }

  function Max(a: nat, b: nat): (r: nat) { if a < b then b else a }

  /** `d` over the bytes of `s` from `at` on. */
  function Put(s: seq<byte>, at: nat, d: seq<byte>): (r: seq<byte>)
    requires at + |d| <= |s|
    ensures |r| == |s|
  {
    s[..at] + d + s[at + |d|..]
  }

  lemma PutSlices(s: seq<byte>, at: nat, d: seq<byte>, lo: nat, hi: nat)
    requires at + |d| <= |s| && lo <= hi <= |s|
    ensures Put(s, at, d)[at..at + |d|] == d
    ensures hi <= at || at + |d| <= lo ==> Put(s, at, d)[lo..hi] == s[lo..hi]
  {
    var r := Put(s, at, d);
    assert forall i | 0 <= i < |d| :: r[at + i] == d[i];
    assert r[at..at + |d|] == d;
    if hi <= at || at + |d| <= lo {
      assert forall i | lo <= i < hi :: r[i] == s[i];
      assert r[lo..hi] == s[lo..hi];
    }
  }

  lemma PrefixSlice(s: seq<byte>, t: seq<byte>, n: nat, lo: nat, hi: nat)
    requires n <= |s| && n <= |t| && s[..n] == t[..n] && lo <= hi <= n
    ensures s[lo..hi] == t[lo..hi]
  {
    assert s[lo..hi] == s[..n][lo..hi] && t[lo..hi] == t[..n][lo..hi];
  }

  /** `memcpy` and `memset`. */
  method CopyBytes(a: array<byte>, at: nat, data: seq<byte>)
    requires at + |data| <= a.Length
    modifies a
    ensures a[..] == Put(old(a[..]), at, data)
  {
    forall i | 0 <= i < |data| {
      a[at + i] := data[i];
    }
  }

  class Pickle {
    const headerSize: nat
    var buffer: array<byte>
    var capacityAfterHeader: nat
    var writeOffset: nat

    ghost predicate Shape()
      reads this
    {
      && headerSize % UNIT == 0 && 4 <= headerSize <= PAYLOAD_UNIT
      && capacityAfterHeader % PAYLOAD_UNIT == 0
      && buffer.Length == headerSize + capacityAfterHeader
      && writeOffset % UNIT == 0 && writeOffset <= capacityAfterHeader && writeOffset < TWO32
    }

    ghost predicate Valid()
      reads this, buffer
    {
      Shape() && buffer[..][0..4] == LittleEndian(4, writeOffset)
    }

    ghost function Payload(): (s: seq<byte>)
      requires Shape()
      reads this, buffer
      ensures |s| == writeOffset
    {
      buffer[..][headerSize..headerSize + writeOffset]
    }

    /** The user's part of the header. */
    ghost function HeaderRest(): seq<byte>
      requires Shape()
      reads this, buffer
    {
      buffer[..][4..headerSize]
    }

    /** Header and payload. */
    ghost function Data(): (s: seq<byte>)
      requires Shape()
      reads this, buffer
      ensures |s| == headerSize + writeOffset
    {
      buffer[..][..headerSize + writeOffset]
    }

    lemma DataWellFormed()
      requires Valid()
      ensures WellFormed(Data(), headerSize) && Data()[headerSize..] == Payload()
    {
      hide LittleEndian;
      assert Data()[..4] == buffer[..][0..4];
    }

    constructor (header: nat)
      requires 4 <= header <= PAYLOAD_UNIT
      ensures Valid() && Payload() == [] && headerSize == Align(header, UNIT) && fresh(buffer)
    {
      HeaderFits(header);
      var n := Align(header, UNIT);
      headerSize := n;
      capacityAfterHeader := PAYLOAD_UNIT;
      writeOffset := 0;
      var b := new byte[n + PAYLOAD_UNIT];
      ghost var raw := b[..];
      CopyBytes(b, 0, LittleEndian(4, 0));
      buffer := b;
      PutSlices(raw, 0, LittleEndian(4, 0), 0, 0);
    }

    /** A new buffer with the old contents at its start. */
    method Resize(newCapacity: nat)
      requires Shape() && newCapacity >= writeOffset
      modifies this`buffer, this`capacityAfterHeader
      ensures Shape() && fresh(buffer) && capacityAfterHeader == Align(newCapacity, PAYLOAD_UNIT)
      ensures Data() == old(Data())
    {
      hide Align;
      capacityAfterHeader := Align(newCapacity, PAYLOAD_UNIT);
      var b := new byte[headerSize + capacityAfterHeader];
      var keep := if buffer.Length < b.Length then buffer.Length else b.Length;
      forall i | 0 <= i < keep {
        b[i] := buffer[i];
      }
      assert b[..][..headerSize + writeOffset] == buffer[..][..headerSize + writeOffset];
      buffer := b;
    }

    /** Space for what is to come; nothing written changes. */
    method Reserve(length: nat)
      requires Valid()
      modifies this`buffer, this`capacityAfterHeader
      ensures Valid() && (buffer == old(buffer) || fresh(buffer))
      ensures Data() == old(Data()) && capacityAfterHeader >= writeOffset + Align(length, UNIT)
    {
      hide Align, LittleEndian;
      var newSize := writeOffset + Align(length, UNIT);
      if newSize > capacityAfterHeader {
        ghost var before := buffer[..];
        Resize(2 * capacityAfterHeader + newSize);
        PrefixSlice(buffer[..], before, headerSize + writeOffset, 0, 4);
      }
    }

    /** Room for `size` bytes of payload, growing the buffer if there is none. */
    method EnsureCapacity(size: nat)
      requires Shape() && writeOffset <= size
      modifies this`buffer, this`capacityAfterHeader
      ensures Shape() && (buffer == old(buffer) || fresh(buffer)) && size <= capacityAfterHeader
      ensures Data() == old(Data())
      ensures size <= old(capacityAfterHeader) ==> buffer == old(buffer) && capacityAfterHeader == old(capacityAfterHeader)
      ensures size > old(capacityAfterHeader) ==>
                2 * old(capacityAfterHeader) - 64 <= capacityAfterHeader < Max(2 * old(capacityAfterHeader) + 4096, size) + 64
    {
      hide Align, Grown;
      if size > capacityAfterHeader {
        Resize(Grown(capacityAfterHeader, size));
      }
    }

    /** The payload grows by `length` bytes and zero padding, and the header says so; the bytes claimed are
        the caller's to fill. */
    method ClaimUninitializedBytes(length: nat) returns (write: nat)
      requires Valid() && writeOffset + Align(length, UNIT) < TWO32
      modifies this`buffer, this`capacityAfterHeader, this`writeOffset, buffer
      ensures Valid() && (buffer == old(buffer) || fresh(buffer))
      ensures writeOffset == old(writeOffset) + Align(length, UNIT) && write == headerSize + old(writeOffset)
      ensures HeaderRest() == old(HeaderRest()) && buffer[..][headerSize..write] == old(Payload())
      ensures buffer[..][write + length..headerSize + writeOffset] == Padding(Align(length, UNIT) - length)
    {
      hide Align, LittleEndian, Padding, Put;
      var dataLen := Align(length, UNIT);
      var newSize := writeOffset + dataLen;
      AlignedSum(writeOffset, length);
      ghost var b0 := buffer[..];
      EnsureCapacity(newSize);
      write := headerSize + writeOffset;
      ghost var b1 := buffer[..];
      var zeros, size := Padding(dataLen - length), LittleEndian(4, newSize);
      CopyBytes(buffer, write + length, zeros);
      CopyBytes(buffer, 0, size);
      writeOffset := newSize;
      PrefixSlice(b1, b0, write, 4, headerSize);
      PrefixSlice(b1, b0, write, headerSize, write);
      Claimed(b1, headerSize, write, length, zeros, size);
    }

    /** Every write: the payload gains the data, padded. */
    method WriteBytes(data: seq<byte>)
      requires Valid() && writeOffset + Align(|data|, UNIT) < TWO32
      modifies this`buffer, this`capacityAfterHeader, this`writeOffset, buffer
      ensures Valid() && (buffer == old(buffer) || fresh(buffer))
      ensures Payload() == old(Payload()) + Pad(data) && HeaderRest() == old(HeaderRest())
    {
      hide Align, LittleEndian, Padding, Put, Pad;
      var write := ClaimUninitializedBytes(|data|);
      ghost var b := buffer[..];
      CopyBytes(buffer, write, data);
      Filled(b, headerSize, write, data, headerSize + writeOffset);
    }

    /** A 32-bit length, then what it counts. */
    method WriteCounted(length: nat, data: seq<byte>)
      requires Valid() && writeOffset + |Counted(length, data)| < TWO32
      modifies this`buffer, this`capacityAfterHeader, this`writeOffset, buffer
      ensures Valid() && (buffer == old(buffer) || fresh(buffer))
      ensures Payload() == old(Payload()) + Counted(length, data) && HeaderRest() == old(HeaderRest())
    {
      hide Align, LittleEndian, Pad, SignedBytes;
      ghost var before := Payload();
      AlignWord(4);
      WriteBytes(SignedBytes(4, length));
      WriteBytes(data);
      assert before + Pad(SignedBytes(4, length)) + Pad(data) == before + (Pad(SignedBytes(4, length)) + Pad(data));
    }

    /** The typed writes: a boolean as a 32-bit integer, integers by width, strings and blobs with a length. */
    method Write(f: Field)
      requires Valid() && writeOffset + |Encode(f)| < TWO32
      modifies this`buffer, this`capacityAfterHeader, this`writeOffset, buffer
      ensures Valid() && (buffer == old(buffer) || fresh(buffer))
      ensures Payload() == old(Payload()) + Encode(f) && HeaderRest() == old(HeaderRest())
    {
      hide Align, LittleEndian, Pad, SignedBytes, Counted, WideBytes;
      match f {
        case Bool(b) => WriteBytes(SignedBytes(4, if b then 1 else 0));
        case Int(width, i) => WriteBytes(SignedBytes(width, i));
        case UInt(width, u) => WriteBytes(LittleEndian(width, u));
        case Blob(data) => WriteCounted(|data|, data);
        case Wide(units) => WriteCounted(|units|, WideBytes(units));
        case Raw(data) => WriteBytes(data);
      }
    }

    /** A deep copy. */
    constructor Copy(other: Pickle)
      requires other.Valid()
      ensures Valid() && Data() == other.Data() && headerSize == other.headerSize && fresh(buffer)
    {
      hide Align, LittleEndian;
      headerSize := other.headerSize;
      writeOffset := other.writeOffset;
      var capacity := Align(other.writeOffset, PAYLOAD_UNIT);
      capacityAfterHeader := capacity;
      var b := new byte[other.headerSize + capacity];
      var n := other.headerSize + other.writeOffset;
      forall i | 0 <= i < n {
        b[i] := other.buffer[i];
      }
      buffer := b;
      assert b[..][..n] == other.buffer[..][..n];
      PrefixSlice(b[..], other.buffer[..], n, 0, 4);
    }
  }

  /** What claiming leaves in each part of the buffer. */
  lemma Claimed(b: seq<byte>, header: nat, write: nat, length: nat, zeros: seq<byte>, size: seq<byte>)
    requires |size| == 4 <= header <= write && write + length + |zeros| <= |b|
    ensures var r := Put(Put(b, write + length, zeros), 0, size);
            && r[0..4] == size && r[4..header] == b[4..header] && r[header..write] == b[header..write]
            && r[write + length..write + length + |zeros|] == zeros
  {
    hide Put;
    var c := Put(b, write + length, zeros);
    PutSlices(b, write + length, zeros, 4, header);
    PutSlices(b, write + length, zeros, header, write);
    PutSlices(c, 0, size, 4, header);
    PutSlices(c, 0, size, header, write);
    PutSlices(c, 0, size, write + length, write + length + |zeros|);
  }

  /** What filling the claimed bytes leaves. */
  lemma Filled(b: seq<byte>, header: nat, write: nat, data: seq<byte>, end: nat)
    requires 4 <= header <= write && write + |data| <= end <= |b|
    requires b[write + |data|..end] == Padding(Align(|data|, UNIT) - |data|)
    ensures var r := Put(b, write, data);
            && r[0..4] == b[0..4] && r[4..header] == b[4..header]
            && r[header..end] == b[header..write] + Pad(data)
  {
    hide Put, Align, Padding;
    var r := Put(b, write, data);
    PutSlices(b, write, data, 0, 4);
    PutSlices(b, write, data, 4, header);
    PutSlices(b, write, data, header, write);
    PutSlices(b, write, data, write + |data|, end);
    assert r[header..end] == r[header..write] + (r[write..write + |data|] + r[write + |data|..end]);
  }

  lemma AlignedSum(a: nat, length: nat)
    requires a % UNIT == 0
    ensures (a + Align(length, UNIT)) % UNIT == 0
  {
    var b := Align(length, UNIT);
    ModUnique(a + b, UNIT, a / UNIT + b / UNIT, 0);
  }

  lemma HeaderFits(header: nat)
    requires 4 <= header <= PAYLOAD_UNIT
    ensures 4 <= Align(header, UNIT) <= PAYLOAD_UNIT
  {
  }

  // ---------------------------------------------------------------------------
  // Reading
  // ---------------------------------------------------------------------------

  class PickleIterator {
    const payload: seq<byte>
    var readIndex: nat

    /** On any payload: the read index never passes the end. */
    ghost predicate Valid()
      reads this
    {
      readIndex <= |payload|
    }

    constructor (bytes: seq<byte>)
      ensures Valid() && payload == bytes && readIndex == 0
    {
      payload, readIndex := bytes, 0;
    }

    method AdvanceBy(size: nat)
      requires Valid()
      modifies this
      ensures Valid() && readIndex == Advance(old(readIndex), size, |payload|)
    {
      var alignedSize := Align(size, UNIT);
      if |payload| - readIndex < alignedSize {
        readIndex := |payload|;
      } else {
        readIndex := readIndex + alignedSize;
      }
    }

    /** The bytes at the read index, which moves on; or nothing, and it moves to the end. */
    method GetReadPointerAndAdvance(numBytes: int) returns (r: Option<seq<byte>>)
      requires Valid()
      modifies this
      ensures Valid() && Got(r, readIndex) == Take(payload, old(readIndex), numBytes)
    {
      if numBytes < 0 || |payload| - readIndex < numBytes {
        readIndex := |payload|;
        return None;
      }
      r := Some(payload[readIndex..readIndex + numBytes]);
      AdvanceBy(numBytes);
    }

    /** Succeeds exactly when there are as many bytes; if not, all that are left are skipped. */
    method SkipBytes(numBytes: int) returns (ok: bool)
      requires Valid()
      modifies this
      ensures Valid() && ok == (0 <= numBytes <= |payload| - old(readIndex))
      ensures readIndex == if ok then Advance(old(readIndex), numBytes, |payload|) else |payload|
    {
      var r := GetReadPointerAndAdvance(numBytes);
      ok := r.Some?;
    }

    method ReadInt() returns (r: Option<int>)
      requires Valid()
      modifies this
      ensures Valid() && Got(r, readIndex) == ReadLength(payload, old(readIndex))
    {
      hide Take;
      var t := GetReadPointerAndAdvance(4);
      r := if t.Some? then Some(Signed(t.value)) else None;
    }

    method GetWide(length: int) returns (r: Option<seq<byte>>)
      requires Valid()
      modifies this
      ensures Valid() && Got(r, readIndex) == TakeWide(payload, old(readIndex), length)
    {
      hide Take;
      if length < 0 || 2 * length >= TWO31 {
        return None;
      }
      r := GetReadPointerAndAdvance(2 * length);
    }

    /** The typed reads. */
    method ReadOne(k: Kind) returns (r: Option<Field>)
      requires Valid()
      modifies this
      ensures Valid() && Got(r, readIndex) == Read(k, payload, old(readIndex))
    {
      hide Take, TakeWide, ReadLength, Signed, FromLittleEndian, FromWide;
      match k {
        case KBool =>
          var t := GetReadPointerAndAdvance(1);
          r := if t.Some? then Some(Bool(t.value[0] != 0)) else None;
        case KInt(width) =>
          var t := GetReadPointerAndAdvance(width);
          r := if t.Some? then Some(Int(width, Signed(t.value))) else None;
        case KUInt(width) =>
          var t := GetReadPointerAndAdvance(width);
          r := if t.Some? then Some(UInt(width, FromLittleEndian(t.value))) else None;
        case KBlob =>
          var n := ReadInt();
          if n.None? {
            return None;
          }
          var t := GetReadPointerAndAdvance(n.value);
          r := if t.Some? then Some(Blob(t.value)) else None;
        case KWide =>
          var n := ReadInt();
          if n.None? {
            return None;
          }
          var t := GetWide(n.value);
          r := if t.Some? then Some(Wide(FromWide(t.value))) else None;
        case KRaw(length) =>
          var t := GetReadPointerAndAdvance(length);
          r := if t.Some? then Some(Raw(t.value)) else None;
      }
    }
  }

  /** Values written one after another to a fresh pickle, through however many regrowths, then read back. */
  method WriteAll(fields: seq<Field>) returns (p: Pickle)
    requires |EncodeAll(fields)| < TWO32
    ensures fresh(p) && p.Valid() && p.Payload() == EncodeAll(fields)
  {
    hide Encode, LittleEndian;
    p := new Pickle(4);
    EncodeNothing();
    for i := 0 to |fields|
      invariant fresh(p) && fresh(p.buffer) && p.Valid()
      invariant p.Payload() == EncodeAll(fields[..i])
    {
      EncodeAllNext(fields, i);
      var _ := EncodeAllSplit(fields, i + 1);
      p.Write(fields[i]);
    }
    assert fields[..|fields|] == fields;
  }

  method ReadBack(fields: seq<Field>, payload: seq<byte>) returns (r: seq<Field>, atEnd: bool)
    requires ValidFields(fields) && payload == EncodeAll(fields)
    ensures r == fields && atEnd
  {
    hide Encode, EncodeAll, ValidField, Read;
    var it := new PickleIterator(payload);
    r := [];
    EncodeNothing();
    for i := 0 to |fields|
      invariant fresh(it) && it.Valid() && it.payload == payload
      invariant r == fields[..i] && it.readIndex == |EncodeAll(fields[..i])|
    {
      EncodeAllNext(fields, i);
      ghost var after := EncodeAllSplit(fields, i + 1);
      ghost var before := EncodeAll(fields[..i]);
      assert payload == before + (Encode(fields[i]) + after);
      FieldReadsBack(fields[i], before, after);
      var f := it.ReadOne(KindOf(fields[i]));
      r := r + [f.value];
    }
    assert fields[..|fields|] == fields;
    atEnd := it.readIndex == |payload|;
  }
}
