/**
 What a pickle's payload looks like: values one after another, each padded to four bytes, little-endian;
 and what reading one value from any payload gives.
 */
module PickleFormat {
  import opened Bytes
  import opened Wire

  const UNIT: nat := 4
  const TWO31: nat := 0x8000_0000

  /** `size` rounded up to a multiple of `alignment`. */
  function Align(size: nat, alignment: nat): (r: nat)
    requires alignment > 0
    ensures size <= r < size + alignment && r % alignment == 0
  {
    RoundedUp(size, alignment);
    (size + alignment - 1) / alignment * alignment
  }

  lemma RoundedUp(size: nat, alignment: nat)
    requires alignment > 0
    ensures var r := (size + alignment - 1) / alignment * alignment;
            size <= r < size + alignment && r % alignment == 0
  {
    var q := (size + alignment - 1) / alignment;
    var d := (size + alignment - 1) % alignment;
    assert size + alignment - 1 == alignment * q + d;
    ModUnique(q * alignment, alignment, q, 0);
  }

  /** Integers of 2, 4 and 8 bytes (floating-point values by their bits), strings and blobs with a length,
      strings of 16-bit units, and raw bytes whose length the reader must know. */
  datatype Field =
    | Bool(b: bool)
    | Int(width: nat, i: int)
    | UInt(width: nat, u: nat)
    | Blob(data: seq<byte>)
    | Wide(units: seq<nat>)
    | Raw(data: seq<byte>)

  datatype Kind = KBool | KInt(width: nat) | KUInt(width: nat) | KBlob | KWide | KRaw(length: int)

  function KindOf(f: Field): (k: Kind)
  {
    match f
    case Bool(_) => KBool
    case Int(width, _) => KInt(width)
    case UInt(width, _) => KUInt(width)
    case Blob(_) => KBlob
    case Wide(_) => KWide
    case Raw(data) => KRaw(|data|)
  }

  ghost predicate InRange(width: nat, i: int)
  {
    0 <= i + Pow256(width) / 2 < Pow256(width)
  }

  ghost predicate ValidField(f: Field)
  {
    match f
    case Bool(_) => true
    case Int(width, i) => width in {4, 8} && InRange(width, i)
    case UInt(width, u) => width in {2, 4, 8} && u < Pow256(width)
    case Blob(data) => |data| < TWO31
    case Wide(units) => 2 * |units| < TWO31 && forall k | 0 <= k < |units| :: units[k] < TWO16
    case Raw(data) => |data| < TWO31
  }

  // ---------------------------------------------------------------------------
  // Writing
  // ---------------------------------------------------------------------------

  function Padding(n: nat): (s: seq<byte>)
    ensures |s| == n
  {
    seq(n, _ => 0)
  }

  function Pad(s: seq<byte>): (r: seq<byte>)
    ensures |r| == Align(|s|, UNIT)
  {
    s + Padding(Align(|s|, UNIT) - |s|)
  }

  /** Two's complement in `width` bytes. */
  function SignedBytes(width: nat, i: int): (s: seq<byte>)
    ensures |s| == width
  {
    LittleEndian(width, i % Pow256(width))
  }

  function WideBytes(units: seq<nat>): (s: seq<byte>)
    ensures |s| == 2 * |units|
  {
    if units == [] then [] else LittleEndian(2, units[0]) + WideBytes(units[1..])
  }

  /** A 32-bit length and what it counts. */
  function Counted(n: nat, s: seq<byte>): (r: seq<byte>)
    ensures |r| >= 4
  {
    AlignWord(4);
    Pad(SignedBytes(4, n)) + Pad(s)
  }

  /** The pieces a value is written in; each is padded on its own. */
  function Encode(f: Field): (s: seq<byte>)
  {
    match f
    case Bool(b) => Pad(SignedBytes(4, if b then 1 else 0))
    case Int(width, i) => Pad(SignedBytes(width, i))
    case UInt(width, u) => Pad(LittleEndian(width, u))
    case Blob(data) => Counted(|data|, data)
    case Wide(units) => Counted(|units|, WideBytes(units))
    case Raw(data) => Pad(data)
  }

  function EncodeAll(fields: seq<Field>): (s: seq<byte>)
  {
    if fields == [] then [] else EncodeAll(fields[..|fields| - 1]) + Encode(fields[|fields| - 1])
  }

  // ---------------------------------------------------------------------------
  // Reading
  // ---------------------------------------------------------------------------

  /** A value read, or none, and the read index afterwards. */
  datatype Got<+T> = Got(value: Option<T>, index: nat)

  /** The read index keeps to the end of the payload. */
  function Advance(index: nat, size: nat, end: nat): (r: nat)
    requires index <= end
    ensures index <= r <= end
  {
    if end - index < Align(size, UNIT) then end else index + Align(size, UNIT)
  }

  function Take(p: seq<byte>, index: nat, n: int): (r: Got<seq<byte>>)
    requires index <= |p|
    ensures index <= r.index <= |p|
    ensures r.value.Some? ==> |r.value.value| == n
  {
    if n < 0 || |p| - index < n then Got(None, |p|)
    else Got(Some(p[index..index + n]), Advance(index, n, |p|))
  }

  /** A failed skip leaves the index where it was if and only if it was at the end already. */
  lemma FailedSkipStaysIff(p: seq<byte>, index: nat, n: int)
    requires index <= |p| && Take(p, index, n).value.None?
    ensures Take(p, index, n).index == index <==> index == |p|
  {
  }

  /** Skipping five of four bytes skips all four. */
  lemma FailedSkipMoves()
    ensures Take([1, 2, 3, 4], 0, 5) == Got(None, 4)
  {
  }

  function Signed(s: seq<byte>): (i: int)
  {
    var u := FromLittleEndian(s);
    if u < Pow256(|s|) / 2 then u else u - Pow256(|s|)
  }

  function ReadLength(p: seq<byte>, index: nat): (r: Got<int>)
    requires index <= |p|
    ensures index <= r.index <= |p|
  {
    var t := Take(p, index, 4);
    Got(if t.value.Some? then Some(Signed(t.value.value)) else None, t.index)
  }

  function FromWide(s: seq<byte>): (units: seq<nat>)
  {
    if |s| < 2 then [] else [FromLittleEndian(s[..2])] + FromWide(s[2..])
  }

  /** A count of 16-bit units whose size in bytes is no 32-bit integer fails where it stands. */
  function TakeWide(p: seq<byte>, index: nat, length: int): (r: Got<seq<byte>>)
    requires index <= |p|
    ensures index <= r.index <= |p|
    ensures r.value.Some? ==> |r.value.value| == 2 * length
  {
    if length < 0 || 2 * length >= TWO31 then Got(None, index) else Take(p, index, 2 * length)
  }

  function Read(k: Kind, p: seq<byte>, index: nat): (r: Got<Field>)
    requires index <= |p|
    ensures index <= r.index <= |p|
  {
    match k
    case KBool =>
      var t := Take(p, index, 1);
      Got(if t.value.Some? then Some(Bool(t.value.value[0] != 0)) else None, t.index)
    case KInt(width) =>
      var t := Take(p, index, width);
      Got(if t.value.Some? then Some(Int(width, Signed(t.value.value))) else None, t.index)
    case KUInt(width) =>
      var t := Take(p, index, width);
      Got(if t.value.Some? then Some(UInt(width, FromLittleEndian(t.value.value))) else None, t.index)
    case KBlob =>
      var n := ReadLength(p, index);
      if n.value.None? then Got(None, n.index)
      else
        var t := Take(p, n.index, n.value.value);
        Got(if t.value.Some? then Some(Blob(t.value.value)) else None, t.index)
    case KWide =>
      var n := ReadLength(p, index);
      if n.value.None? then Got(None, n.index)
      else
        var t := TakeWide(p, n.index, n.value.value);
        Got(if t.value.Some? then Some(Wide(FromWide(t.value.value))) else None, t.index)
    case KRaw(length) =>
      var t := Take(p, index, length);
      Got(if t.value.Some? then Some(Raw(t.value.value)) else None, t.index)
  }

  function ReadAll(kinds: seq<Kind>, p: seq<byte>, index: nat): (r: Got<seq<Field>>)
    requires index <= |p|
    ensures index <= r.index <= |p|
    decreases |kinds|
  {
    if kinds == [] then Got(Some([]), index)
    else
      var first := Read(kinds[0], p, index);
      if first.value.None? then Got(None, first.index)
      else
        var rest := ReadAll(kinds[1..], p, first.index);
        Got(if rest.value.Some? then Some([first.value.value] + rest.value.value) else None, rest.index)
  }

  // ---------------------------------------------------------------------------
  // Reading what was written
  // ---------------------------------------------------------------------------

  lemma IntModSmall(i: int, m: nat)
    requires m > 0 && 0 <= i + m && i < m
    ensures i % m == if i >= 0 then i else i + m
  {
    var r := if i >= 0 then i else i + m;
    var d := i / m - if i >= 0 then 0 else -1;
    assert m * d == r - i % m;
  }

  lemma Pow256Even(width: nat)
    requires width > 0
    ensures Pow256(width) % 2 == 0
  {
    assert Pow256(width) == 256 * Pow256(width - 1);
  }

  lemma SignedReadsBack(width: nat, i: int)
    requires width > 0 && InRange(width, i)
    ensures Signed(SignedBytes(width, i)) == i
  {
    hide LittleEndian, FromLittleEndian, Pow256;
    Pow256Even(width);
    IntModSmall(i, Pow256(width));
    LittleEndianExact(width, i % Pow256(width));
  }

  lemma {:induction false} WideReadsBack(units: seq<nat>)
    requires forall k | 0 <= k < |units| :: units[k] < TWO16
    ensures FromWide(WideBytes(units)) == units
  {
    if units != [] {
      var s := WideBytes(units);
      Pow256Values();
      LittleEndianExact(2, units[0]);
      assert s[..2] == LittleEndian(2, units[0]) && s[2..] == WideBytes(units[1..]);
      WideReadsBack(units[1..]);
    }
  }

  /** A padded piece in the middle of a payload is taken out whole, padding and all. */
  lemma TakePiece(before: seq<byte>, s: seq<byte>, after: seq<byte>, n: nat)
    requires n <= |s| && Align(n, UNIT) == Align(|s|, UNIT)
    ensures Take(before + (Pad(s) + after), |before|, n) == Got(Some(s[..n]), |before| + |Pad(s)|)
  {
    hide Align;
    var p := before + (Pad(s) + after);
    assert p[|before|..|before| + n] == s[..n];
  }

  lemma LengthReadsBack(before: seq<byte>, n: nat, after: seq<byte>)
    requires n < TWO31
    ensures ReadLength(before + (Pad(SignedBytes(4, n)) + after), |before|) == Got(Some(n), |before| + 4)
  {
    hide Align, Take, Signed, SignedBytes;
    var s := SignedBytes(4, n);
    Pow256Values();
    SignedReadsBack(4, n);
    AlignWord(4);
    TakePiece(before, s, after, 4);
    assert s[..4] == s;
  }

  lemma AlignWord(n: nat)
    ensures 0 < n <= 4 ==> Align(n, UNIT) == 4
    ensures n == 8 ==> Align(n, UNIT) == 8
  {
  }

  ghost predicate ReadsBack(f: Field, before: seq<byte>, after: seq<byte>)
  {
    Read(KindOf(f), before + (Encode(f) + after), |before|) == Got(Some(f), |before| + |Encode(f)|)
  }

  lemma BoolReadsBack(b: bool, before: seq<byte>, after: seq<byte>)
    ensures ReadsBack(Bool(b), before, after)
  {
    hide Align, Take, LittleEndian;
    var s := SignedBytes(4, if b then 1 else 0);
    AlignWord(1);
    AlignWord(4);
    TakePiece(before, s, after, 1);
    BoolByte(b);
  }

  lemma BoolByte(b: bool)
    ensures SignedBytes(4, if b then 1 else 0)[0] == if b then 1 else 0
  {
    Pow256Values();
  }

  lemma IntReadsBack(width: nat, i: int, before: seq<byte>, after: seq<byte>)
    requires width in {4, 8} && InRange(width, i)
    ensures ReadsBack(Int(width, i), before, after)
  {
    hide Align, Take, LittleEndian, Signed, SignedBytes;
    var s := SignedBytes(width, i);
    SignedReadsBack(width, i);
    TakePiece(before, s, after, width);
    assert s[..width] == s;
  }

  lemma UIntReadsBack(width: nat, u: nat, before: seq<byte>, after: seq<byte>)
    requires u < Pow256(width)
    ensures ReadsBack(UInt(width, u), before, after)
  {
    hide Align, Take, LittleEndian, FromLittleEndian;
    var s := LittleEndian(width, u);
    LittleEndianExact(width, u);
    TakePiece(before, s, after, width);
    assert s[..width] == s;
  }

  /** Two pieces: a length and what it counts. */
  lemma TwoPieces(before: seq<byte>, n: nat, s: seq<byte>, after: seq<byte>, p: seq<byte>)
    requires n < TWO31 && p == before + (Counted(n, s) + after)
    ensures ReadLength(p, |before|) == Got(Some(n), |before| + 4)
    ensures Take(p, |before| + 4, |s|) == Got(Some(s), |before| + |Counted(n, s)|)
  {
    hide Align, Take, ReadLength, SignedBytes, Pad;
    var head := Pad(SignedBytes(4, n));
    AlignWord(4);
    LengthReadsBack(before, n, Pad(s) + after);
    TakePiece(before + head, s, after, |s|);
    assert s[..|s|] == s;
    assert before + (head + (Pad(s) + after)) == p;
    assert before + head + (Pad(s) + after) == p;
  }

  lemma BlobReadsBack(data: seq<byte>, before: seq<byte>, after: seq<byte>)
    requires |data| < TWO31
    ensures ReadsBack(Blob(data), before, after)
  {
    hide Align, Take, ReadLength, SignedBytes, Pad;
    TwoPieces(before, |data|, data, after, before + (Counted(|data|, data) + after));
  }

  lemma WideFieldReadsBack(units: seq<nat>, before: seq<byte>, after: seq<byte>)
    requires 2 * |units| < TWO31 && forall k | 0 <= k < |units| :: units[k] < TWO16
    ensures ReadsBack(Wide(units), before, after)
  {
    hide Align, Take, ReadLength, SignedBytes, Pad, WideBytes, FromWide;
    var s := WideBytes(units);
    TwoPieces(before, |units|, s, after, before + (Counted(|units|, s) + after));
    WideReadsBack(units);
  }

  lemma RawReadsBack(data: seq<byte>, before: seq<byte>, after: seq<byte>)
    ensures ReadsBack(Raw(data), before, after)
  {
    hide Align, Take;
    TakePiece(before, data, after, |data|);
    assert data[..|data|] == data;
  }

  lemma FieldReadsBack(f: Field, before: seq<byte>, after: seq<byte>)
    requires ValidField(f)
    ensures ReadsBack(f, before, after)
  {
    hide ReadsBack;
    match f {
      case Bool(b) => BoolReadsBack(b, before, after);
      case Int(width, i) => IntReadsBack(width, i, before, after);
      case UInt(width, u) => UIntReadsBack(width, u, before, after);
      case Blob(data) => BlobReadsBack(data, before, after);
      case Wide(units) => WideFieldReadsBack(units, before, after);
      case Raw(data) => RawReadsBack(data, before, after);
    }
  }

  ghost predicate ValidFields(fields: seq<Field>)
  {
    forall i | 0 <= i < |fields| :: ValidField(fields[i])
  }

  function KindsOf(fields: seq<Field>): (ks: seq<Kind>)
    ensures |ks| == |fields| && forall i | 0 <= i < |fields| :: ks[i] == KindOf(fields[i])
  {
    seq(|fields|, i requires 0 <= i < |fields| => KindOf(fields[i]))
  }

  lemma {:induction false} EncodeAllSplit(fields: seq<Field>, k: nat) returns (after: seq<byte>)
    requires k <= |fields|
    ensures EncodeAll(fields) == EncodeAll(fields[..k]) + after
    decreases |fields|
  {
    hide Encode;
    if k == |fields| {
      assert fields[..k] == fields;
      after := [];
    } else {
      var front := fields[..|fields| - 1];
      after := EncodeAllSplit(front, k);
      assert front[..k] == fields[..k];
      after := after + Encode(fields[|fields| - 1]);
    }
  }

  lemma EncodeAllNext(fields: seq<Field>, k: nat)
    requires k < |fields|
    ensures EncodeAll(fields[..k + 1]) == EncodeAll(fields[..k]) + Encode(fields[k])
  {
    hide Encode;
    assert fields[..k + 1][..k] == fields[..k];
  }

  lemma ReadAllStep(kinds: seq<Kind>, p: seq<byte>, index: nat, f: Field, next: nat, rest: Got<seq<Field>>)
    requires kinds != [] && index <= |p| && Read(kinds[0], p, index) == Got(Some(f), next)
    requires next <= |p| && ReadAll(kinds[1..], p, next) == rest && rest.value.Some?
    ensures ReadAll(kinds, p, index) == Got(Some([f] + rest.value.value), rest.index)
  {
    hide Read;
  }

  lemma {:induction false} ReadsRest(fields: seq<Field>, k: nat)
    requires ValidFields(fields) && k <= |fields|
    ensures |EncodeAll(fields[..k])| <= |EncodeAll(fields)|
    ensures ReadAll(KindsOf(fields)[k..], EncodeAll(fields), |EncodeAll(fields[..k])|)
            == Got(Some(fields[k..]), |EncodeAll(fields)|)
    decreases |fields| - k
  {
    hide Read, ReadAll, Encode, EncodeAll, ValidField;
    var p, before := EncodeAll(fields), EncodeAll(fields[..k]);
    if k == |fields| {
      assert fields[..k] == fields && fields[k..] == [] && KindsOf(fields)[k..] == [];
      ReadNothing(p, |p|);
    } else {
      var after := EncodeAllSplit(fields, k + 1);
      EncodeAllNext(fields, k);
      ReadsRest(fields, k + 1);
      assert p == before + (Encode(fields[k]) + after);
      FieldReadsBack(fields[k], before, after);
      assert KindsOf(fields)[k..][1..] == KindsOf(fields)[k + 1..];
      ReadAllStep(KindsOf(fields)[k..], p, |before|, fields[k], |before| + |Encode(fields[k])|, Got(Some(fields[k + 1..]), |p|));
      assert fields[k..] == [fields[k]] + fields[k + 1..];
    }
  }

  lemma ReadNothing(p: seq<byte>, index: nat)
    requires index <= |p|
    ensures ReadAll([], p, index) == Got(Some([]), index)
  {
  }

  /** Reading with the same types gives back the same values and ends exactly at the end of the payload. */
  lemma PayloadReadsBack(fields: seq<Field>)
    requires ValidFields(fields)
    ensures ReadAll(KindsOf(fields), EncodeAll(fields), 0) == Got(Some(fields), |EncodeAll(fields)|)
  {
    hide EncodeAll, ReadAll;
    ReadsRest(fields, 0);
    EncodeNothing();
    assert fields[..0] == [] && fields[0..] == fields && KindsOf(fields)[0..] == KindsOf(fields);
  }

  lemma EncodeNothing()
    ensures EncodeAll([]) == []
  {
  }

  /** `bytes`, then as few zeros as make the size a multiple of four. */
  ghost predicate PaddedWithZeros(s: seq<byte>, bytes: seq<byte>)
  {
    && bytes <= s && |s| % 4 == 0 && |s| < |bytes| + 4
    && forall k | |bytes| <= k < |s| :: s[k] == 0
  }

  /** A length of four bytes before them. */
  ghost predicate CountedWithZeros(s: seq<byte>, n: nat, bytes: seq<byte>)
  {
    4 <= |s| && s[..4] == LittleEndian(4, n) && PaddedWithZeros(s[4..], bytes)
  }

  lemma PadIs(s: seq<byte>)
    ensures PaddedWithZeros(Pad(s), s)
  {
    assert s <= Pad(s);
  }

  lemma PadWord(s: seq<byte>)
    requires |s| == 4 || |s| == 8
    ensures Pad(s) == s
  {
    AlignWord(|s|);
  }

  lemma UnsignedBytes(width: nat, i: int)
    requires width > 0 && InRange(width, i)
    ensures SignedBytes(width, i) == LittleEndian(width, if i >= 0 then i else i + Pow256(width))
  {
    hide LittleEndian, Pow256;
    IntModSmall(i, Pow256(width));
  }

  lemma CountedIs(n: nat, s: seq<byte>)
    requires n < TWO31
    ensures CountedWithZeros(Counted(n, s), n, s)
  {
    hide LittleEndian, SignedBytes, Pad, PaddedWithZeros, Align;
    Pow256Values();
    PadWord(SignedBytes(4, n));
    UnsignedBytes(4, n);
    PadIs(s);
    assert Counted(n, s)[4..] == Pad(s) && Counted(n, s)[..4] == SignedBytes(4, n);
  }

  lemma {:induction false} WideBytesAt(units: seq<nat>, k: nat)
    requires k < |units|
    ensures WideBytes(units)[2 * k..2 * k + 2] == LittleEndian(2, units[k])
  {
    hide LittleEndian;
    var s := WideBytes(units);
    if k > 0 {
      WideBytesAt(units[1..], k - 1);
      assert s[2 * k..2 * k + 2] == s[2..][2 * k - 2..2 * k];
    }
  }

  lemma WideEncodedAs(units: seq<nat>)
    requires ValidField(Wide(units))
    ensures var s := Encode(Wide(units));
            && 4 + 2 * |units| <= |s| && CountedWithZeros(s, |units|, s[4..4 + 2 * |units|])
            && forall k | 0 <= k < |units| :: s[4 + 2 * k..6 + 2 * k] == LittleEndian(2, units[k])
  {
    hide LittleEndian, CountedWithZeros, Counted, WideBytes, ValidField;
    var s, wide := Encode(Wide(units)), WideBytes(units);
    FewUnits(units);
    CountedIs(|units|, wide);
    WideInside(s, |units|, wide);
    forall k | 0 <= k < |units| ensures s[4 + 2 * k..6 + 2 * k] == LittleEndian(2, units[k]) {
      WideBytesAt(units, k);
      assert s[4 + 2 * k..6 + 2 * k] == s[4..4 + 2 * |units|][2 * k..2 * k + 2];
    }
  }

  lemma FewUnits(units: seq<nat>)
    requires ValidField(Wide(units))
    ensures |units| < TWO31
  {
  }

  /** How each kind of value lies in the payload. */
  lemma EncodedAs(f: Field)
    requires ValidField(f)
    ensures match f
            case Bool(b) => Encode(f) == LittleEndian(4, if b then 1 else 0)
            case Int(width, i) => Encode(f) == LittleEndian(width, if i >= 0 then i else i + Pow256(width))
            case UInt(width, u) => PaddedWithZeros(Encode(f), LittleEndian(width, u))
            case Blob(data) => CountedWithZeros(Encode(f), |data|, data)
            case Wide(units) =>
              && 4 + 2 * |units| <= |Encode(f)|
              && CountedWithZeros(Encode(f), |units|, Encode(f)[4..4 + 2 * |units|])
              && forall k | 0 <= k < |units| :: Encode(f)[4 + 2 * k..6 + 2 * k] == LittleEndian(2, units[k])
            case Raw(data) => PaddedWithZeros(Encode(f), data)
  {
    hide LittleEndian, PaddedWithZeros, CountedWithZeros, Counted, WideBytes, Pow256, Pad, SignedBytes, Align;
    Pow256Values();
    match f {
      case Bool(b) =>
        PadWord(SignedBytes(4, if b then 1 else 0));
        UnsignedBytes(4, if b then 1 else 0);
      case Int(width, i) =>
        PadWord(SignedBytes(width, i));
        UnsignedBytes(width, i);
      case UInt(width, u) =>
        PadIs(LittleEndian(width, u));
      case Blob(data) =>
        CountedIs(|data|, data);
      case Wide(units) =>
        WideEncodedAs(units);
      case Raw(data) =>
        PadIs(data);
    }
  }

  lemma WideInside(s: seq<byte>, n: nat, bytes: seq<byte>)
    requires CountedWithZeros(s, n, bytes)
    ensures 4 + |bytes| <= |s| && s[4..4 + |bytes|] == bytes
  {
  }

  lemma AfterLength(p: seq<byte>, index: nat)
    requires index <= |p|
    ensures ReadLength(p, index)
            == if |p| - index < 4 then Got(None, |p|) else Got(Some(Signed(p[index..index + 4])), index + 4)
  {
    hide Signed, Align;
    AlignWord(4);
  }

  /** On any payload: when each typed read succeeds, and where a failed one leaves the read index: at the end,
      but after its length when that is no number of 16-bit units. */
  lemma ReadIff(k: Kind, p: seq<byte>, index: nat)
    requires index <= |p|
    ensures var r, left := Read(k, p, index), |p| - index;
            match k
            case KBool => r.value == if left < 1 then None else Some(Bool(p[index] != 0))
            case KInt(width) => (r.value.Some? <==> width <= left)
            case KUInt(width) => (r.value.Some? <==> width <= left)
            case KRaw(length) => (r.value.Some? <==> 0 <= length <= left)
            case KBlob => (r.value.Some? <==> 4 <= left && 0 <= Signed(p[index..index + 4]) <= left - 4)
            case KWide =>
              (r.value.Some? <==>
                 4 <= left && 0 <= Signed(p[index..index + 4]) < 0x4000_0000 && 2 * Signed(p[index..index + 4]) <= left - 4)
    ensures var r := Read(k, p, index);
            r.value.None? ==>
              r.index == if k.KWide? && 4 <= |p| - index && !(0 <= Signed(p[index..index + 4]) < 0x4000_0000) then index + 4 else |p|
  {
    hide Signed, Align, FromWide, FromLittleEndian;
    AfterLength(p, index);
  }
}
