/**
 The framer's byte buffers: a bounded writer that fails when a field does not
 fit, and a reader that fails when a field runs past the end.
 Network byte order, as every transport version above 38 uses.
 */
module Wire {
  import opened Bytes

  class DataWriter {
    const buffer: array<byte>
    var length: nat

    ghost predicate Valid()
      reads this
    {
      length <= buffer.Length
    }

    /** The bytes written so far. */
    ghost function Written(): (s: seq<byte>)
      requires Valid()
      reads this, buffer
      ensures |s| == length
    {
      buffer[..length]
    }

    function Room(): (r: nat)
      requires Valid()
      reads this
    {
      buffer.Length - length
    }

    constructor (size: nat)
      ensures Valid() && Written() == [] && Room() == size && fresh(buffer)
    {
      buffer := new byte[size](_ => 0);
      length := 0;
    }

    method WriteBytes(data: seq<byte>) returns (ok: bool)
      requires Valid()
      modifies this, buffer
      ensures Valid()
      ensures ok == (|data| <= old(Room()))
      ensures Written() == old(Written()) + if ok then data else []
    {
      ok := |data| <= buffer.Length - length;
      if ok {
        forall i | 0 <= i < |data| {
          buffer[length + i] := data[i];
        }
        length := length + |data|;
      }
    }

    method WriteUInt8(value: byte) returns (ok: bool)
      requires Valid()
      modifies this, buffer
      ensures Valid()
      ensures ok == (1 <= old(Room()))
      ensures Written() == old(Written()) + if ok then [value] else []
    {
      ok := WriteBytes([value]);
    }

    /** WriteUInt16, WriteUInt32, WriteUInt64 and WriteBytesToUInt64: the low `n` bytes. */
    method WriteInt(n: nat, value: nat) returns (ok: bool)
      requires Valid() && n <= 8
      modifies this, buffer
      ensures Valid()
      ensures ok == (n <= old(Room()))
      ensures Written() == old(Written()) + if ok then BigEndian(n, value) else []
    {
      ok := WriteBytes(BigEndian(n, value));
    }

    method WriteStringPiece16(data: seq<byte>) returns (ok: bool)
      requires Valid()
      modifies this, buffer
      ensures Valid()
      ensures ok == (|data| < TWO16 && 2 + |data| <= old(Room()))
      ensures old(Written()) <= Written()
      ensures ok ==> Written() == old(Written()) + (BigEndian(2, |data|) + data)
    {
      if |data| >= TWO16 {
        return false;
      }
      ok := WriteInt(2, |data|);
      if ok {
        ok := WriteBytes(data);
      }
    }

    /** Zero-fills the rest of the buffer. */
    method WritePadding()
      requires Valid()
      modifies this, buffer
      ensures Valid() && Room() == 0
      ensures Written() == old(Written()) + seq(old(Room()), _ => 0)
    {
      var _ := WriteBytes(seq(buffer.Length - length, _ => 0));
    }
  }

  datatype Option<+T> = None | Some(value: T)

  class DataReader {
    const data: seq<byte>
    var pos: nat

    ghost predicate Valid()
      reads this
    {
      pos <= |data|
    }

    /** The bytes not yet read. */
    function Rest(): (s: seq<byte>)
      requires Valid()
      reads this
    {
      data[pos..]
    }

    constructor (input: seq<byte>)
      ensures Valid() && Rest() == input
    {
      data := input;
      pos := 0;
    }

    /** A failed read also moves the cursor to the end, so that later reads fail. */
    method ReadBytes(n: nat) returns (r: Option<seq<byte>>)
      requires Valid()
      modifies this
      ensures Valid()
      ensures r.Some? == (n <= |old(Rest())|)
      ensures r.Some? ==> r.value == old(Rest())[..n] && Rest() == old(Rest())[n..]
      ensures r.None? ==> Rest() == []
    {
      if n > |data| - pos {
        pos := |data|;
        return None;
      }
      r := Some(data[pos..pos + n]);
      pos := pos + n;
    }

    method ReadInt(n: nat) returns (r: Option<nat>)
      requires Valid()
      modifies this
      ensures Valid()
      ensures r.Some? == (n <= |old(Rest())|)
      ensures r.Some? ==> r.value == FromBigEndian(old(Rest())[..n]) && Rest() == old(Rest())[n..]
      ensures r.None? ==> Rest() == []
    {
      var b := ReadBytes(n);
      r := if b.Some? then Some(FromBigEndian(b.value)) else None;
    }
  }
}
