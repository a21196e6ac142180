/** The big-endian cursor over a DataView window (src/utils/dataViewStream.ts).
    Every read and write is relative to the window; the cursor is a plain
    number that only the methods move. */
module DataViewStreams {
  import opened Bytes
  import opened Wrappers
  import opened Errors
  import opened DataViews
  import Utils

  class DataViewStream {
    /** The ArrayBuffer under the window. */
    const buffer: array<byte>
    /** The stream's own DataView. */
    const view: View
    var currentOffset: int

    ghost predicate Valid()
    {
      view.Within(buffer.Length)
    }

    /** The bytes of the window. */
    function Contents(): (r: seq<byte>)
      reads buffer
      requires Valid()
      ensures |r| == view.length
    {
      view.Bytes(buffer[..])
    }

    /** `new DataViewStream(dataView, byteOffset, byteLength)`: a window of
        `byteLength` bytes (by default the length of `dataView`) that starts
        `byteOffset` bytes into `dataView`. A window outside the buffer is a
        RangeError in the host; here the caller establishes that it is not. */
    constructor (buffer: array<byte>, dataView: View, byteOffset: int, byteLength: Option<int>)
      requires NewDataView(buffer.Length, dataView.start + byteOffset, Some(byteLength.GetOr(dataView.length))).Success?
      ensures this.buffer == buffer && currentOffset == 0
      ensures view == NewDataView(buffer.Length, dataView.start + byteOffset, Some(byteLength.GetOr(dataView.length))).value
      ensures Valid()
    {
      this.buffer := buffer;
      view := NewDataView(buffer.Length, dataView.start + byteOffset, Some(byteLength.GetOr(dataView.length))).value;
      currentOffset := 0;
    }

    /** `readText()`: the text up to the next zero byte; the cursor ends one
        past that byte, or one past the first byte that could not be read. */
    method ReadText() returns (r: Result<string, Error>)
      requires Valid()
      modifies this
      ensures r == Utils.TextAt(Contents(), old(currentOffset))
      ensures currentOffset == Utils.TextEnd(Contents(), old(currentOffset))
    {
      var end;
      r, end := Utils.ScanText(Contents(), currentOffset);
      currentOffset := end;
    }

    /** `readDataView(byteLength)`: the next `byteLength` bytes as a view of
        the same buffer; the cursor moves only when the view exists. */
    method ReadDataView(byteLength: int) returns (r: Result<View, Error>)
      requires Valid()
      modifies this
      ensures r == NewDataView(buffer.Length, view.start + old(currentOffset), Some(byteLength))
      ensures currentOffset == old(currentOffset) + (if r.Success? then byteLength else 0)
    {
      r := NewDataView(buffer.Length, view.start + currentOffset, Some(byteLength));
      if r.Success? {
        currentOffset := currentOffset + byteLength;
      }
    }

    /** `readUint(bits)`: dispatch on the width; other widths fail without
        moving the cursor. */
    method ReadUint(bits: int) returns (r: Result<int, Error>)
      requires Valid()
      modifies this
      ensures bits == 8 ==> currentOffset == old(currentOffset) + 1
      ensures bits in {16, 32} ==> currentOffset == old(currentOffset) + (if r.Success? then bits / 8 else 0)
      ensures bits !in {8, 16, 32} ==> currentOffset == old(currentOffset)
      ensures r == Utils.GetUint(Contents(), old(currentOffset), bits)
    {
      match bits
      case 8 =>
        var v := ReadUint8();
        r := if v.Success? then Success(v.value) else Failure(v.error);
      case 16 =>
        var v := ReadUint16();
        r := if v.Success? then Success(v.value) else Failure(v.error);
      case 32 =>
        var v := ReadUint32();
        r := if v.Success? then Success(v.value) else Failure(v.error);
      case _ =>
        r := Failure(UnsupportedBits(bits));
    }

    /** `readUint8()`: the cursor moves even when the read fails. */
    method ReadUint8() returns (r: Result<byte, Error>)
      requires Valid()
      modifies this
      ensures r == GetUint8(Contents(), old(currentOffset))
      ensures currentOffset == old(currentOffset) + 1
    {
      r := GetUint8(Contents(), currentOffset);
      currentOffset := currentOffset + 1;
    }

    /** `readUint16()`: the cursor moves by 2 after a successful read. */
    method ReadUint16() returns (r: Result<u16, Error>)
      requires Valid()
      modifies this
      ensures r == GetUint16(Contents(), old(currentOffset))
      ensures currentOffset == old(currentOffset) + (if r.Success? then 2 else 0)
    {
      r := GetUint16(Contents(), currentOffset);
      if r.Success? {
        currentOffset := currentOffset + 2;
      }
    }

    /** `readUint32()`: the cursor moves by 4 after a successful read. */
    method ReadUint32() returns (r: Result<u32, Error>)
      requires Valid()
      modifies this
      ensures r == GetUint32(Contents(), old(currentOffset))
      ensures currentOffset == old(currentOffset) + (if r.Success? then 4 else 0)
    {
      r := GetUint32(Contents(), currentOffset);
      if r.Success? {
        currentOffset := currentOffset + 4;
      }
    }

    /** `writeDataView(dataView)`: copies the source bytes to the cursor. The
        destination Uint8Array is bounded by the buffer, not by the window. */
    method WriteDataView(source: seq<byte>) returns (r: Outcome<Error>)
      requires Valid()
      modifies this, buffer
      ensures r.Pass? <==> 0 <= view.start + old(currentOffset) && view.start + old(currentOffset) + |source| <= buffer.Length
      ensures r.Fail? ==> r.error == RangeError && buffer[..] == old(buffer[..]) && currentOffset == old(currentOffset)
      ensures r.Pass? ==> buffer[..] == Overwrite(old(buffer[..]), view.start + old(currentOffset), source)
                          && currentOffset == old(currentOffset) + |source|
    {
      var at := view.start + currentOffset;
      if at < 0 || at + |source| > buffer.Length {
        return Fail(RangeError);
      }
      var i := 0;
      while i < |source|
        invariant 0 <= i <= |source| && currentOffset == old(currentOffset)
        invariant buffer[..] == old(buffer[..])[..at] + source[..i] + old(buffer[..])[at + i..]
      {
        buffer[at + i] := source[i];
        i := i + 1;
      }
      assert source[..|source|] == source;
      currentOffset := currentOffset + |source|;
      r := Pass;
    }

    /** `writeUint8(value)`: stores the value modulo 256; the cursor moves even
        when the store fails. */
    method WriteUint8(value: int) returns (r: Outcome<Error>)
      requires Valid()
      modifies this, buffer
      ensures r.Pass? <==> 0 <= old(currentOffset) < view.length
      ensures r.Fail? ==> r.error == RangeError && buffer[..] == old(buffer[..])
      ensures r.Pass? ==> buffer[..] == Overwrite(old(buffer[..]), view.start + old(currentOffset), [ToUint8(value)])
      ensures currentOffset == old(currentOffset) + 1
    {
      var off := currentOffset;
      currentOffset := currentOffset + 1;
      if !(0 <= off < view.length) {
        return Fail(RangeError);
      }
      buffer[view.start + off] := ToUint8(value);
      r := Pass;
    }

    /** `writeUint16(value)`: stores the value modulo 2^16, big-endian. */
    method WriteUint16(value: int) returns (r: Outcome<Error>)
      requires Valid()
      modifies this, buffer
      ensures r.Pass? <==> 0 <= old(currentOffset) && old(currentOffset) + 2 <= view.length
      ensures r.Fail? ==> r.error == RangeError && buffer[..] == old(buffer[..]) && currentOffset == old(currentOffset)
      ensures r.Pass? ==> buffer[..] == Overwrite(old(buffer[..]), view.start + old(currentOffset), Be16(ToUint16(value)))
                          && currentOffset == old(currentOffset) + 2
    {
      if !(0 <= currentOffset && currentOffset + 2 <= view.length) {
        return Fail(RangeError);
      }
      var bytes := Be16(ToUint16(value));
      var at := view.start + currentOffset;
      buffer[at] := bytes[0];
      buffer[at + 1] := bytes[1];
      currentOffset := currentOffset + 2;
      r := Pass;
    }

    /** `writeUint32(value)`: stores the value modulo 2^32, big-endian. */
    method WriteUint32(value: int) returns (r: Outcome<Error>)
      requires Valid()
      modifies this, buffer
      ensures r.Pass? <==> 0 <= old(currentOffset) && old(currentOffset) + 4 <= view.length
      ensures r.Fail? ==> r.error == RangeError && buffer[..] == old(buffer[..]) && currentOffset == old(currentOffset)
      ensures r.Pass? ==> buffer[..] == Overwrite(old(buffer[..]), view.start + old(currentOffset), Be32(ToUint32(value)))
                          && currentOffset == old(currentOffset) + 4
    {
      if !(0 <= currentOffset && currentOffset + 4 <= view.length) {
        return Fail(RangeError);
      }
      var bytes := Be32(ToUint32(value));
      var at := view.start + currentOffset;
      buffer[at] := bytes[0];
      buffer[at + 1] := bytes[1];
      buffer[at + 2] := bytes[2];
      buffer[at + 3] := bytes[3];
      currentOffset := currentOffset + 4;
      r := Pass;
    }

    method Skip(byteLength: int)
      modifies this
      ensures currentOffset == old(currentOffset) + byteLength
    {
      currentOffset := currentOffset + byteLength;
    }

    method Rewind()
      modifies this
      ensures currentOffset == 0
    {
      currentOffset := 0;
    }

    /** `toDataView()` and `toUint8Array()`: the stream's own window. */
    function ToDataView(): View
      reads this
    {
      view
    }

    /** The `byteLength` getter: the window's length, fixed at construction. */
    function ByteLength(): (r: nat)
      reads this
      ensures r == view.length
    {
      view.length
    }
  }

  /** writeUint8, rewind, readUint8 returns the value modulo 2^8. */
  method WriteRewindRead8(s: DataViewStream, value: int) returns (r: Result<byte, Error>)
    requires s.Valid() && s.currentOffset == 0 && 1 <= s.view.length
    modifies s, s.buffer
    ensures r == Success(value % 0x100) && s.currentOffset == 1
  {
    var w := s.WriteUint8(value);
    s.Rewind();
    r := s.ReadUint8();
  }

  /** writeUint16, rewind, readUint16 returns the value modulo 2^16. */
  method WriteRewindRead16(s: DataViewStream, value: int) returns (r: Result<u16, Error>)
    requires s.Valid() && s.currentOffset == 0 && 2 <= s.view.length
    modifies s, s.buffer
    ensures r == Success(value % 0x1_0000) && s.currentOffset == 2
  {
    var w := s.WriteUint16(value);
    s.Rewind();
    ReadBack16(old(s.buffer[..]), s.view.start, ToUint16(value));
    assert GetUint16(s.Contents(), 0) == GetUint16(s.buffer[..], s.view.start);
    r := s.ReadUint16();
  }

  /** writeUint32, rewind, readUint32 returns the value modulo 2^32. */
  method WriteRewindRead32(s: DataViewStream, value: int) returns (r: Result<u32, Error>)
    requires s.Valid() && s.currentOffset == 0 && 4 <= s.view.length
    modifies s, s.buffer
    ensures r == Success(value % 0x1_0000_0000) && s.currentOffset == 4
  {
    var w := s.WriteUint32(value);
    s.Rewind();
    ReadBack32(old(s.buffer[..]), s.view.start, ToUint32(value));
    assert GetUint32(s.Contents(), 0) == GetUint32(s.buffer[..], s.view.start);
    r := s.ReadUint32();
  }
}
