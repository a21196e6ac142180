/** The older big-endian cursor (src/utils/stream.ts), the one the scanline
    de-filter reads its input through. Its bytes are only read, so the buffer
    is a value here. */
module LegacyStreams {
  import opened Bytes
  import opened Wrappers
  import opened Errors
  import opened DataViews

  /** The window the constructor opens. An omitted `byteOffset` makes the
      start `dataView.byteOffset + undefined`, which is NaN and counts as 0:
      the window then starts at the beginning of the buffer, not at the
      start of `dataView`. An omitted `byteLength` takes the rest. */
  function LegacyWindow(bufferLength: nat, dataView: View, byteOffset: Option<int>, byteLength: Option<int>): (r: Result<View, Error>)
    ensures byteOffset.None? && byteLength.None? ==> r == Success(View(0, bufferLength))
    ensures byteOffset.Some? ==> r == NewDataView(bufferLength, dataView.start + byteOffset.value, byteLength)
  {
    NewDataView(bufferLength, if byteOffset.None? then 0 else dataView.start + byteOffset.value, byteLength)
  }

  class DataViewStream {
    const buffer: seq<byte>
    const view: View
    var currentOffset: int

    ghost predicate Valid()
    {
      view.Within(|buffer|)
    }

    function Contents(): (r: seq<byte>)
      requires Valid()
      ensures |r| == view.length
    {
      view.Bytes(buffer)
    }

    constructor (buffer: seq<byte>, dataView: View, byteOffset: Option<int>, byteLength: Option<int>)
      requires LegacyWindow(|buffer|, dataView, byteOffset, byteLength).Success?
      ensures this.buffer == buffer && view == LegacyWindow(|buffer|, dataView, byteOffset, byteLength).value
      ensures currentOffset == 0 && Valid()
    {
      this.buffer := buffer;
      view := LegacyWindow(|buffer|, dataView, byteOffset, byteLength).value;
      currentOffset := 0;
    }

    /** `getDataView(byteLength)`: the view and the advance both use the free
        name `length` (here `ambientLength`, whatever the host binds it to),
        not the parameter, which is ignored. */
    method GetDataView(byteLength: int, ambientLength: int) returns (r: Result<View, Error>)
      requires Valid()
      modifies this
      ensures r == NewDataView(|buffer|, view.start + old(currentOffset), Some(ambientLength))
      ensures currentOffset == old(currentOffset) + (if r.Success? then ambientLength else 0)
    {
      r := NewDataView(|buffer|, view.start + currentOffset, Some(ambientLength));
      if r.Success? {
        currentOffset := currentOffset + ambientLength;
      }
    }

    /** `getDataView(byteLength)` as its parameter evidently intends: a view
        of `byteLength` bytes at the cursor, which then moves past it. */
    method GetDataViewOfLength(byteLength: int) returns (r: Result<View, Error>)
      requires Valid()
      modifies this
      ensures r == NewDataView(|buffer|, view.start + old(currentOffset), Some(byteLength))
      ensures currentOffset == old(currentOffset) + (if r.Success? then byteLength else 0)
    {
      r := NewDataView(|buffer|, view.start + currentOffset, Some(byteLength));
      if r.Success? {
        currentOffset := currentOffset + byteLength;
      }
    }

    /** `getUint8()`: one byte; the cursor moves by 1 even when the read fails. */
    method GetUint8() returns (r: Result<byte, Error>)
      requires Valid()
      modifies this
      ensures r == DataViews.GetUint8(Contents(), old(currentOffset))
      ensures currentOffset == old(currentOffset) + 1
    {
      r := DataViews.GetUint8(Contents(), currentOffset);
      currentOffset := currentOffset + 1;
    }

    /** `getUint16()`: big-endian; the cursor moves by 2 after a successful read. */
    method GetUint16() returns (r: Result<u16, Error>)
      requires Valid()
      modifies this
      ensures r == DataViews.GetUint16(Contents(), old(currentOffset))
      ensures currentOffset == old(currentOffset) + (if r.Success? then 2 else 0)
    {
      r := DataViews.GetUint16(Contents(), currentOffset);
      if r.Success? {
        currentOffset := currentOffset + 2;
      }
    }

    /** `getUint32()`: big-endian; the cursor moves by 4 after a successful read. */
    method GetUint32() returns (r: Result<u32, Error>)
      requires Valid()
      modifies this
      ensures r == DataViews.GetUint32(Contents(), old(currentOffset))
      ensures currentOffset == old(currentOffset) + (if r.Success? then 4 else 0)
    {
      r := DataViews.GetUint32(Contents(), currentOffset);
      if r.Success? {
        currentOffset := currentOffset + 4;
      }
    }
  }

  /** The discrepancy: in a browser page without frames the free name
      `length` is `window.length`, 0. getDataView(4) at the start of a
      fresh stream then opens an empty view and leaves the cursor where it
      was, while the intended call on a second fresh stream opens the first
      four bytes and moves the cursor to 4. */
  method GetDataViewIgnoresLength(buffer: seq<byte>)
    returns (asWritten: Result<View, Error>, asWrittenOffset: int, intended: Result<View, Error>, intendedOffset: int)
    requires |buffer| >= 4
    ensures asWritten == Success(View(0, 0)) && asWrittenOffset == 0
    ensures intended == Success(View(0, 4)) && intendedOffset == 4
  {
    var s := new DataViewStream(buffer, View(0, |buffer|), None, None);
    asWritten := s.GetDataView(4, 0);
    asWrittenOffset := s.currentOffset;
    var t := new DataViewStream(buffer, View(0, |buffer|), None, None);
    intended := t.GetDataViewOfLength(4);
    intendedOffset := t.currentOffset;
  }

  /** A fresh stream reads from its first byte: three getUint8 calls return
      the first three bytes of the window in order. */
  method ReadThreeBytes(buffer: seq<byte>) returns (r: seq<Result<byte, Error>>)
    requires |buffer| >= 3
    ensures r == [Success(buffer[0]), Success(buffer[1]), Success(buffer[2])]
  {
    var s := new DataViewStream(buffer, View(0, |buffer|), None, None);
    var a := s.GetUint8();
    var b := s.GetUint8();
    var c := s.GetUint8();
    r := [a, b, c];
  }
}
