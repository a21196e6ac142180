/** The host's DataView, as the decoder uses it: a window of an ArrayBuffer
    with big-endian getters that throw a RangeError outside the window.
    Buffers are byte sequences (or byte arrays where they are written);
    a window is its start and length inside the buffer. */
module DataViews {
  import opened Bytes
  import opened Wrappers
  import opened Errors

  /** A DataView: `length` bytes of the buffer starting at `start`. */
  datatype View = View(start: nat, length: nat)
  {
    predicate Within(bufferLength: nat)
    {
      start + length <= bufferLength
    }

    /** The bytes the view shows. */
    function Bytes(buffer: seq<byte>): (r: seq<byte>)
      requires Within(|buffer|)
      ensures |r| == length
    {
      buffer[start..start + length]
    }
  }

  /** `new DataView(buffer, byteOffset, byteLength)`: a negative offset, an
      offset past the end or a window past the end is a RangeError; an
      omitted length takes the rest of the buffer. */
  function NewDataView(bufferLength: nat, byteOffset: int, byteLength: Option<int>): (r: Result<View, Error>)
    ensures r.Success? ==> r.value.Within(bufferLength) && r.value.start == byteOffset
    ensures r.Success? && byteLength.Some? ==> r.value.length == byteLength.value
    ensures r.Success? && byteLength.None? ==> r.value.start + r.value.length == bufferLength
    ensures r.Failure? ==> r.error == RangeError
    ensures r.Failure? <==> byteOffset < 0 || byteOffset > bufferLength
                            || (byteLength.Some? && (byteLength.value < 0 || byteOffset + byteLength.value > bufferLength))
  {
    if byteOffset < 0 || byteOffset > bufferLength then Failure(RangeError)
    else match byteLength
      case None => Success(View(byteOffset, bufferLength - byteOffset))
      case Some(n) =>
        if n < 0 || byteOffset + n > bufferLength then Failure(RangeError)
        else Success(View(byteOffset, n))
  }

  /** `getUint8(off)` on the bytes of a view. */
  function GetUint8(data: seq<byte>, off: int): (r: Result<byte, Error>)
    ensures r.Success? <==> 0 <= off < |data|
    ensures r.Success? ==> r.value == data[off]
    ensures r.Failure? ==> r.error == RangeError
  {
    if 0 <= off < |data| then Success(data[off]) else Failure(RangeError)
  }

  /** `getUint16(off)`: big-endian. */
  function GetUint16(data: seq<byte>, off: int): (r: Result<u16, Error>)
    ensures r.Success? <==> 0 <= off && off + 2 <= |data|
    ensures r.Success? ==> r.value == data[off] as int * 0x100 + data[off + 1]
    ensures r.Failure? ==> r.error == RangeError
  {
    if 0 <= off && off + 2 <= |data| then Success(U16At(data, off)) else Failure(RangeError)
  }

  /** `getUint32(off)`: big-endian. */
  function GetUint32(data: seq<byte>, off: int): (r: Result<u32, Error>)
    ensures r.Success? <==> 0 <= off && off + 4 <= |data|
    ensures r.Success? ==> r.value == data[off] as int * 0x100_0000 + data[off + 1] as int * 0x1_0000 + data[off + 2] as int * 0x100 + data[off + 3]
    ensures r.Failure? ==> r.error == RangeError
  {
    if 0 <= off && off + 4 <= |data| then Success(U32At(data, off)) else Failure(RangeError)
  }

  /** ToUint8 of an integer value, as setUint8 and Uint8Array stores apply it. */
  function ToUint8(v: int): (r: byte)
    ensures 0 <= v < 0x100 ==> r == v
    ensures (r - v) % 0x100 == 0
  {
    v % 0x100
  }

  /** ToUint16 of an integer value. */
  function ToUint16(v: int): (r: u16)
    ensures 0 <= v < 0x1_0000 ==> r == v
    ensures (r - v) % 0x1_0000 == 0
  {
    v % 0x1_0000
  }

  /** ToUint32 of an integer value. */
  function ToUint32(v: int): (r: u32)
    ensures 0 <= v < 0x1_0000_0000 ==> r == v
    ensures (r - v) % 0x1_0000_0000 == 0
  {
    v % 0x1_0000_0000
  }

  /** `s` with `bytes` stored from index `at` on. */
  function Overwrite(s: seq<byte>, at: nat, bytes: seq<byte>): (r: seq<byte>)
    requires at + |bytes| <= |s|
    ensures |r| == |s| && r[at..at + |bytes|] == bytes
    ensures forall i :: 0 <= i < |s| && !(at <= i < at + |bytes|) ==> r[i] == s[i]
  {
    s[..at] + bytes + s[at + |bytes|..]
  }

  /** What setUint16 stores, getUint16 reads back. */
  lemma ReadBack16(s: seq<byte>, at: nat, v: u16)
    requires at + 2 <= |s|
    ensures GetUint16(Overwrite(s, at, Be16(v)), at) == Success(v)
  {
    U16RoundTrip(v);
    var t := Overwrite(s, at, Be16(v));
    assert t[at] == Be16(v)[0] && t[at + 1] == Be16(v)[1];
  }

  /** What setUint32 stores, getUint32 reads back. */
  lemma ReadBack32(s: seq<byte>, at: nat, v: u32)
    requires at + 4 <= |s|
    ensures GetUint32(Overwrite(s, at, Be32(v)), at) == Success(v)
  {
    U32RoundTrip(v);
    var t := Overwrite(s, at, Be32(v));
    assert t[at] == Be32(v)[0] && t[at + 1] == Be32(v)[1] && t[at + 2] == Be32(v)[2] && t[at + 3] == Be32(v)[3];
  }
}
