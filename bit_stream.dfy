/** The bit-level cursor (src/utils/dataViewBitStream.ts): a byte offset,
    the number of bits of the current byte not yet consumed, and the current
    byte. The value assembly is modelled exactly as written: each chunk is
    taken from the byte shifted right by `bitsLeft - 1` and then bit-reversed.
    IntendedLoop is the most-significant-bit-first reading the names
    readUint8/16/32 promise, with the same cursor moves. */
module BitStreams {
  import opened Bytes
  import opened Wrappers
  import opened Errors
  import opened DataViews
  import Utils

  /** `bitsToMask`: entry k has the low k bits set. */
  function BitsToMask(): (r: seq<nat>)
    ensures |r| == 9
  {
    [0, 1, 3, 7, 15, 31, 63, 127, 255]
  }

  lemma MasksAreLowBits(k: nat)
    requires k <= 8
    ensures BitsToMask()[k] == Pow2(k) - 1
  {
    assert Pow2(0) == 1 && Pow2(1) == 2 && Pow2(2) == 4 && Pow2(3) == 8 && Pow2(4) == 16;
    assert Pow2(5) == 32 && Pow2(6) == 64 && Pow2(7) == 128 && Pow2(8) == 256;
  }

  /** The three swaps (nibbles, pairs, bits) of the table initialiser. */
  function ReverseBits(b: bv8): bv8
  {
    var b1 := ((b & 0xf0) >> 4) | ((b & 0x0f) << 4);
    var b2 := ((b1 & 0xcc) >> 2) | ((b1 & 0x33) << 2);
    ((b2 & 0xaa) >> 1) | ((b2 & 0x55) << 1)
  }

  /** Bit i of the result is bit 7 - i of the argument. */
  lemma ReverseBitsMirrors(b: bv8, i: nat)
    requires i < 8
    ensures (ReverseBits(b) >> i) & 1 == (b >> (7 - i)) & 1
  {
  }

  /** Reversing twice gives the byte back. */
  lemma ReverseBitsInvolution(b: bv8)
    ensures ReverseBits(ReverseBits(b)) == b
  {
  }

  /** `reverseBitsInByte[b]` for a table index b. */
  function ReverseBitsInByte(b: nat): (r: byte)
    requires b < 256
  {
    ReverseBits(b as bv8) as int
  }

  /** The fields of the cursor. */
  datatype Cursor = Cursor(offset: int, bitsLeft: int, currentByte: byte)
  {
    predicate Valid()
    {
      0 <= bitsLeft <= 8
    }

    /** The index of the next unread bit, counting from bit 0 of byte 0. */
    function Position(): int
    {
      offset * 8 + 8 - bitsLeft
    }
  }

  /** The state of a new stream: before byte 0, nothing left to read. */
  const Fresh := Cursor(-1, 0, 0)

  /** `nextByte()`: the offset and the bit count change before the read;
      a failed read leaves the old byte. */
  function NextByteSpec(data: seq<byte>, c: Cursor): (r: (Cursor, Outcome<Error>))
    ensures r.0.offset == c.offset + 1 && r.0.bitsLeft == 8
    ensures r.1.Pass? <==> 0 <= c.offset + 1 < |data|
    ensures r.1.Pass? ==> r.0.currentByte == data[c.offset + 1]
    ensures r.1.Fail? ==> r.0.currentByte == c.currentByte && r.1.error == RangeError
  {
    var moved := Cursor(c.offset + 1, 8, c.currentByte);
    match GetUint8(data, moved.offset)
    case Success(b) => (moved.(currentByte := b), Pass)
    case Failure(e) => (moved, Fail(e))
  }

  /** The chunk of `k` bits the loop takes from a byte with `bitsLeft` unread
      bits: `(byte >> (bitsLeft - 1)) & bitsToMask[k]`. */
  function Chunk(c: Cursor, k: nat): (r: nat)
    requires 1 <= c.bitsLeft && k <= 8
    ensures r < 256
  {
    (c.currentByte / Pow2(c.bitsLeft - 1)) % (BitsToMask()[k] + 1)
  }

  /** The `readUint` loop from cursor `c` with `remaining` bits still to read,
      `value` and `bitsRead` accumulated so far: the final cursor and the
      value, or the error of the first failing nextByte (with the cursor it
      leaves). */
  function ReadLoop(data: seq<byte>, c: Cursor, remaining: int, value: int, bitsRead: nat): (r: (Cursor, Result<int, Error>))
    requires c.Valid()
    decreases if remaining > 0 then remaining else 0, if c.bitsLeft == 0 then 1 else 0
  {
    if remaining <= 0 then (c, Success(value))
    else if c.bitsLeft == 0 then
      var (loaded, o) := NextByteSpec(data, c);
      if o.Fail? then (loaded, Failure(o.error))
      else ReadLoop(data, loaded, remaining, value, bitsRead)
    else
      var k := if c.bitsLeft < remaining then c.bitsLeft else remaining;
      var bits := Chunk(c, k);
      ReadLoop(data, c.(bitsLeft := c.bitsLeft - k), remaining - k,
               value + ReverseBitsInByte(bits) * Pow2(bitsRead), bitsRead + k)
  }

  /** `readUint(n)` from cursor `c`. */
  function ReadUintSpec(data: seq<byte>, c: Cursor, n: int): (Cursor, Result<int, Error>)
    requires c.Valid()
  {
    ReadLoop(data, c, n, 0, 0)
  }

  /** The loop keeps 0 <= bitsLeft <= 8, and a successful read of n bits
      moves the bit position by exactly n (by nothing when n <= 0). */
  lemma {:induction false} ReadLoopConsumes(data: seq<byte>, c: Cursor, remaining: int, value: int, bitsRead: nat)
    requires c.Valid()
    ensures ReadLoop(data, c, remaining, value, bitsRead).0.Valid()
    ensures ReadLoop(data, c, remaining, value, bitsRead).1.Success? ==>
      ReadLoop(data, c, remaining, value, bitsRead).0.Position() == c.Position() + (if remaining > 0 then remaining else 0)
    decreases if remaining > 0 then remaining else 0, if c.bitsLeft == 0 then 1 else 0
  {
    if remaining <= 0 {
    } else if c.bitsLeft == 0 {
      var (loaded, o) := NextByteSpec(data, c);
      if o.Pass? {
        ReadLoopConsumes(data, loaded, remaining, value, bitsRead);
      }
    } else {
      var k := if c.bitsLeft < remaining then c.bitsLeft else remaining;
      var bits := Chunk(c, k);
      ReadLoopConsumes(data, c.(bitsLeft := c.bitsLeft - k), remaining - k,
                       value + ReverseBitsInByte(bits) * Pow2(bitsRead), bitsRead + k);
    }
  }

  /** The first readUint(1) of a stream whose first byte has its top bit set
      returns 128, not 1: the chunk is the top bit and is then reversed. */
  lemma FirstBitReadsAs128(data: seq<byte>)
    requires |data| >= 1 && data[0] >= 0x80
    ensures ReadUintSpec(data, Fresh, 1).1 == Success(128)
  {
    var (loaded, o) := NextByteSpec(data, Fresh);
    assert loaded == Cursor(0, 8, data[0]);
    assert Pow2(7) == 128;
    assert Chunk(loaded, 1) == 1;
    assert ReverseBitsInByte(1) == 128 && Pow2(0) == 1;
    assert ReadUintSpec(data, Fresh, 1) == ReadLoop(data, loaded, 1, 0, 0);
    assert ReadLoop(data, loaded, 1, 0, 0) == ReadLoop(data, loaded.(bitsLeft := 7), 0, 128, 1);
  }

  /** The loop at an exhausted byte: the state after nextByte, or its
      error. */
  lemma ReadLoopLoads(data: seq<byte>, c: Cursor, remaining: int, value: int, bitsRead: nat)
    requires c.Valid() && c.bitsLeft == 0 && remaining > 0
    ensures var (loaded, o) := NextByteSpec(data, c);
      ReadLoop(data, c, remaining, value, bitsRead)
      == if o.Fail? then (loaded, Failure(o.error)) else ReadLoop(data, loaded, remaining, value, bitsRead)
  {
  }

  /** The loop with bits left in the byte: one chunk taken. */
  lemma ReadLoopTakes(data: seq<byte>, c: Cursor, remaining: int, value: int, bitsRead: nat)
    requires c.Valid() && c.bitsLeft >= 1 && remaining > 0
    ensures var k := if c.bitsLeft < remaining then c.bitsLeft else remaining;
      ReadLoop(data, c, remaining, value, bitsRead)
      == ReadLoop(data, c.(bitsLeft := c.bitsLeft - k), remaining - k,
                  value + ReverseBitsInByte(Chunk(c, k)) * Pow2(bitsRead), bitsRead + k)
  {
  }

  /** The reading of `readUint` the name `readUint8` implies: each chunk is
      the next `k` unread bits from the top of the byte,
      `(byte >> (bitsLeft - k)) & bitsToMask[k]`, and the value is
      assembled most significant bit first. */
  function IntendedChunk(c: Cursor, k: nat): (r: nat)
    requires k <= c.bitsLeft <= 8
    ensures r < Pow2(k)
  {
    (c.currentByte / Pow2(c.bitsLeft - k)) % Pow2(k)
  }

  /** The loop of `readUint` with IntendedChunk and most-significant-first
      assembly; cursor moves and errors are those of ReadLoop. */
  function IntendedLoop(data: seq<byte>, c: Cursor, remaining: int, value: int): (r: (Cursor, Result<int, Error>))
    requires c.Valid()
    decreases if remaining > 0 then remaining else 0, if c.bitsLeft == 0 then 1 else 0
  {
    if remaining <= 0 then (c, Success(value))
    else if c.bitsLeft == 0 then
      var (loaded, o) := NextByteSpec(data, c);
      if o.Fail? then (loaded, Failure(o.error))
      else IntendedLoop(data, loaded, remaining, value)
    else
      var k := if c.bitsLeft < remaining then c.bitsLeft else remaining;
      IntendedLoop(data, c.(bitsLeft := c.bitsLeft - k), remaining - k,
                   value * Pow2(k) + IntendedChunk(c, k))
  }

  /** A whole-byte read at a byte boundary under the intended reading: the
      next byte is appended below the value read so far. */
  lemma IntendedByte(data: seq<byte>, c: Cursor, remaining: int, value: int)
    requires c.Valid() && c.bitsLeft == 0 && remaining >= 8
    requires 0 <= c.offset + 1 < |data|
    ensures IntendedLoop(data, c, remaining, value)
            == IntendedLoop(data, Cursor(c.offset + 1, 0, data[c.offset + 1]), remaining - 8, value * 256 + data[c.offset + 1])
  {
    var (loaded, o) := NextByteSpec(data, c);
    assert loaded == Cursor(c.offset + 1, 8, data[c.offset + 1]);
    assert Pow2(8) == 256 && Pow2(0) == 1;
    assert IntendedChunk(loaded, 8) == data[c.offset + 1];
  }

  /** Under the intended reading, readUint8, readUint16 and readUint32 of a
      fresh stream return what getUint8, getUint16 and getUint32 read at 0:
      the first one, two and four bytes, big-endian. */
  lemma IntendedReadsBigEndian(data: seq<byte>)
    requires |data| >= 4
    ensures IntendedLoop(data, Fresh, 8, 0).1 == Success(data[0] as int)
    ensures IntendedLoop(data, Fresh, 16, 0).1 == Success(U16At(data, 0) as int)
    ensures IntendedLoop(data, Fresh, 32, 0).1 == Success(U32At(data, 0) as int)
  {
    IntendedByte(data, Fresh, 8, 0);
    IntendedByte(data, Fresh, 16, 0);
    IntendedByte(data, Cursor(0, 0, data[0]), 8, data[0] as int);
    IntendedReads32(data);
  }

  /** The four-byte case of IntendedReadsBigEndian. */
  lemma IntendedReads32(data: seq<byte>)
    requires |data| >= 4
    ensures IntendedLoop(data, Fresh, 32, 0).1 == Success(U32At(data, 0) as int)
  {
    var v1 := data[0] as int;
    var v2 := v1 * 256 + data[1];
    var v3 := v2 * 256 + data[2];
    IntendedByte(data, Fresh, 32, 0);
    IntendedByte(data, Cursor(0, 0, data[0]), 24, v1);
    IntendedByte(data, Cursor(1, 0, data[1]), 16, v2);
    IntendedByte(data, Cursor(2, 0, data[2]), 8, v3);
  }

  /** As written, readUint8 of a fresh stream whose first byte is 1 returns
      0: the chunk is the top bit of the byte, not the byte. */
  lemma ReadUint8OfOneIsZero(data: seq<byte>)
    requires |data| >= 1 && data[0] == 1
    ensures ReadUintSpec(data, Fresh, 8).1 == Success(0)
    ensures IntendedLoop(data, Fresh, 8, 0).1 == Success(1)
  {
    var (loaded, o) := NextByteSpec(data, Fresh);
    assert loaded == Cursor(0, 8, 1);
    assert Pow2(7) == 128 && Pow2(8) == 256 && Pow2(0) == 1;
    assert Chunk(loaded, 8) == 0;
    assert ReverseBitsInByte(0) == 0;
    assert ReadUintSpec(data, Fresh, 8) == ReadLoop(data, loaded, 8, 0, 0);
    assert ReadLoop(data, loaded, 8, 0, 0) == ReadLoop(data, loaded.(bitsLeft := 0), 0, 0, 8);
    assert IntendedChunk(loaded, 8) == 1;
  }

  class DataViewBitStream {
    const buffer: seq<byte>
    const view: View
    var currentByte: byte
    var currentOffset: int
    var bitsLeftInByte: int

    ghost predicate Valid()
      reads this
    {
      view.Within(|buffer|) && 0 <= bitsLeftInByte <= 8
    }

    function Contents(): (r: seq<byte>)
      requires view.Within(|buffer|)
      ensures |r| == view.length
    {
      view.Bytes(buffer)
    }

    /** The three fields as a cursor. */
    function State(): Cursor
      reads this
    {
      Cursor(currentOffset, bitsLeftInByte, currentByte)
    }

    constructor (buffer: seq<byte>, dataView: View, byteOffset: int, byteLength: Option<int>)
      requires NewDataView(|buffer|, dataView.start + byteOffset, byteLength).Success?
      ensures this.buffer == buffer && view == NewDataView(|buffer|, dataView.start + byteOffset, byteLength).value
      ensures State() == Fresh && Valid()
    {
      this.buffer := buffer;
      view := NewDataView(|buffer|, dataView.start + byteOffset, byteLength).value;
      currentOffset := -1;
      bitsLeftInByte := 0;
      currentByte := 0;
    }

    /** `nextByte()`. */
    method NextByte() returns (r: Outcome<Error>)
      requires Valid()
      modifies this
      ensures Valid()
      ensures (State(), r) == NextByteSpec(Contents(), old(State()))
    {
      bitsLeftInByte := 8;
      currentOffset := currentOffset + 1;
      var b := GetUint8(Contents(), currentOffset);
      if b.Failure? {
        return Fail(b.error);
      }
      currentByte := b.value;
      r := Pass;
    }

    /** `readUint(totalBitsToRead)`. */
    method ReadUint(totalBitsToRead: int) returns (r: Result<int, Error>)
      requires Valid()
      modifies this
      ensures Valid()
      ensures (State(), r) == ReadUintSpec(Contents(), old(State()), totalBitsToRead)
    {
      var value := 0;
      var bitsRead: nat := 0;
      var remaining := totalBitsToRead;
      while remaining > 0
        invariant Valid()
        invariant ReadUintSpec(Contents(), old(State()), totalBitsToRead) == ReadLoop(Contents(), State(), remaining, value, bitsRead)
        decreases if remaining > 0 then remaining else 0
      {
        if bitsLeftInByte == 0 {
          ghost var before := State();
          var o := NextByte();
          ReadLoopLoads(Contents(), before, remaining, value, bitsRead);
          if o.Fail? {
            return Failure(o.error);
          }
        }
        ghost var c := State();
        var bits, bitsToRead := TakeBits(remaining);
        ReadLoopTakes(Contents(), c, remaining, value, bitsRead);
        value := value + ReverseBitsInByte(bits) * Pow2(bitsRead);
        bitsRead := bitsRead + bitsToRead;
        remaining := remaining - bitsToRead;
      }
      r := Success(value);
    }

    /** The chunk step of the readUint loop: up to `remaining` bits of the
        current byte. */
    method TakeBits(remaining: int) returns (bits: nat, k: nat)
      requires Valid() && bitsLeftInByte >= 1 && remaining > 0
      modifies this
      ensures Valid()
      ensures k == (if old(bitsLeftInByte) < remaining then old(bitsLeftInByte) else remaining)
      ensures bits == Chunk(old(State()), k) && bits < 256
      ensures State() == old(State()).(bitsLeft := old(bitsLeftInByte) - k)
    {
      k := if bitsLeftInByte < remaining then bitsLeftInByte else remaining;
      bits := (currentByte / Pow2(bitsLeftInByte - 1)) % (BitsToMask()[k] + 1);
      bitsLeftInByte := bitsLeftInByte - k;
    }

    method ReadUint8() returns (r: Result<int, Error>)
      requires Valid()
      modifies this
      ensures Valid()
      ensures (State(), r) == ReadUintSpec(Contents(), old(State()), 8)
    {
      r := ReadUint(8);
    }

    method ReadUint16() returns (r: Result<int, Error>)
      requires Valid()
      modifies this
      ensures Valid()
      ensures (State(), r) == ReadUintSpec(Contents(), old(State()), 16)
    {
      r := ReadUint(16);
    }

    method ReadUint32() returns (r: Result<int, Error>)
      requires Valid()
      modifies this
      ensures Valid()
      ensures (State(), r) == ReadUintSpec(Contents(), old(State()), 32)
    {
      r := ReadUint(32);
    }

    /** The cursor after the "always begin from byte boundary" step that
        readText and readDataView take first: a partly read byte (or no byte
        yet) moves to the next one. */
    function BoundaryStep(c: Cursor): (r: (Cursor, Outcome<Error>))
      requires view.Within(|buffer|)
    {
      if c.bitsLeft < 8 then NextByteSpec(Contents(), c) else (c, Pass)
    }

    /** `readText()`: from a byte boundary, the text up to the next zero byte;
        the offset ends one past it. */
    method ReadText() returns (r: Result<string, Error>)
      requires Valid()
      modifies this
      ensures Valid()
      ensures BoundaryStep(old(State())).1.Fail? ==>
        State() == BoundaryStep(old(State())).0 && r == Failure(BoundaryStep(old(State())).1.error)
      ensures BoundaryStep(old(State())).1.Pass? ==>
        var c := BoundaryStep(old(State())).0;
        r == Utils.TextAt(Contents(), c.offset)
        && State() == c.(offset := Utils.TextEnd(Contents(), c.offset))
    {
      if bitsLeftInByte < 8 {
        var o := NextByte();
        if o.Fail? {
          return Failure(o.error);
        }
      }
      var end;
      r, end := Utils.ScanText(Contents(), currentOffset);
      currentOffset := end;
    }

    /** `readDataView(byteLength)`: from a byte boundary, the next
        `byteLength` bytes as a view of the same buffer. */
    method ReadDataView(byteLength: int) returns (r: Result<View, Error>)
      requires Valid()
      modifies this
      ensures Valid()
      ensures BoundaryStep(old(State())).1.Fail? ==>
        State() == BoundaryStep(old(State())).0 && r == Failure(BoundaryStep(old(State())).1.error)
      ensures BoundaryStep(old(State())).1.Pass? ==>
        var c := BoundaryStep(old(State())).0;
        r == NewDataView(|buffer|, view.start + c.offset, Some(byteLength))
        && State() == c.(offset := c.offset + (if r.Success? then byteLength else 0))
    {
      if bitsLeftInByte < 8 {
        var o := NextByte();
        if o.Fail? {
          return Failure(o.error);
        }
      }
      r := NewDataView(|buffer|, view.start + currentOffset, Some(byteLength));
      if r.Success? {
        currentOffset := currentOffset + byteLength;
      }
    }
  }
}
