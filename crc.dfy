/** CRC-32 as the chunk reader computes it (src/format/crc.ts): a 256-entry
    table built from the reflected polynomial 0xEDB88320, accumulators seeded
    with all ones and a final XOR with all ones. JavaScript's 32-bit bitwise
    operators are modelled on bv32; the signed results of `^ -1` are made
    explicit with Signed. */
module Crc {
  import opened Bytes
  import opened Wrappers
  import opened Errors

  const Polynomial: bv32 := 0xedb88320
  const AllOnes: bv32 := 0xffff_ffff

  /** One round of the inner table loop. */
  function CrcStep(c: bv32): bv32
  {
    if c & 1 != 0 then Polynomial ^ (c >> 1) else c >> 1
  }

  /** `k` rounds of CrcStep. */
  function Steps(c: bv32, k: nat): bv32
    decreases k
  {
    if k == 0 then c else Steps(CrcStep(c), k - 1)
  }

  /** Table entry n: n after eight rounds. */
  function TableEntry(n: bv8): bv32
  {
    Steps(n as bv32, 8)
  }

  /** The table the module builds at load time. */
  function CrcTable(): (t: seq<bv32>)
    ensures |t| == 256
  {
    seq(256, n requires 0 <= n < 256 => TableEntry(n as bv8))
  }

  /** The module-level loop that fills crcTable. */
  method BuildCrcTable() returns (table: seq<bv32>)
    ensures table == CrcTable()
  {
    table := [];
    var n := 0;
    while n < 256
      invariant 0 <= n <= 256 && |table| == n
      invariant table == CrcTable()[..n]
    {
      var c := ComputeEntry(n as bv8);
      TablePrefix(n, c);
      table := table + [c];
      n := n + 1;
    }
  }

  /** The table's first n + 1 entries: its first n, then entry n. */
  lemma TablePrefix(n: nat, c: bv32)
    requires n < 256 && c == TableEntry(n as bv8)
    ensures CrcTable()[..n + 1] == CrcTable()[..n] + [c]
  {
    assert CrcTable()[n] == c;
  }

  /** The inner loop of the table builder: eight shift-and-xor rounds. */
  method ComputeEntry(n: bv8) returns (c: bv32)
    ensures c == TableEntry(n)
  {
    c := n as bv32;
    var k := 0;
    while k < 8
      invariant 0 <= k <= 8
      invariant Steps(c, 8 - k) == TableEntry(n)
    {
      if c & 1 != 0 {
        c := 0xedb88320 ^ (c >> 1);
      } else {
        c := c >> 1;
      }
      k := k + 1;
    }
  }

  /** Known entries of the standard CRC-32 table; entry 0 is 0. */
  lemma TableSamplesLow()
    ensures CrcTable()[0] == 0
    ensures CrcTable()[1] == 0x77073096
  {
    assert Steps(0, 8) == 0;
    assert Steps(1, 8) == 0x77073096;
  }

  /** Entry 128 is the polynomial itself. */
  lemma TableSamplePolynomial()
    ensures CrcTable()[128] == Polynomial
  {
    assert Steps(128, 8) == 0xedb88320;
  }

  lemma TableSampleLast()
    ensures CrcTable()[255] == 0x2d02ef8d
  {
    assert Steps(255, 8) == 0x2d02ef8d;
  }

  /** One byte of the accumulator loop:
      `crc = crcTable[(crc ^ value) & 0xff] ^ (crc >>> 8)`. */
  function Update(crc: bv32, b: byte): bv32
  {
    Mix(crc, b as bv8)
  }

  /** The table lookup of Update on the byte's bit pattern. */
  function Mix(crc: bv32, b: bv8): bv32
  {
    TableEntry(((crc & 0xff) as bv8) ^ b) ^ (crc >> 8)
  }

  /** The accumulator after the bytes of `s`, first byte first. */
  function Fold(crc: bv32, s: seq<byte>): bv32
    decreases |s|
  {
    if s == [] then crc else Update(Fold(crc, s[..|s| - 1]), s[|s| - 1])
  }

  /** One more byte at the end is one more Update. */
  lemma FoldSnoc(crc: bv32, s: seq<byte>, b: byte)
    ensures Fold(crc, s + [b]) == Update(Fold(crc, s), b)
  {
    assert (s + [b])[..|s + [b]| - 1] == s;
  }

  /** The accumulator after one more byte of `s`. */
  lemma FoldPrefix(crc: bv32, s: seq<byte>, i: nat)
    requires i < |s|
    ensures Fold(crc, s[..i + 1]) == Update(Fold(crc, s[..i]), s[i])
  {
    assert s[..i + 1][..i] == s[..i];
  }

  /** The CRC-32 of a byte sequence. */
  function Crc32Value(s: seq<byte>): bv32
  {
    Fold(AllOnes, s) ^ AllOnes
  }

  /** Splitting the input splits the accumulation. */
  lemma {:induction false} FoldAppend(crc: bv32, a: seq<byte>, b: seq<byte>)
    ensures Fold(crc, a + b) == Fold(Fold(crc, a), b)
    decreases |b|
  {
    if b == [] {
      assert a + b == a;
    } else {
      var b' := b[..|b| - 1];
      assert (a + b)[..|a + b| - 1] == a + b';
      FoldAppend(crc, a, b');
    }
  }

  /** The CRC of no bytes is 0. */
  lemma EmptyCrc()
    ensures Crc32Value([]) == 0
  {
  }

  /** `x >>> 0`: the unsigned reading of a 32-bit pattern. */
  function Unsigned(x: bv32): u32
  {
    x as int
  }

  /** `crc32(data, offset, length)`: the unsigned CRC of the `length` bytes at
      `offset`; reading past the end of the view throws. */
  method Crc32(data: seq<byte>, offset: nat, length: nat) returns (r: Result<u32, Error>)
    ensures offset + length <= |data| ==> r == Success(Unsigned(Crc32Value(data[offset..offset + length])))
    ensures length == 0 ==> r == Success(0)
    ensures length > 0 && offset + length > |data| ==> r == Failure(RangeError)
  {
    var crc := AllOnes;
    ghost var read: seq<byte> := [];
    var i := 0;
    while i < length
      invariant 0 <= i <= length && |read| == i
      invariant i == 0 || offset + i <= |data|
      invariant offset + i <= |data| ==> read == data[offset..offset + i]
      invariant crc == Fold(AllOnes, read)
    {
      if offset + i >= |data| {
        return Failure(RangeError);
      }
      var value := data[offset + i];
      FoldSnoc(AllOnes, read, value);
      read := read + [value];
      crc := Update(crc, value);
      i := i + 1;
    }
    if offset + length <= |data| {
      assert read == data[offset..offset + length];
    }
    EmptyCrc();
    r := Success(Unsigned(crc ^ AllOnes));
  }

  /** The two's-complement reading of a 32-bit pattern, as `x ^ -1` yields it. */
  function Signed(x: bv32): (r: int)
    ensures -0x8000_0000 <= r < 0x8000_0000
    ensures r % 0x1_0000_0000 == x as int
  {
    var v := x as int;
    if v < 0x8000_0000 then v else v - 0x1_0000_0000
  }

  /** The low byte that `(crc ^ v) & 0xff` takes from a JavaScript number. */
  function LowByte(v: int): byte
  {
    v % 0x100
  }

  function LowBytes(buf: seq<int>): (r: seq<byte>)
    ensures |r| == |buf|
  {
    seq(|buf|, i requires 0 <= i < |buf| => LowByte(buf[i]))
  }

  /** XOR with a number only touches the low byte of the table index. */
  lemma IndexLowByte(crc: bv32, b: byte)
    ensures ((crc ^ (b as bv32)) & 0xff) == ((crc & 0xff) ^ (b as bv32)) & 0xff
  {
  }

  /** The incremental accumulator (class CRC32). */
  class CRC32 {
    var crc: bv32

    constructor ()
      ensures crc == AllOnes
    {
      crc := AllOnes;
    }

    /** `CRC32.crc32(buf)`: the signed CRC of the low bytes of `buf`. */
    static method Crc32Of(buf: seq<int>) returns (r: int)
      ensures r == Signed(Crc32Value(LowBytes(buf)))
    {
      var crc := AllOnes;
      var i := 0;
      while i < |buf|
        invariant 0 <= i <= |buf|
        invariant crc == Fold(AllOnes, LowBytes(buf)[..i])
      {
        FoldPrefix(AllOnes, LowBytes(buf), i);
        crc := Update(crc, LowByte(buf[i]));
        i := i + 1;
      }
      assert LowBytes(buf)[..i] == LowBytes(buf);
      r := Signed(crc ^ AllOnes);
    }

    /** `write(data, offset, length)`: folds the bytes into the accumulator.
        A read past the end throws after the bytes before it were folded in. */
    method Write(data: seq<byte>, offset: nat, length: nat) returns (r: Result<bool, Error>)
      modifies this
      ensures offset + length <= |data| ==> r == Success(true) && crc == Fold(old(crc), data[offset..offset + length])
      ensures length == 0 ==> r == Success(true) && crc == old(crc)
      ensures length > 0 && offset + length > |data| ==> r == Failure(RangeError)
      ensures offset + length > |data| && offset <= |data| ==> crc == Fold(old(crc), data[offset..])
      ensures offset > |data| ==> crc == old(crc)
    {
      ghost var read: seq<byte> := [];
      var i := 0;
      while i < length
        invariant 0 <= i <= length && |read| == i
        invariant i == 0 || offset + i <= |data|
        invariant offset + i <= |data| ==> read == data[offset..offset + i]
        invariant crc == Fold(old(crc), read)
      {
        if offset + i >= |data| {
          assert offset <= |data| ==> read == data[offset..];
          return Failure(RangeError);
        }
        var value := data[offset + i];
        FoldSnoc(old(crc), read, value);
        read := read + [value];
        crc := Update(crc, value);
        i := i + 1;
      }
      if offset + length <= |data| {
        assert read == data[offset..offset + length];
      }
      r := Success(true);
    }

    /** `getCRC()`: the signed final value (without the `>>> 0` of crc32). */
    function GetCRC(): (r: int)
      reads this
      ensures r % 0x1_0000_0000 == (crc ^ AllOnes) as int
    {
      Signed(crc ^ AllOnes)
    }
  }

  /** write(a), write(b), getCRC() agrees with crc32 over a ++ b as a 32-bit pattern. */
  method IncrementalCrc(a: seq<byte>, b: seq<byte>) returns (r: int)
    ensures r % 0x1_0000_0000 == Crc32Value(a + b) as int
  {
    var acc := new CRC32();
    var ok := acc.Write(a, 0, |a|);
    assert a[0..|a|] == a;
    ok := acc.Write(b, 0, |b|);
    assert b[0..|b|] == b;
    FoldAppend(AllOnes, a, b);
    assert acc.crc == Fold(AllOnes, a + b);
    r := acc.GetCRC();
  }

  /** The static accumulator and crc32 agree modulo 2^32 on byte inputs. */
  lemma {:induction false} StaticMatchesOneShot(buf: seq<byte>)
    ensures Signed(Crc32Value(LowBytes(buf))) % 0x1_0000_0000 == Crc32Value(buf) as int
  {
    assert LowBytes(buf) == buf;
  }
}
