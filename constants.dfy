/** The format constants: the file signature, the chunk type codes and the
    opaque sample value (src/format/constants.ts). */
module Constants {
  import opened Bytes

  /** The eight bytes every PNG file starts with. */
  const Signature: seq<byte> := [0x89, 0x50, 0x4e, 0x47, 0x0d, 0x0a, 0x1a, 0x0a]

  /** The big-endian packing of four ASCII characters into a 32-bit code. */
  function FourCC(name: string): u32
    requires |name| == 4
    requires forall i :: 0 <= i < 4 ==> name[i] as int < 0x100
  {
    name[0] as int * 0x100_0000 + name[1] as int * 0x1_0000 + name[2] as int * 0x100 + name[3] as int
  }

  /** Bit 0x20 of a type-code byte: set means lower-case ASCII letter. */
  predicate PropertyBit(b: byte)
  {
    (b / 0x20) % 2 == 1
  }

  /** The ChunkTypes enumeration. */
  datatype ChunkType = IHDR | IDAT | PLTE | IEND | tRNS | gAMA | sPLT | bKGD
  {
    function Name(): (r: string)
      ensures |r| == 4
    {
      match this
      case IHDR => "IHDR"
      case IDAT => "IDAT"
      case PLTE => "PLTE"
      case IEND => "IEND"
      case tRNS => "tRNS"
      case gAMA => "gAMA"
      case sPLT => "sPLT"
      case bKGD => "bKGD"
    }

    /** The numeric value of the enumeration member; it is the big-endian
        ASCII of the member's name. */
    function Code(): (r: u32)
      ensures forall i :: 0 <= i < 4 ==> Name()[i] as int < 0x100
      ensures r == FourCC(Name())
    {
      match this
      case IHDR => 0x49484452
      case IDAT => 0x49444154
      case PLTE => 0x504c5445
      case IEND => 0x49454e44
      case tRNS => 0x74524e53
      case gAMA => 0x67414d41
      case sPLT => 0x73504C54
      case bKGD => 0x624b4744
    }

    predicate IsAncillary()
    {
      this in {tRNS, gAMA, sPLT, bKGD}
    }
  }

  /** No two members of ChunkTypes share a code. */
  lemma CodesDistinct(a: ChunkType, b: ChunkType)
    ensures a.Code() == b.Code() <==> a == b
  {
  }

  /** Exactly the ancillary members have bit 0x20 set in their first byte,
      the test the chunk reader uses for the `ancillary` flag. */
  lemma AncillaryBitOfCodes(t: ChunkType)
    ensures PropertyBit(t.Code() / 0x100_0000) <==> t.IsAncillary()
  {
  }

  /** Colors.Transparent */
  const Transparent: nat := 0

  /** Colors.getOpaque: the largest sample value of the given depth. */
  function GetOpaque(bitDepth: nat): (r: nat)
    ensures r < Pow2(bitDepth) <= r + 1
  {
    Pow2(bitDepth) - 1
  }
}
