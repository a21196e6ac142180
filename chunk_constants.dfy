/** The second constants table (src/format/chunks/constants.ts): the same
    signature, the chunk codes without bKGD, and the 8-bit colour values. */
module ChunkConstants {
  import opened Bytes
  import F = Constants

  const Signature: seq<byte> := [0x89, 0x50, 0x4e, 0x47, 0x0d, 0x0a, 0x1a, 0x0a]

  datatype ChunkType = IHDR | IEND | IDAT | PLTE | tRNS | gAMA | sPLT
  {
    function Code(): u32
    {
      match this
      case IHDR => 0x49484452
      case IEND => 0x49454e44
      case IDAT => 0x49444154
      case PLTE => 0x504c5445
      case tRNS => 0x74524e53
      case gAMA => 0x67414d41
      case sPLT => 0x73504C54
    }

    /** The member of the main table with the same name. */
    function Format(): (r: F.ChunkType)
      ensures r != F.ChunkType.bKGD
    {
      match this
      case IHDR => F.ChunkType.IHDR
      case IEND => F.ChunkType.IEND
      case IDAT => F.ChunkType.IDAT
      case PLTE => F.ChunkType.PLTE
      case tRNS => F.ChunkType.tRNS
      case gAMA => F.ChunkType.gAMA
      case sPLT => F.ChunkType.sPLT
    }
  }

  /** Both tables give each shared name the same code, which is the
      big-endian ASCII of the name; no code of this table is bKGD's. */
  lemma TablesAgree(t: ChunkType)
    ensures t.Code() == t.Format().Code() == F.FourCC(t.Format().Name())
    ensures t.Code() != F.ChunkType.bKGD.Code()
  {
  }

  lemma SignaturesAgree()
    ensures Signature == F.Signature
  {
  }

  /** Colors.Transparent and Colors.Opaque255 */
  const Transparent: nat := 0
  const Opaque255: nat := 255

  lemma OpaqueAgrees()
    ensures Opaque255 == F.GetOpaque(8) && Transparent == F.Transparent
  {
  }
}
