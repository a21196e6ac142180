/** The chunk record the reader produces (src/format/chunks/chunk.ts and
    the object literal of `readChunk`). The payload, which the source keeps
    as a DataView, is the byte sequence it shows. */
module Chunks {
  import opened Bytes

  /** The property bits of the type code. */
  datatype Flags = Flags(ancillary: bool, private: bool, safeToCopy: bool)

  datatype Chunk = Chunk(chunkType: u32, name: string, data: seq<byte>, flags: Flags)
}
