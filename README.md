# png-universe decode path, modelled in Dafny

This project models the decode path of png-universe, a PNG reader written in
TypeScript, and proves properties of that model. It follows the decode path of a
non-interlaced PNG file, as PNG (W3C Recommendation, Second Edition, ISO/IEC
15948) describes it:

- the signature check and the chunk walk of `PNGImage` (`src/lib.ts`), with
  CRC-32 (`src/format/crc.ts`);
- the IHDR codec (`src/format/chunks/IHDR.ts`);
- the chunk-set validation of `parseChunks` and its helpers (`src/parser/`);
- palettes from PLTE, tRNS and sPLT (`src/models/palette.ts`) and the bitmap
  palette expansion (`src/models/bitmap.ts`);
- the scanline de-filter `ReverseFilter`, the forward `Filter` and the Paeth
  predictor (`src/utils/decodeFilter.ts`);
- the integer part of channel and depth conversion (`src/image/toCustomImageData.ts`);
- the cursors it all runs on: `TypedArrayStream`, the two `DataViewStream`
  classes and `DataViewBitStream`, the helpers of `src/utils.ts`, and the
  constant tables.

Each modelled source file has its own Dafny module; src/image/toCustomImageData.ts has two, `CustomImageData` for the conversion and `ConversionProps` for the properties proved about it. Three shared modules hold the rest:

- `Wrappers` holds Option, Result and Outcome.
- `Errors` holds the exceptions the source throws, one constructor each.
- `Bytes` holds byte, u16 and u32, and the big-endian helpers.

Where the source updates state, the model does too. The streams, the CRC
accumulator, `ReverseFilter`, `Filter` and `Bitmap` are classes whose methods
change fields and arrays. Each such method is proved against a specification
function, and the properties of the source are proved about those functions.

JavaScript semantics are written out where the source relies on them:

- A read past the end of a typed array gives `undefined` (None).
- A DataView read past its end throws a RangeError.
- A stored value is reduced modulo the element width.
- `NaN` stored into a typed array gives 0.
- A length of `undefined` or `NaN` gives an empty array.

The source has several defects. At each defect listed below the model keeps
the as-written behaviour next to the evidently intended one (see "## Findings").
The rest of the model uses the intended behaviour. These are:

- `readIHDR` stores the bit depth as `depth`, but its readers ask for `bitDepth`.
- The `sampleDepth` and `channelsMap` getters of `PNGImage` read properties
  (`sampleDepth`, `channelsMap`) that a palette does not have.
- `parseChunks` passes a DataView where readIHDR expects bytes.
- The filter and the de-filter use different left neighbours.
- The sPLT entry stride is wrong.
- The legacy `getDataView` uses a free name where it means its parameter.
- `DataViewBitStream.readUint` assembles its bits incorrectly.

One more defect is read as intended and has no as-written model: the
de-filter calls `readUint8` on a stream class that only has `getUint8` (see
"## Left out").

## Model

| member | source | states |
|---|---|---|
| Constants.ChunkType.Code | src/format/constants.ts:4-16 | each ChunkTypes value is the big-endian ASCII code of the member's four-letter name |
| Constants.CodesDistinct | src/format/constants.ts:4-16 | two ChunkTypes members have the same code exactly when they are the same member |
| Constants.AncillaryBitOfCodes | src/format/constants.ts:11-15 | bit 0x20 of a code's first byte is set exactly for the four members listed as ancillary |
| Constants.GetOpaque | src/format/constants.ts:28-30 | the opaque value is the largest sample of the depth: below 2^depth, and 2^depth is at most one more |
| ChunkConstants.ChunkType.Format | src/format/chunks/constants.ts:3-13 | every member of the second table has a namesake in the main table, and none of them is bKGD |
| ChunkConstants.TablesAgree | src/format/chunks/constants.ts:3-13 | both tables give each shared name the same code, the big-endian ASCII of the name, and no code is bKGD's |
| ChunkConstants.SignaturesAgree | src/format/chunks/constants.ts:1 | both modules declare the same eight signature bytes |
| ChunkConstants.OpaqueAgrees | src/format/chunks/constants.ts:20-23 | Opaque255 is getOpaque(8), and both Transparent constants are 0 |
| ParserUtils.GetChunksByType | src/parser/utils.ts:9-11 | the result holds only chunks of the type, each taken from the input, and every chunk of the type is kept |
| ParserUtils.GetChunksByTypeAppend | src/parser/utils.ts:9-11 | the filter keeps file order: filtering a concatenation concatenates the filtered parts |
| ParserUtils.GetChunksByTypeCounts | src/parser/utils.ts:9-11 | a chunk of the type occurs in the result as often as in the input; any other chunk never does |
| ParserUtils.GetFirstChunkByType | src/parser/utils.ts:4-7 | undefined exactly when no chunk has the type; otherwise the earliest chunk of the type, which is the filter's head |
| ParserUtils.FirstOfFilter | src/parser/utils.ts:4-7 | the filter is empty exactly when no chunk has the type; otherwise its head is the earliest such chunk |
| Utils.Assert | src/utils.ts:1-12 | no arguments always fails; one fails exactly when it is falsy; two fail exactly when they differ under `!==`; three or more never fail |
| Utils.AssertT | src/utils.ts:14-16 | fails exactly when the value is falsy, with the given error |
| Utils.TextAtMeaning | src/utils.ts:18-25 | a read text is the characters of the bytes up to a zero byte and contains no zero byte; a failure is a RangeError when no zero byte comes before the end |
| Utils.TextEndMeaning | src/utils.ts:21 | the `offset++` loop ends one past the terminating zero byte, or one past the first offset it could not read |
| Utils.TextStep | src/utils.ts:21-23 | a non-zero byte adds its character in front of the rest of the text |
| Utils.TextStop | src/utils.ts:21 | the loop stops at a zero byte with no more text, or at a missing byte with a RangeError |
| Utils.ReadText | src/utils.ts:18-25 | `readText(dataView, offset)` returns TextAt: the NUL-terminated text at the offset, or the RangeError |
| Utils.ScanText | src/utils.ts:18-25 | the loop the NUL-terminated readers share returns TextAt and ends at TextEnd |
| Utils.GetUint | src/utils.ts:27-34 | widths other than 8, 16 and 32 fail as unsupported before any read; otherwise the big-endian value of bits/8 bytes, or a RangeError exactly when they are not all inside the view |
| TypedArrayStreams.Store | src/utils/TypedArrayStream.ts:19-21 | an element store keeps values in range, turns undefined into 0, clamps for Uint8ClampedArray and wraps modulo the element range otherwise |
| TypedArrayStreams.TypedArrayStream.constructor | src/utils/TypedArrayStream.ts:9-13 | a new stream is on the given array with its cursor at 0 |
| TypedArrayStreams.TypedArrayStream.Read | src/utils/TypedArrayStream.ts:15-17 | the element at the cursor, undefined outside the array; the cursor moves by one either way |
| TypedArrayStreams.TypedArrayStream.Write | src/utils/TypedArrayStream.ts:19-21 | only the element at the cursor changes, to the stored value; outside the array nothing changes; the cursor moves by one |
| TypedArrayStreams.TypedArrayStream.Skip | src/utils/TypedArrayStream.ts:23-25 | the cursor moves by the item count |
| TypedArrayStreams.TypedArrayStream.Rewind | src/utils/TypedArrayStream.ts:27-29 | the cursor returns to 0 |
| TypedArrayStreams.WriteRewindRead | src/utils/TypedArrayStream.ts:15-29 | writing values, rewinding and reading as many returns the values and leaves them at the front of the array, the rest untouched |
| LegacyStreams.LegacyWindow | src/utils/stream.ts:5-8 | the window the constructor opens: an omitted offset starts it at the beginning of the buffer, not of the given view; an omitted length takes the rest |
| LegacyStreams.DataViewStream.constructor | src/utils/stream.ts:5-8 | the stream's window is LegacyWindow and its cursor starts at 0 |
| LegacyStreams.DataViewStream.GetDataView | src/utils/stream.ts:10-14 | as written: the view and the advance use the free name `length`, not the parameter |
| LegacyStreams.DataViewStream.GetDataViewOfLength | src/utils/stream.ts:10-14 | as intended: a view of `byteLength` bytes at the cursor, which then moves past them |
| LegacyStreams.GetDataViewIgnoresLength | src/utils/stream.ts:11-12 | on a fresh stream with `length` bound to 0, getDataView(4) returns an empty view at 0 and leaves the cursor at 0; on a second fresh stream the intended call returns a four-byte view at 0 and moves the cursor to 4 |
| LegacyStreams.DataViewStream.GetUint8 | src/utils/stream.ts:16-18 | the byte at the cursor or a RangeError; the cursor moves by one even when the read fails |
| LegacyStreams.DataViewStream.GetUint16 | src/utils/stream.ts:20-24 | the big-endian 16-bit value at the cursor; the cursor moves by 2 only after a successful read |
| LegacyStreams.DataViewStream.GetUint32 | src/utils/stream.ts:26-30 | the big-endian 32-bit value at the cursor; the cursor moves by 4 only after a successful read |
| LegacyStreams.ReadThreeBytes | src/utils/stream.ts:16-18 | three getUint8 calls on a fresh stream return the window's first three bytes in order |
| Crc.CrcTable | src/format/crc.ts:1-12 | the table has 256 entries, entry n being n after eight shift-and-xor rounds |
| Crc.BuildCrcTable | src/format/crc.ts:1-12 | the module-level loop builds exactly CrcTable |
| Crc.ComputeEntry | src/format/crc.ts:3-11 | the inner loop computes table entry n |
| Crc.TableSamplesLow | src/format/crc.ts:1-12 | entries 0 and 1 are 0 and 0x77073096, as in the standard CRC-32 table |
| Crc.TableSamplePolynomial | src/format/crc.ts:1-12 | entry 128 is the polynomial 0xEDB88320 |
| Crc.TableSampleLast | src/format/crc.ts:1-12 | entry 255 is 0x2D02EF8D |
| Crc.FoldAppend | src/format/crc.ts:26-29 | accumulating a concatenation is accumulating the second part from the first part's accumulator |
| Crc.EmptyCrc | src/format/crc.ts:37-44 | the CRC of no bytes is 0 |
| Crc.Crc32 | src/format/crc.ts:37-44 | `crc32(data, offset, length)` is the unsigned CRC of the bytes in range; no bytes gives 0; a read past the end throws a RangeError |
| Crc.Signed | src/format/crc.ts:22 | `x ^ -1` yields the two's-complement reading of the pattern, congruent to it modulo 2^32 |
| Crc.IndexLowByte | src/format/crc.ts:20 | XOR with a byte only touches the low byte of the table index |
| Crc.CRC32.constructor | src/format/crc.ts:15 | a new accumulator holds all ones (-1) |
| Crc.CRC32.Crc32Of | src/format/crc.ts:17-23 | `CRC32.crc32(buf)` is the signed CRC of the low bytes of the numbers |
| Crc.CRC32.Write | src/format/crc.ts:25-31 | write folds the bytes in range into the accumulator and returns true; a read past the end throws after the bytes before it were folded in |
| Crc.CRC32.GetCRC | src/format/crc.ts:32-34 | getCRC is the final XOR of the accumulator, as a signed number |
| Crc.IncrementalCrc | src/format/crc.ts:25-34 | write(a), then write(b), then getCRC agrees modulo 2^32 with the CRC of a followed by b |
| Crc.StaticMatchesOneShot | src/format/crc.ts:17-23 | on byte inputs the static crc32 and the exported crc32 agree modulo 2^32 |
| DataViews.NewDataView | src/utils/dataViewStream.ts:11 | `new DataView` fails with a RangeError exactly for a negative offset, an offset past the end or a window past the end; an omitted length takes the rest of the buffer |
| DataViews.GetUint8 | src/utils/dataViewStream.ts:40 | the byte at the offset, or a RangeError exactly outside the view |
| DataViews.GetUint16 | src/utils/dataViewStream.ts:44 | the big-endian value of two bytes, or a RangeError exactly when they are not both inside the view |
| DataViews.GetUint32 | src/utils/dataViewStream.ts:50 | the big-endian value of four bytes, or a RangeError exactly when they are not all inside the view |
| DataViews.ToUint8 | src/utils/dataViewStream.ts:68 | setUint8 keeps byte values and reduces any other integer modulo 2^8 |
| DataViews.ToUint16 | src/utils/dataViewStream.ts:72 | setUint16 keeps 16-bit values and reduces any other integer modulo 2^16 |
| DataViews.ToUint32 | src/utils/dataViewStream.ts:77 | setUint32 keeps 32-bit values and reduces any other integer modulo 2^32 |
| DataViews.Overwrite | src/utils/dataViewStream.ts:62 | storing bytes at an offset puts them there and leaves every other byte |
| DataViews.ReadBack16 | src/utils/dataViewStream.ts:71-74 | what setUint16 stores, getUint16 reads back |
| DataViews.ReadBack32 | src/utils/dataViewStream.ts:76-79 | what setUint32 stores, getUint32 reads back |
| DataViewStreams.DataViewStream.constructor | src/utils/dataViewStream.ts:10-13 | the window is `new DataView(buffer, view.byteOffset + byteOffset, byteLength)`, the length defaulting to the given view's; the cursor starts at 0 |
| DataViewStreams.DataViewStream.ReadText | src/utils/dataViewStream.ts:15-22 | the NUL-terminated text at the cursor, or the RangeError; the cursor ends one past the zero byte, or one past the first missing byte |
| DataViewStreams.DataViewStream.ReadDataView | src/utils/dataViewStream.ts:24-28 | a view of `byteLength` bytes of the same buffer at the cursor, or the RangeError; the cursor moves past it on success |
| DataViewStreams.DataViewStream.ReadUint | src/utils/dataViewStream.ts:30-37 | getUint of the width at the cursor; an unsupported width fails without moving the cursor; the cursor moves as readUint8/16/32 move it |
| DataViewStreams.DataViewStream.ReadUint8 | src/utils/dataViewStream.ts:39-41 | the byte at the cursor or a RangeError; the cursor moves by one either way |
| DataViewStreams.DataViewStream.ReadUint16 | src/utils/dataViewStream.ts:43-47 | the big-endian 16-bit value at the cursor; the cursor moves by 2 only after a successful read |
| DataViewStreams.DataViewStream.ReadUint32 | src/utils/dataViewStream.ts:49-53 | the big-endian 32-bit value at the cursor; the cursor moves by 4 only after a successful read |
| DataViewStreams.DataViewStream.WriteDataView | src/utils/dataViewStream.ts:58-65 | the source bytes are copied into the buffer at the cursor and the cursor moves past them; a copy past the end is a RangeError that changes nothing |
| DataViewStreams.DataViewStream.WriteUint8 | src/utils/dataViewStream.ts:67-69 | the value modulo 2^8 is stored at the cursor, or a RangeError changes nothing; the cursor moves by one either way |
| DataViewStreams.DataViewStream.WriteUint16 | src/utils/dataViewStream.ts:71-74 | the value modulo 2^16 is stored big-endian at the cursor and the cursor moves by 2, or a RangeError changes nothing |
| DataViewStreams.DataViewStream.WriteUint32 | src/utils/dataViewStream.ts:76-79 | the value modulo 2^32 is stored big-endian at the cursor and the cursor moves by 4, or a RangeError changes nothing |
| DataViewStreams.DataViewStream.Skip | src/utils/dataViewStream.ts:81-83 | the cursor moves by the byte count |
| DataViewStreams.DataViewStream.Rewind | src/utils/dataViewStream.ts:85-87 | the cursor returns to 0 |
| DataViewStreams.DataViewStream.ByteLength | src/utils/dataViewStream.ts:97-99 | the getter is the window's length |
| DataViewStreams.DataViewStream.ToDataView | src/utils/dataViewStream.ts:89-95 | `toDataView()` and `toUint8Array()` both give the stream's own window, whatever the cursor |
| DataViewStreams.WriteRewindRead8 | src/utils/dataViewStream.ts:39-87 | writeUint8, rewind, readUint8 returns the value modulo 2^8 |
| DataViewStreams.WriteRewindRead16 | src/utils/dataViewStream.ts:43-87 | writeUint16, rewind, readUint16 returns the value modulo 2^16 |
| DataViewStreams.WriteRewindRead32 | src/utils/dataViewStream.ts:49-87 | writeUint32, rewind, readUint32 returns the value modulo 2^32 |
| BitStreams.BitsToMask | src/utils/dataViewBitStream.ts:1 | the mask table has nine entries |
| BitStreams.MasksAreLowBits | src/utils/dataViewBitStream.ts:1 | entry k of `bitsToMask` is 2^k - 1 |
| BitStreams.ReverseBitsMirrors | src/utils/dataViewBitStream.ts:2-7 | bit i of a `reverseBitsInByte` entry is bit 7 - i of its index |
| BitStreams.ReverseBitsInvolution | src/utils/dataViewBitStream.ts:2-7 | looking a byte up twice gives it back |
| BitStreams.NextByteSpec | src/utils/dataViewBitStream.ts:27-31 | nextByte moves the offset by one and sets 8 bits left before reading; the read fails exactly outside the window, leaving the old byte |
| BitStreams.Chunk | src/utils/dataViewBitStream.ts:65 | the chunk taken, `(byte >> (bitsLeft - 1)) & bitsToMask[k]`, is below 256 |
| BitStreams.ReadLoopConsumes | src/utils/dataViewBitStream.ts:58-76 | the loop keeps between 0 and 8 bits left, and a successful read of n bits moves the bit position by exactly n |
| BitStreams.FirstBitReadsAs128 | src/utils/dataViewBitStream.ts:65-67 | as written, readUint(1) of a stream whose first byte has its top bit set returns 128, not 1 |
| BitStreams.ReadLoopLoads | src/utils/dataViewBitStream.ts:62 | with no bits left the loop calls nextByte first and stops at its error |
| BitStreams.ReadLoopTakes | src/utils/dataViewBitStream.ts:64-72 | with bits left the loop takes min(bitsLeft, remaining) bits and adds the reversed chunk at bitsRead |
| BitStreams.IntendedChunk | src/utils/dataViewBitStream.ts:65 | as intended, the next k unread bits from the top of the byte form a number below 2^k |
| BitStreams.IntendedByte | src/utils/dataViewBitStream.ts:58-76 | as intended, a whole-byte step at a byte boundary appends the next byte below the value read so far |
| BitStreams.IntendedReadsBigEndian | src/utils/dataViewBitStream.ts:78-88 | as intended, readUint8, readUint16 and readUint32 of a fresh stream read the first one, two and four bytes big-endian, as getUint8/16/32 do |
| BitStreams.IntendedReads32 | src/utils/dataViewBitStream.ts:86-88 | as intended, readUint32 of a fresh stream is the first four bytes big-endian |
| BitStreams.ReadUint8OfOneIsZero | src/utils/dataViewBitStream.ts:78-80 | as written, readUint8 of a stream whose first byte is 1 returns 0; as intended it returns 1 |
| BitStreams.DataViewBitStream.constructor | src/utils/dataViewBitStream.ts:20-25 | the window is `new DataView(buffer, view.byteOffset + byteOffset, byteLength)`; the cursor starts before byte 0 with no bits left |
| BitStreams.DataViewBitStream.NextByte | src/utils/dataViewBitStream.ts:27-31 | nextByte changes the fields as NextByteSpec says |
| BitStreams.DataViewBitStream.ReadUint | src/utils/dataViewBitStream.ts:58-76 | the loop returns the value and leaves the cursor that ReadUintSpec gives, or stops at the first failing nextByte |
| BitStreams.DataViewBitStream.TakeBits | src/utils/dataViewBitStream.ts:64-70 | one chunk step takes min(bitsLeft, remaining) bits, returns Chunk and lowers bitsLeft by that much |
| BitStreams.DataViewBitStream.ReadUint8 | src/utils/dataViewBitStream.ts:78-80 | readUint8 is readUint(8) |
| BitStreams.DataViewBitStream.ReadUint16 | src/utils/dataViewBitStream.ts:82-84 | readUint16 is readUint(16) |
| BitStreams.DataViewBitStream.ReadUint32 | src/utils/dataViewBitStream.ts:86-88 | readUint32 is readUint(32) |
| BitStreams.DataViewBitStream.ReadText | src/utils/dataViewBitStream.ts:36-45 | after the move to a byte boundary, the NUL-terminated text at the offset, the offset ending one past it; a failing boundary step returns its error |
| BitStreams.DataViewBitStream.ReadDataView | src/utils/dataViewBitStream.ts:50-56 | after the move to a byte boundary, a view of `byteLength` bytes at the offset, which then moves past it; a failing boundary step returns its error |
| Bitmaps.ColorOf | src/models/bitmap.ts:17 | an undefined element gives four undefined channels; otherwise the palette's getColor |
| Bitmaps.PixelBytes | src/models/bitmap.ts:18-21 | a colour becomes four bytes in the Uint8Array |
| Bitmaps.ImageBytes | src/models/bitmap.ts:12-33 | toImageData's bytes are four per pixel |
| Bitmaps.Bitmap.constructor | src/models/bitmap.ts:5-9 | the bitmap holds the header, the data and the palette it is given |
| Bitmaps.Bitmap.ToImageData | src/models/bitmap.ts:11-39 | the result keeps width and height, and its bytes are ImageBytes of the colour type, width times height pixels, the data and the palette |
| Bitmaps.ExpandPixels | src/models/bitmap.ts:16-22 | after the loop, byte k is channel k % 4 of the colour of element k / 4 |
| Bitmaps.StorePixel | src/models/bitmap.ts:18-21 | the four stores write the colour's bytes at pixel `index` and nothing else |
| Bitmaps.ImagePixel | src/models/bitmap.ts:14-32 | for the two colour types with a lookup loop, pixel i holds the palette colour of element i |
| Bitmaps.ImageZeros | src/models/bitmap.ts:14-33 | every other colour type leaves all bytes zero |
| Bitmaps.ImagePaletteColor | src/models/bitmap.ts:25-31 | an element naming a colour the palette holds gives that colour's slots modulo 256 |
| Bitmaps.ChannelOfSlot | src/models/bitmap.ts:26-30 | channel c of a colour the palette holds is slot 4v + c modulo 256 as a byte |
| Bitmaps.StoredByte | src/models/bitmap.ts:18 | storing any integer in the Uint8Array keeps it modulo 256 |
| Bitmaps.ImageMissingColor | src/models/bitmap.ts:26-30 | an element past the data or outside the palette gives a transparent black pixel |
| Bitmaps.IndexedPixelFromPlte | src/models/bitmap.ts:24-32 | over the PLTE palette, pixel i with index v is the PLTE triple at 3v with the tRNS alpha of v, or 255 when tRNS does not reach it |
| Bitmaps.PixelOfBytes | src/models/bitmap.ts:18-21 | a colour of four bytes is stored as those bytes |
| ImageProps.ChannelsMap.Length | src/image/imageProps.ts:4-13 | the samples per pixel of a layout are the length of its name |
| ImageProps.LayoutOfChannels | src/image/imageProps.ts:4-13 | a pixel is one or three colour samples plus alpha when there is one; the layouts with alpha are those whose name ends in 'A' |
| IHDR.ReadUInt32BE | src/format/chunks/IHDR.ts:1-5 | the four bytes at the offset are the big-endian encoding of the result |
| IHDR.ReadUInt8 | src/format/chunks/IHDR.ts:7-8 | the byte at the offset |
| IHDR.WrittenUInt32 | src/format/chunks/IHDR.ts:10-15 | the four stored bytes are the big-endian encoding of the value modulo 2^32 |
| IHDR.WriteUInt32BE | src/format/chunks/IHDR.ts:10-15 | the four bytes at the offset become WrittenUInt32, stores outside the array are dropped, and nothing else changes |
| IHDR.WriteUInt8 | src/format/chunks/IHDR.ts:17-19 | one element becomes the value modulo 2^8, and nothing else changes |
| IHDR.ColorTypeValues | src/format/chunks/IHDR.ts:21-34 | the ORs of the masks give exactly the colour types 0, 2, 3, 4 and 6 |
| IHDR.Ihdr.SampleDepth | src/format/chunks/IHDR.ts:63-64 | the documented sample depth is 8 for indexed colour and the bit depth for colour types without the palette bit |
| IHDR.IhdrRecord.SampleDepthAsWritten | src/format/chunks/IHDR.ts:77-79 | as written the getter has a value exactly for the palette bit, and then it is 8 |
| IHDR.IhdrRecord.SampleDepth | src/format/chunks/IHDR.ts:77-79 | as intended: 8 with the palette bit, the stored depth otherwise, agreeing with the as-written getter where that has a value |
| IHDR.IhdrRecord.Header | src/format/chunks/IHDR.ts:41-65 | the record read as the IHDR interface keeps the intended sample depth |
| IHDR.SampleDepthUndefinedForTrueColor | src/format/chunks/IHDR.ts:78 | a truecolour header of depth 8 has no sample depth as written, while the intended value is 8 |
| IHDR.ReadIHDR | src/format/chunks/IHDR.ts:68-81 | the fields are the big-endian words at 0 and 4 and the bytes at 8 to 12, with no validation of their values; a payload under 13 bytes is reported |
| IHDR.Element | src/format/chunks/IHDR.ts:7-8 | an element is a number exactly inside the sequence, and then it is the byte |
| IHDR.ReadUInt32BEOf | src/format/chunks/IHDR.ts:1-5 | the JavaScript sum is a number exactly when all four elements exist, and then it is readUInt32BE |
| IHDR.FieldsOf | src/format/chunks/IHDR.ts:69-80 | a record's fields are all numbers |
| IHDR.ReadIHDRFields | src/format/chunks/IHDR.ts:68-81 | as written: each field is a number exactly when the bytes it reads exist |
| IHDR.ReadIHDRAgrees | src/format/chunks/IHDR.ts:68-81 | the short-payload error is exactly the case where, as written, some field is undefined; otherwise both give the same numbers |
| IHDR.ShortPayloadKeepsHeader | src/format/chunks/IHDR.ts:70-76 | a payload of 10 to 12 bytes yields, as written, the width, height, depth and colour type of a whole header, and an undefined interlace |
| IHDR.DataViewFieldsUndefined | src/format/chunks/IHDR.ts:68-81 | readIHDR of a DataView, which has no indexed elements, leaves every field undefined |
| IHDR.IhdrBytes | src/format/chunks/IHDR.ts:83-91 | writeIHDR stores 13 bytes |
| IHDR.WriteIHDR | src/format/chunks/IHDR.ts:83-91 | bytes 0 to 12 become IhdrBytes of the header, as far as the array reaches, and the rest is untouched |
| IHDR.ReadAfterWrite | src/format/chunks/IHDR.ts:68-91 | readIHDR after writeIHDR gives the header back, reduced by the stores, the bit depth under `depth`; fields in range come back unchanged |
| Palettes.Palette.GetSampleDepth | src/models/palette.ts:77-79 | 16 exactly for a Uint16Array palette, 8 otherwise |
| Palettes.Palette.GetName | src/models/palette.ts:63-65 | the name the palette was built with |
| Palettes.Palette.GetColorsCount | src/models/palette.ts:70-72 | the number of slots, four per colour; the doc comment at palette.ts:67-69 calls it the number of colours, so a palette of n colours reports 4n |
| Palettes.Palette.GetColor | src/models/palette.ts:85-93 | slots 4·index to 4·index+3 as r, g, b and a inside the array; all four undefined for an index outside it |
| Palettes.PltePaletteOfUndefinedDepth | src/models/palette.ts:6-28 | with an undefined bit depth fromPLTE returns an empty 8-bit palette with the usual name, whatever the chunks hold |
| Palettes.PlteColors | src/models/palette.ts:6-28 | fromPLTE builds min(2^bitDepth, floor(PLTE length / 3)) 8-bit colours; colour i is PLTE bytes 3i to 3i+2 with alpha tRNS byte i, or 255 when tRNS does not reach it |
| Palettes.PlteChannel | src/models/palette.ts:12-24 | channel c of colour i is PLTE byte 3i+c for c < 3, and the tRNS byte or 255 for alpha |
| Palettes.FromPLTE | src/models/palette.ts:6-28 | the two loops build exactly PltePalette of the depth and the payloads |
| Palettes.StoreColor | src/models/palette.ts:13-16 | the first loop's body sets colour `index`'s four slots and keeps the ones before |
| Palettes.EntryReads | src/models/palette.ts:46-49 | the first c reads of an entry give c samples, or the error of getUint (RangeError for a supported width) |
| Palettes.EntryReadsFailureSticks | src/models/palette.ts:46-49 | a failed read ends the entry: the later samples keep the error |
| Palettes.EntrySamples | src/models/palette.ts:46-49 | one entry gives four samples |
| Palettes.SpltReads | src/models/palette.ts:44-50 | the first `count` entries give four samples each, or the error of the first failing read |
| Palettes.Fill | src/models/palette.ts:43-49 | the typed array keeps its length whatever is stored into it |
| Palettes.SpltPalette | src/models/palette.ts:30-53 | a missing name terminator or depth byte is a RangeError, a depth other than 8 or 16 an assertion error; a palette has the name read and the depth byte as its sample depth |
| Palettes.SpltEntries | src/models/palette.ts:35-52 | the palette is named by the name and is a Uint8Array for depth 8, a Uint16Array otherwise; the only failure for depth 8 or 16 is a RangeError |
| Palettes.FillSnoc | src/models/palette.ts:46-49 | one more store sets the next slot when it is inside the array and is dropped otherwise |
| Palettes.CeilIndex | src/models/palette.ts:44 | the loop visits exactly the indices i with i·stride below the payload length, ceil(n / stride) of them |
| Palettes.SpltReadsFailureSticks | src/models/palette.ts:44-50 | once a read has failed, further entries do not change the outcome |
| Palettes.Put | src/models/palette.ts:46 | a typed-array store sets the slot inside the array and is dropped outside it |
| Palettes.ReadSample | src/models/palette.ts:46 | one read and store succeeds exactly when getUint does, and then appends its sample |
| Palettes.ReadComponent | src/models/palette.ts:46-49 | one statement of the loop body stores the next sample of the entry, or ends the entry with its error |
| Palettes.ReadEntry | src/models/palette.ts:45-49 | the loop body stores the entry's four samples, or stops at its first failing read |
| Palettes.FromSPLT | src/models/palette.ts:30-53 | fromSPLT computes exactly SpltPalette of the payload |
| Palettes.ReadSplt | src/models/palette.ts:35-52 | past the header, fromSPLT computes exactly SpltEntries |
| Palettes.ReadEntries | src/models/palette.ts:43-50 | the loop over the entries ends with the outcome of SpltReads, its samples stored over the zeroed array |
| Palettes.ReadNextEntry | src/models/palette.ts:44-50 | one turn of the loop reads the entry at `prefixLength + index * indexLength` |
| Palettes.EntryReadsSucceed | src/models/palette.ts:46-49 | an entry's reads succeed exactly when its last sample fits in the payload |
| Palettes.EntryReadsAt | src/models/palette.ts:46-49 | sample j of an entry is the one read at `base + j * sampleBytes` |
| Palettes.SpltReadsSucceed | src/models/palette.ts:44-50 | the first `count` entries read successfully exactly when the fourth sample of the last of them fits |
| Palettes.SpltReadsStep | src/models/palette.ts:44-50 | one more entry reads successfully exactly when the earlier ones do and its fourth sample fits |
| Palettes.SpltReadsAt | src/models/palette.ts:44-50 | sample c of entry i is the one read at `prefix + i * stride + c * sampleBytes` |
| Palettes.SlotInVisitedEntry | src/models/palette.ts:41-44 | each slot of the truncated typed array belongs to an entry the loop visits |
| Palettes.SpltPaletteEntries | src/models/palette.ts:30-53 | past a good header, fromSPLT is SpltEntries of the name and the depth byte |
| Palettes.SpltEntriesSucceed | src/models/palette.ts:39-50 | the entries decode exactly when the fourth sample of the last entry the loop visits lies inside the payload |
| Palettes.SpltEntriesSample | src/models/palette.ts:39-50 | slot 4i+c of a decoded palette holds sample c of entry i, read at `prefix + i·(2 + 4·(depth/2)) + c·(depth/2)` |
| Palettes.SpltWholeEntries | src/models/palette.ts:39-50 | a payload of whole entries of the code's stride always decodes, into four slots per entry |
| Palettes.SpltOneEntry | src/models/palette.ts:39-50 | a payload of exactly one entry of the code's stride decodes into that entry's four samples |
| Palettes.SpltOneEntryNamedA | src/models/palette.ts:39-50 | an 8-bit palette named "a" with 18 payload bytes is one entry whose samples are payload bytes 0, 4, 8 and 12 |
| Palettes.SpltStandardLayoutMisread | src/models/palette.ts:39-41 | as written, three entries in the PNG standard's 6-byte layout decode as one colour (1, 0, 7, 9) |
| Palettes.SpltTwoStandardEntriesFail | src/models/palette.ts:39-41 | as written, two standard 6-byte entries fail with a RangeError: the fourth read falls outside the payload |
| Palettes.SpltEntriesStandard | src/models/palette.ts:39-41 | as intended, entries of 6 or 10 bytes with 1 or 2 bytes per sample; same naming, typed array and RangeError as the code |
| Palettes.SpltPaletteStandard | src/models/palette.ts:30-53 | fromSPLT's header steps followed by the standard entry layout |
| Palettes.SpltWholeStandardEntries | src/models/palette.ts:39-50 | as intended, a payload of whole standard entries always decodes, into four slots per entry |
| Palettes.SpltStandardSample | src/models/palette.ts:44-50 | as intended, slot 4i+c holds sample c of entry i, read at `prefix + i·(2 + 4·(depth/8)) + c·(depth/8)` |
| Palettes.SpltStandardLayoutRead | src/models/palette.ts:39-41 | as intended, the three standard entries decode into the colours (1, 2, 3, 4), (5, 6, 7, 8) and (9, 10, 11, 12) |
| Palettes.StandardHeaderNamedA | src/models/palette.ts:32-37 | for an 8-bit palette named "a", the header steps lead to the standard entries |
| Palettes.StandardEntry | src/models/palette.ts:44-50 | as intended, entry i of a 21-byte 8-bit payload named "a" holds the four bytes from 3 + 6i |
| Parser.ParsePalette | src/parser/parser.ts:93-101 | a palette exactly for indexed colour with a PLTE chunk: fromPLTE of the first PLTE payload with the first tRNS payload, the depth read as `bitDepth` |
| Parser.ParsePaletteAsWritten | src/parser/parser.ts:93-101 | as written (`IHDR.bitDepth` undefined): present in the same cases, with the same name and no colours |
| Parser.ParsePaletteAsWrittenLosesColors | src/parser/parser.ts:100 | an indexed image whose first PLTE holds one RGB triple gets one colour (4 slots) as intended and none as written |
| Parser.SingleTransparentColor | src/parser/parser.ts:106-123 | undefined for colour types other than greyscale and truecolour and without tRNS; a short payload throws a RangeError |
| Parser.TransparentGrey | src/parser/parser.ts:113-114 | for greyscale, the u16 at byte 0 of the first tRNS payload, which succeeds exactly when it has two bytes |
| Parser.TransparentTrueColor | src/parser/parser.ts:116-121 | for truecolour, the three u16 at bytes 0, 2 and 4, which succeed exactly when the payload has six bytes |
| Parser.SpltPalettes | src/parser/parser.ts:134-136 | one palette per sPLT chunk, or the error of the first that throws |
| Parser.SpltPalettesFailureSticks | src/parser/parser.ts:134-136 | the first failing sPLT chunk decides the outcome of the whole list |
| Parser.SpltPalettesEach | src/parser/parser.ts:134-136 | the list succeeds exactly when every chunk decodes, and palette i is the palette of chunk i |
| Parser.SpltPalettesAt | src/parser/parser.ts:134-136 | palette i of a successful list is fromSPLT of chunk i |
| Parser.SpltPalettesAllSucceed | src/parser/parser.ts:134-136 | when every chunk decodes the list succeeds |
| Parser.SpltPalettesFirstError | src/parser/parser.ts:134-136 | the error of the list is the error of its first failing chunk |
| Parser.PltePalettes | src/parser/parser.ts:127-132 | one PLTE palette exactly for a non-indexed image with a PLTE chunk, none otherwise |
| Parser.SuggestedPalettes | src/parser/parser.ts:125-139 | fails exactly when an sPLT chunk throws; undefined exactly for no PLTE palette and no sPLT chunk; otherwise the PLTE palette followed by one per sPLT chunk |
| Parser.ParseSuggestedPalettes | src/parser/parser.ts:125-139 | the loop computes exactly SuggestedPalettes |
| Parser.PushSpltPalettes | src/parser/parser.ts:134-136 | the push loop appends SpltPalettes to what was there, or stops with its error |
| Parser.PayloadsAppend | src/parser/parser.ts:144-150 | the inflater's input splits along the chunk list |
| Parser.ParseData | src/parser/parser.ts:141-159 | an inflater error throws its message; otherwise the de-filtered inflated payloads of the IDAT chunks in order |
| Parser.Prepare | src/parser/parser.ts:21-29 | no IDAT chunk fails first; on success the header is readIHDR of the first chunk with a known colour type, and the palette is parsePalette's |
| Parser.Dispatch | src/parser/parser.ts:47-90 | succeeds exactly when the PLTE and tRNS chunks present are those the colour type admits, failing with the branch's own message; names the decoder of the colour type with the alpha flag and, for indexed colour, the palette |
| Parser.ParseChunks | src/parser/parser.ts:21-91 | a result keeps the chunks and has a known colour type; the IDAT error is returned exactly when no IDAT chunk exists |
| Parser.ParseChunksSucceeds | src/parser/parser.ts:21-91 | parseChunks succeeds exactly when there is an IDAT chunk, the first chunk holds a header of a known colour type, the helpers do not throw, and the PLTE and tRNS chunks are those the colour type admits |
| Parser.ParseChunksResult | src/parser/parser.ts:41-87 | a result carries the header, the suggested palettes, the de-filtered data, the transparent colour for the three types that keep it, and the palette for indexed colour only |
| Parser.UnknownColorTypeThrows | src/parser/parser.ts:90 | with a colour type outside the five, the de-filter's error is what parseChunks throws, before the final `impossible error` |
| Lib.CodesAgree | src/lib.ts:77-82 | the codes the walk compares against are the IHDR and IEND members of ChunkTypes |
| Lib.SignatureCheck | src/lib.ts:100-105 | the file passes exactly when it starts with the eight signature bytes; a proper prefix of the signature runs out with a RangeError; any other file fails with the signature error |
| Lib.SignatureFromMeaning | src/lib.ts:102-104 | the loop from position k passes exactly when bytes k to 7 are the signature's, and runs out exactly on a matching short file |
| Lib.CheckSignature | src/lib.ts:100-105 | the loop computes exactly SignatureCheck |
| Lib.ChunkOf | src/lib.ts:107-127 | readChunk succeeds exactly when the length, type, payload and stored CRC are inside the view and the CRC of type and payload matches; the chunk has the type, the name, the payload and bit 0x20 of type bytes 0, 1 and 3 as flags; a mismatch names the chunk and both values |
| Lib.ReadChunk | src/lib.ts:107-127 | the reader with its CRC loop computes exactly ChunkOf |
| Lib.ChunkBytes | src/lib.ts:107-114 | a laid-out chunk is twelve bytes longer than its payload |
| Lib.ReadChunkBytes | src/lib.ts:107-127 | readChunk reads back the type, name, payload and flags of a laid-out chunk, whatever follows it |
| Lib.CorruptedCrc | src/lib.ts:113-114 | a stored CRC other than the computed one is reported with the chunk's name and both values |
| Lib.ChunkOfLayout | src/lib.ts:107-127 | readChunk of length, type, payload and CRC bytes succeeds exactly when the stored CRC is the computed one |
| Lib.U32AtSlice | src/lib.ts:108-109 | a 32-bit read depends only on the four bytes read |
| Lib.ChunkOfFramed | src/lib.ts:117-121 | every chunk readChunk returns fits in the bytes it read, with twelve framing bytes |
| Lib.NextOffset | src/lib.ts:75 | the next offset is past the chunk just read and inside the file |
| Lib.ChunksFrom | src/lib.ts:72-83 | a successful walk holds at least one chunk |
| Lib.Prepend | src/lib.ts:80 | the chunks pushed stay in front of those read later, and a failure stays the failure |
| Lib.WalkStep | src/lib.ts:73-83 | one step: the reader's error, the IHDR check on the first chunk, the stop after IEND, or the chunk followed by the rest of the walk |
| Lib.ReadChunks | src/lib.ts:66-84 | the signature check and the `while (true)` loop compute exactly FileChunks |
| Lib.PrependTwice | src/lib.ts:80 | pushing in two steps is pushing both |
| Lib.WalkShape | src/lib.ts:77-82 | a successful walk from the file's start begins with IHDR and ends with its only IEND chunk |
| Lib.WalkLayout | src/lib.ts:74-75 | chunk i of a successful walk is the chunk read at the start plus the lengths of the chunks before it: the chunks lie back to back in file order |
| Lib.WalkHead | src/lib.ts:74 | a successful walk starts with the chunk read at its offset |
| Lib.WalkCons | src/lib.ts:73-83 | a walk of more than one chunk is its first chunk followed by the walk from where that chunk ends |
| Lib.LayoutStep | src/lib.ts:74-75 | the position of chunk i follows from that of chunk i - 1 of the rest |
| Lib.SameRead | src/lib.ts:74 | a read depends only on its offset |
| Lib.SpanCons | src/lib.ts:75 | the bytes of a list of chunks are the first chunk's twelve plus payload, then the others' |
| Lib.WalkErrors | src/lib.ts:73-83 | a failing walk fails with the reader's error or because the first chunk is not IHDR |
| Lib.FileErrors | src/lib.ts:66-84 | reading a file's chunks fails only by a bad signature, a read past the end (also how a file without IEND ends), a CRC mismatch or a first chunk other than IHDR |
| Lib.Laid | src/lib.ts:107-114 | the bytes of one chunk are twelve more than its payload |
| Lib.Records | src/lib.ts:80 | the records of laid-out chunks are one per chunk, in order |
| Lib.ChunkOfReadsBack | src/lib.ts:107-127 | readChunk reads every laid-out chunk back as its record whatever follows it, and fails with a RangeError on no bytes |
| Lib.ConcatCons | src/lib.ts:74-75 | the layout of a list is the first chunk's bytes followed by the others' |
| Lib.EncodedFirst | src/lib.ts:74 | the first chunk of a layout is read back with its type and payload |
| Lib.EncodedLayout | src/lib.ts:75 | where the first chunk of a layout ends, the layout of the others begins |
| Lib.DropSplit | src/lib.ts:75 | past the first part of what follows the offset lies the second |
| Lib.WalkReadBy | src/lib.ts:74-83 | one step of the walk from the chunk read at the offset |
| Lib.WalkOn | src/lib.ts:80-82 | a chunk that neither ends nor fails the walk is put in front of the chunks walked after it |
| Lib.WalkEncodedBy | src/lib.ts:72-83 | chunks with IEND last and nowhere before are walked back one for one, whatever follows IEND |
| Lib.IendOnlyLast | src/lib.ts:82 | IEND last and nowhere before also holds of the chunks after the first |
| Lib.WalkWithoutIendBy | src/lib.ts:72-83 | chunks without IEND run off the end: the walk fails as the reader does on no bytes |
| Lib.SignedFile | src/lib.ts:69-72 | past a good signature the chunk list is the walk from byte 8 |
| Lib.WalkEncoded | src/lib.ts:66-84 | a file of the signature and chunks with IHDR first, IEND last and nowhere before, followed by anything, reads back as those chunks |
| Lib.WalkWithoutIend | src/lib.ts:73-83 | a file of the signature and IHDR-led chunks without IEND fails with a RangeError |
| Lib.FirstNotIhdr | src/lib.ts:77-79 | a first chunk other than IHDR is rejected once it has been read |
| Lib.PNGImage.constructor | src/lib.ts:66-86 | the image holds the parse result |
| Lib.PNGImage.FromPNGDataStream | src/lib.ts:62-64 | the image holds the decode result, or the decode's error is thrown |
| Lib.PNGImage.BitDepthAsWritten | src/lib.ts:21-23 | as written the `bitDepth` getter is undefined: the header names the field `depth` |
| Lib.PNGImage.Width | src/lib.ts:15-17 | the header's width |
| Lib.PNGImage.Height | src/lib.ts:18-20 | the header's height |
| Lib.PNGImage.BitDepth | src/lib.ts:21-23 | as intended: the header's `depth` field |
| Lib.PNGImage.SampleDepthAsWritten | src/lib.ts:24-26 | as written the `sampleDepth` getter is undefined for every colour type |
| Lib.PNGImage.SampleDepth | src/lib.ts:24-26 | as intended: the header's depth for non-indexed colour, the palette's sample depth for indexed colour |
| Lib.PNGImage.Channels | src/lib.ts:27-37 | a layout exactly for the four non-indexed colour types, with alpha exactly for types 4 and 6 and three colour samples exactly for types 2 and 6; undefined for indexed colour |
| Lib.PNGImage.ChannelsIntended | src/lib.ts:27-37 | as intended: the same layouts for the non-indexed types and, for indexed colour, the four channels with alpha of the palette's colours; undefined exactly for an unknown colour type |
| Lib.SampleDepthUndefinedForDecodedImage | src/lib.ts:24-26 | an 8-bit truecolour image has sample depth 8 as intended and undefined as written |
| Lib.SampleDepthUndefinedForIndexedImage | src/lib.ts:24-26 | for indexed colour the getter as written reads the palette's missing `sampleDepth` and is undefined; as intended it is the palette's getSampleDepth() |
| Lib.ChannelsUndefinedForIndexedImage | src/lib.ts:32 | for indexed colour the getter as written reads the palette's missing `channelsMap` and is undefined; as intended it is RGBA |
| Lib.DecodedHeader | src/lib.ts:66-86 | for a decoded file the first chunk is IHDR with a 13-byte payload whose first and next four bytes are the width and height, and the sample depth is the header's |
| Lib.NoPaletteBit | src/format/chunks/IHDR.ts:28-34 | the known colour types other than indexed colour have no palette bit |
| DecodeFilter.Abs | src/utils/decodeFilter.ts:305-307 | `Math.abs`: the value or its negation, never negative |
| DecodeFilter.PaethPredictor | src/utils/decodeFilter.ts:302-312 | for byte neighbours the prediction is a byte |
| DecodeFilter.PaethIsNearest | src/utils/decodeFilter.ts:302-312 | Paeth returns one of its three neighbours, the one nearest to left + above - upLeft, with ties going to left and then to above |
| DecodeFilter.PaethDegenerates | src/utils/decodeFilter.ts:302-312 | with nothing above Paeth predicts the left byte, with nothing to the left it predicts the byte above |
| DecodeFilter.PredictByTag | src/utils/decodeFilter.ts:257-296 | the prediction is 0 for None, left for Sub, up for Up, the floor of the mean for Avg and Paeth for Paeth |
| DecodeFilter.PredictIgnoresLeft | src/utils/decodeFilter.ts:259-276 | None and Up do not depend on the left and upper-left bytes |
| DecodeFilter.Zeros | src/utils/decodeFilter.ts:244 | a fresh Uint8Array of n bytes: n zeros |
| DecodeFilter.AllZeros | src/utils/decodeFilter.ts:244 | any all-zero sequence is the zero padding after no rows |
| DecodeFilter.SamplesPerPixel | src/utils/decodeFilter.ts:222-240 | samples per pixel 1, 3, 1, 2, 4 for colour types 0, 2, 3, 4, 6, and nothing exactly for any other value (also colorTypeToBppMap at lines 40-46) |
| DecodeFilter.ScanLineByteLength | src/utils/decodeFilter.ts:220-241 | a scanline length exactly for the five colour types; any other type throws, named in the error |
| DecodeFilter.ScanLineHoldsRow | src/utils/decodeFilter.ts:241 | `Math.ceil`: the bits of a row, rounded up to whole bytes |
| DecodeFilter.ScanLineAtDepth8 | src/utils/decodeFilter.ts:220-241 | at depth 8, one byte per sample |
| DecodeFilter.Recon | src/utils/decodeFilter.ts:257-296 | a rebuilt row has as many bytes as were asked for |
| DecodeFilter.ReconByte | src/utils/decodeFilter.ts:264-295 | byte i of a rebuilt row is the filtered byte plus the prediction from the rebuilt byte to its left, the byte above and the byte above-left (0 outside the image), modulo 256 |
| DecodeFilter.ReconSucc | src/utils/decodeFilter.ts:259-295 | rebuilding one byte more extends the rebuilt row by that byte |
| DecodeFilter.LineStep | src/utils/decodeFilter.ts:253-297 | one line succeeds exactly when the tag byte and, for tags 0 to 4, a whole row follow; an unknown tag consumes only the tag and leaves the row zero; a short input is a RangeError |
| DecodeFilter.PriorOf | src/utils/decodeFilter.ts:273 | the row above is the last row rebuilt, all zeros on line 0 |
| DecodeFilter.Lines | src/utils/decodeFilter.ts:247-249 | n lines rebuild n rows of L bytes, inside the input, or fail with a RangeError |
| DecodeFilter.LinesSucc | src/utils/decodeFilter.ts:247-249 | one more line adds its row and moves the cursor past it |
| DecodeFilter.LinesOfRowsSucc | src/utils/decodeFilter.ts:247-249 | when y lines give the first y pixel rows and line y gives row y, y + 1 lines give the first y + 1 rows |
| DecodeFilter.LinesFailureSticks | src/utils/decodeFilter.ts:247-249 | a thrown line ends the loop: every longer run fails with the same error |
| DecodeFilter.FailureSticks | src/utils/decodeFilter.ts:247-249 | a run in which each failure repeats keeps its first failure |
| DecodeFilter.LinesFailNext | src/utils/decodeFilter.ts:247-249 | a failed run stays failed one line further |
| DecodeFilter.Unfilter | src/utils/decodeFilter.ts:215-251 | as intended (bit depth from the header's depth): an unknown colour type throws, a short input is a RangeError, a success holds height rows of scanline bytes |
| DecodeFilter.UnfilterAsWritten | src/utils/decodeFilter.ts:215-251 | as written (`bitDepth` is undefined): an unknown colour type throws, otherwise the output is empty, and the call succeeds exactly when the input has a tag byte for every line |
| DecodeFilter.LinesOfNothing | src/utils/decodeFilter.ts:247-297 | lines of no bytes succeed exactly when there is one byte per line |
| DecodeFilter.UnfilterAsWrittenDropsPixels | src/utils/decodeFilter.ts:220 | a 1x1 greyscale image of sample 7 decodes to nothing as written and to [7] as intended |
| DecodeFilter.DataViewHeaderReachesDefault | src/utils/decodeFilter.ts:222-240 | with a DataView passed to readIHDR the colour type matches no case, so the switch reaches `default` and throws |
| DecodeFilter.Residuals | src/utils/decodeFilter.ts:134-141 | each residual is the pixel byte less its prediction, stored modulo 256 |
| DecodeFilter.FilteredRow | src/utils/decodeFilter.ts:107-206 | the written row is the tag followed by the residuals |
| DecodeFilter.Cost | src/utils/decodeFilter.ts:107-206 | the sum is at least the absolute value of its last residual |
| DecodeFilter.SelectPrefix | src/utils/decodeFilter.ts:84-94 | with no entries tried there is no minimum (`Infinity`) and the selection is 0 |
| DecodeFilter.SelectPrefixSucc | src/utils/decodeFilter.ts:88-94 | one more entry is selected exactly when its sum is below the minimum so far |
| DecodeFilter.SelectPrefixIsFirstMinimal | src/utils/decodeFilter.ts:84-94 | the selection among the first n entries is the first with the smallest sum, and the minimum is its sum |
| DecodeFilter.ChoiceIsFirstMinimal | src/utils/decodeFilter.ts:84-96 | `filter()` picks the first `filterTypes` entry with the smallest sum, and None when the list is empty |
| DecodeFilter.PixelRow | src/utils/decodeFilter.ts:115 | row y has the row length |
| DecodeFilter.PriorRow | src/utils/decodeFilter.ts:156 | the row above row y, zeros for row 0 |
| DecodeFilter.FilterRows | src/utils/decodeFilter.ts:76-99 | n filtered rows take n times the row length plus one bytes |
| DecodeFilter.FilterRowsPrefix | src/utils/decodeFilter.ts:81-97 | earlier filtered rows do not depend on later ones |
| DecodeFilter.ModBack | src/utils/decodeFilter.ts:140 | a residual stored modulo 256, plus the prediction, modulo 256, is the pixel byte |
| DecodeFilter.RowByteRoundTrip | src/utils/decodeFilter.ts:134-141 | with one left distance on both sides, or a tag that does not look left, each rebuilt byte is the pixel byte |
| DecodeFilter.RowRoundTrip | src/utils/decodeFilter.ts:253-297 | the residuals of a row de-filter to the row |
| DecodeFilter.PriorOfPixels | src/utils/decodeFilter.ts:273 | the row above, read from the rebuilt prefix, is the pixel row above |
| DecodeFilter.FilteredRowAt | src/utils/decodeFilter.ts:118-140 | filtered row y sits at y times the row length plus one |
| DecodeFilter.FilterRowsLast | src/utils/decodeFilter.ts:96 | the last of n filtered rows is the chosen tag and residuals of pixel row n - 1 |
| DecodeFilter.LineStepOfResiduals | src/utils/decodeFilter.ts:253-297 | a filtered line de-filters to its pixel row and moves the cursor past it |
| DecodeFilter.LineOfFiltered | src/utils/decodeFilter.ts:247-297 | line y of a filtered image de-filters to pixel row y |
| DecodeFilter.LinesOfFiltered | src/utils/decodeFilter.ts:247-249 | all h lines of a filtered image de-filter to the h pixel rows |
| DecodeFilter.LinesOfFilteredEach | src/utils/decodeFilter.ts:247-249 | every line of a filtered image de-filters to its pixel row |
| DecodeFilter.LinesOfRows | src/utils/decodeFilter.ts:247-249 | when each line gives back its pixel row, n lines give back the first n rows |
| DecodeFilter.RoundTripMatchingDistance | src/utils/decodeFilter.ts:76-297 | corrected: with one left distance on both sides, de-filtering the filter output of any `filterTypes` list gives the pixel rows back |
| DecodeFilter.RoundTripAsWritten | src/utils/decodeFilter.ts:136 | as written (distance 4 forward, 1 back) an 8-bit image filtered with None and Up only comes back unchanged |
| DecodeFilter.SubDoesNotRoundTrip | src/utils/decodeFilter.ts:136 | as written the row [10, 20] filters with Sub to [1, 10, 20] and de-filters to [10, 30] |
| DecodeFilter.SubFiltersAsWritten | src/utils/decodeFilter.ts:125-143 | Sub at distance 4 leaves a two-byte row unchanged |
| DecodeFilter.SubUnfiltersAsWritten | src/utils/decodeFilter.ts:264-269 | Sub at distance 1 rebuilds [10, 20] as [10, 30] |
| DecodeFilter.SubRowAsWritten | src/utils/decodeFilter.ts:264-269 | the row Sub rebuilds from [10, 20] over zeros is [10, 30] |
| DecodeFilter.Neighbours | src/utils/decodeFilter.ts:289-291 | in place, the left neighbour is the rebuilt byte i - 1 and the bytes above are the previous row's |
| DecodeFilter.RowStored | src/utils/decodeFilter.ts:247-249 | storing a line in `outData` extends the rebuilt rows by one and keeps zeros after them; a thrown line fails the run |
| DecodeFilter.ReverseFilter.Init | src/utils/decodeFilter.ts:244 | `outData` is a fresh all-zero array of height times scanline bytes |
| DecodeFilter.ReverseFilter.Create | src/utils/decodeFilter.ts:215-251 | the constructor fails exactly when Unfilter does, with the same error, and otherwise `outData` is Unfilter's image |
| DecodeFilter.ReverseFilter.ReverseFilterLines | src/utils/decodeFilter.ts:246-249 | the loop over the lines computes exactly Lines in `outData`, or its error |
| DecodeFilter.ReverseFilter.RunLines | src/utils/decodeFilter.ts:247-249 | the same, from a cursor at offset 0 |
| DecodeFilter.ReverseFilter.AdvanceLine | src/utils/decodeFilter.ts:248 | one iteration adds one rebuilt row, with zeros after it, or fails the run |
| DecodeFilter.ReverseFilter.ReverseFilterLine | src/utils/decodeFilter.ts:253-297 | one line reads its tag and rebuilds only its own row in place, as LineStep says; an unknown tag changes nothing |
| DecodeFilter.ReverseFilter.ReconstructRow | src/utils/decodeFilter.ts:259-295 | for a known tag the row becomes Recon of the next L bytes; running out is a RangeError |
| DecodeFilter.ReverseFilter.RebuildRow | src/utils/decodeFilter.ts:259-295 | the byte loop rebuilds the row from the cursor |
| DecodeFilter.ReverseFilter.RebuildNext | src/utils/decodeFilter.ts:267 | one read, a RangeError past the end, and one rebuilt byte |
| DecodeFilter.ReverseFilter.RebuildByte | src/utils/decodeFilter.ts:289-293 | byte i becomes the read byte plus the prediction, extending the rebuilt prefix |
| DecodeFilter.FilteredRowByte | src/utils/decodeFilter.ts:140 | byte x + 1 of a filtered row is the residual of byte x |
| DecodeFilter.RowBytes | src/utils/decodeFilter.ts:136-137 | the bytes `_filterX` reads are those of pixel row y and the row above |
| DecodeFilter.FilterRowsSucc | src/utils/decodeFilter.ts:81-97 | writing row y after y filtered rows gives y + 1 |
| DecodeFilter.Filter.constructor | src/utils/decodeFilter.ts:57-74 | `_Bpp` is the colour type's sample count and a row is width times that |
| DecodeFilter.Filter.LineSum | src/utils/decodeFilter.ts:107-206 | `_filterX(pxData, y, null)` returns the row's cost under that tag |
| DecodeFilter.Filter.Residue | src/utils/decodeFilter.ts:134-137 | the value computed for byte x is its residual with left distance 4 |
| DecodeFilter.Filter.WriteLine | src/utils/decodeFilter.ts:107-206 | `_filterX(pxData, y, rawData)` writes the tag and the residuals at row y and nothing else |
| DecodeFilter.Filter.WriteResiduals | src/utils/decodeFilter.ts:134-141 | the residual loop writes the residuals after the tag |
| DecodeFilter.Filter.WriteResidual | src/utils/decodeFilter.ts:140 | one residual goes to its place |
| DecodeFilter.Filter.StoreByte | src/utils/decodeFilter.ts:140 | one store writes byte k of the row after the k already written |
| DecodeFilter.Filter.SelectFilter | src/utils/decodeFilter.ts:84-94 | the selection loop computes Choice |
| DecodeFilter.Filter.ConsiderFilter | src/utils/decodeFilter.ts:89-93 | entry i replaces the selection exactly when its sum is strictly smaller |
| DecodeFilter.Filter.FilterLine | src/utils/decodeFilter.ts:84-96 | one iteration writes row y with its chosen filter and nothing else |
| DecodeFilter.Filter.FilterStep | src/utils/decodeFilter.ts:81-97 | the filtered prefix of `rawData` grows by row y |
| DecodeFilter.Filter.Filter | src/utils/decodeFilter.ts:76-99 | `filter()` returns a fresh buffer holding exactly FilterRows of the pixel data |
| DecodeFilter.RawLength | src/utils/decodeFilter.ts:79 | the buffer holds height rows of the row length plus one bytes |
| CustomImageData.Clamp | src/image/toCustomImageData.ts:35 | the result lies in 0 to 2^t - 1, keeps values already inside and sends values below to 0 and above to 2^t - 1 |
| CustomImageData.RoundScaledNearest | src/image/toCustomImageData.ts:34-36 | the rounded value is the integer nearest to C (2^t - 1) / (2^s - 1), with halves rounded up |
| CustomImageData.Scale | src/image/toCustomImageData.ts:36 | `scale` gives a sample of the target depth; an undefined read stays undefined |
| CustomImageData.ScaleSameDepth | src/image/toCustomImageData.ts:34-36 | at equal depths `scale` is `clamp` and keeps every in-range sample |
| CustomImageData.OpaqueDivides | src/image/toCustomImageData.ts:34 | for PNG bit depths s <= t, 2^s - 1 divides 2^t - 1 |
| CustomImageData.ScaleWidenNarrow | src/image/toCustomImageData.ts:34-36 | widening multiplies a sample exactly by (2^t - 1) / (2^s - 1), and narrowing back gives it back |
| CustomImageData.ScaleByFactor | src/image/toCustomImageData.ts:34-36 | the same for any depths whose opaque values are in ratio k |
| CustomImageData.RoundWiden | src/image/toCustomImageData.ts:36 | the rounding of an exact multiple is the multiple |
| CustomImageData.RoundNarrow | src/image/toCustomImageData.ts:36 | narrowing c k by the ratio k rounds to c |
| CustomImageData.PixelMap | src/image/toCustomImageData.ts:38-149 | one mapper call writes as many samples as the target layout has |
| CustomImageData.PixelMapScales | src/image/toCustomImageData.ts:38-149 | every luma-free mapper scales the colour samples in order, then scales the source alpha when both layouts have alpha, or writes `targetOpaque` when only the target has it |
| CustomImageData.AlphaDropped | src/image/toCustomImageData.ts:62-66 | dropping alpha skips the source alpha: the output does not depend on it (no blending) |
| CustomImageData.Samples | src/utils/TypedArrayStream.ts:1-40 | k reads yield k values |
| CustomImageData.Stored | src/utils/TypedArrayStream.ts:1-40 | the writes store one element per value |
| CustomImageData.PixelOut | src/image/toCustomImageData.ts:38-149 | one pixel's writes have the target layout's length |
| CustomImageData.Converted | src/image/toCustomImageData.ts:166-168 | n pixels give n times the target layout's length of samples |
| CustomImageData.Splice | src/image/toCustomImageData.ts:41 | writing into an array keeps its length |
| CustomImageData.SpliceJoin | src/image/toCustomImageData.ts:166-168 | writing v and then w after it is writing v + w |
| CustomImageData.Copied | src/image/toCustomImageData.ts:41 | what `dst.write(scale(src.read()))` stores is a value of the target element type |
| CustomImageData.CopyScaled | src/image/toCustomImageData.ts:41 | one read, one scaled write: both cursors advance by one and only the written element changes |
| CustomImageData.WriteOpaque | src/image/toCustomImageData.ts:45 | `dst.write(targetOpaque)` stores 2^t - 1 and advances the target cursor |
| CustomImageData.PixelOutCopies | src/image/toCustomImageData.ts:38-149 | each pixel's writes are the copied colour samples, then the copied alpha or opaque alpha |
| CustomImageData.PixelOutIsTable | src/image/toCustomImageData.ts:151 | a pixel's writes are what the table entry for the two layouts computes from the samples it reads |
| CustomImageData.PixelOutIs | src/image/toCustomImageData.ts:38-149 | writes of exactly that shape are the pixel's output |
| CustomImageData.YToY | src/image/toCustomImageData.ts:40-42 | Y to Y: one read, one scaled write |
| CustomImageData.YToYA | src/image/toCustomImageData.ts:43-46 | Y to YA: the scaled sample, then opaque alpha |
| CustomImageData.YAToY | src/image/toCustomImageData.ts:62-66 | YA to Y: the scaled grey sample; the alpha is skipped |
| CustomImageData.YAToYA | src/image/toCustomImageData.ts:67-70 | YA to YA: both samples scaled |
| CustomImageData.RgbToRgb | src/image/toCustomImageData.ts:103-107 | RGB to RGB: three scaled samples |
| CustomImageData.RgbToRgba | src/image/toCustomImageData.ts:108-113 | RGB to RGBA: three scaled samples, then opaque alpha |
| CustomImageData.RgbaToRgb | src/image/toCustomImageData.ts:135-141 | RGBA to RGB: three scaled samples; the alpha is skipped |
| CustomImageData.RgbaToRgba | src/image/toCustomImageData.ts:142-147 | RGBA to RGBA: four scaled samples |
| CustomImageData.RunMapper | src/image/toCustomImageData.ts:32-152 | the mapper for two layouts advances the cursors by the layouts' lengths and writes PixelOut of the pixel |
| CustomImageData.TargetKind | src/image/toCustomImageData.ts:156 | a Uint16Array for depth 16, a Uint8Array otherwise |
| CustomImageData.TargetHoldsDepth | src/image/toCustomImageData.ts:156 | the array chosen for a PNG depth holds every sample value of that depth unchanged |
| CustomImageData.MapPixel | src/image/toCustomImageData.ts:167 | one turn converts pixel `index` and grows the converted prefix by it |
| CustomImageData.MapPixels | src/image/toCustomImageData.ts:166-168 | the loop converts every pixel |
| CustomImageData.ToCustomImageData | src/image/toCustomImageData.ts:154-171 | a fresh typed array of width times height target pixels, pixel i converted from source pixel i, with RGBA and depth 8 as defaults |
| CustomImageData.NewTypedArray | src/image/toCustomImageData.ts:156 | a fresh typed array is all zeros |
| ConversionProps.JoinedLength | src/image/toCustomImageData.ts:166-168 | n pixels of w samples each lay out n times w samples |
| ConversionProps.JoinedAt | src/image/toCustomImageData.ts:166-168 | pixel i of such a run sits at i times w |
| ConversionProps.JoinedOfSlices | src/image/toCustomImageData.ts:166-168 | a run whose pixels are consecutive slices of the data is the slice they span |
| ConversionProps.Pixels | src/image/toCustomImageData.ts:166-168 | one block per pixel converted |
| ConversionProps.PixelsAt | src/image/toCustomImageData.ts:166-168 | pixel i is the mapper's output on the samples at i times the source pixel size |
| ConversionProps.PixelAtOffset | src/image/toCustomImageData.ts:166-168 | the same, with the offset given by name |
| ConversionProps.SamePixelAt | src/image/toCustomImageData.ts:166-168 | two conversions agree on pixel i when the pixels read at i agree |
| ConversionProps.PixelsUniform | src/image/toCustomImageData.ts:156 | every converted pixel has the target layout's length |
| ConversionProps.ConvertedJoined | src/image/toCustomImageData.ts:166-168 | the first k converted pixels laid end to end are the conversion of k pixels |
| ConversionProps.ConvertedEqual | src/image/toCustomImageData.ts:166-168 | conversions with the same pixels are equal |
| ConversionProps.ConvertedAt | src/image/toCustomImageData.ts:166-168 | pixel i of the conversion is written at i times the target pixel size |
| ConversionProps.SamplesWindow | src/utils/TypedArrayStream.ts:15-17 | reads of a window inside a longer run of reads are that part of the run |
| ConversionProps.PixelOutOfSamples | src/image/toCustomImageData.ts:38-149 | a pixel depends only on the samples its mapper reads |
| ConversionProps.ConvertedLocal | src/image/toCustomImageData.ts:154-171 | a conversion reads nothing outside its pixels' samples: data that read alike there convert alike |
| ConversionProps.LocalPixelOut | src/image/toCustomImageData.ts:166-168 | pixel i of such data converts alike |
| ConversionProps.CopiedSame | src/image/toCustomImageData.ts:34-36 | a sample of the target depth converted to that depth is stored unchanged |
| ConversionProps.CopiedInDepth | src/image/toCustomImageData.ts:35-36 | every stored element is a sample of the target depth |
| ConversionProps.PixelOutSameLayoutCopies | src/image/toCustomImageData.ts:40-42 | a mapper to the same layout scales every sample in order |
| ConversionProps.CopiedSameRange | src/image/toCustomImageData.ts:34-36 | a range of samples of the target depth is stored unchanged |
| ConversionProps.PixelOutSameLayout | src/image/toCustomImageData.ts:142-147 | a mapper to the same layout at the same depth copies the pixel |
| ConversionProps.SameLayoutCopies | src/image/toCustomImageData.ts:154-171 | converting to the same layout and depth copies the samples |
| ConversionProps.SameLayoutBlocks | src/image/toCustomImageData.ts:166-168 | the same, from the copies of the single samples |
| ConversionProps.SameLayoutPixelAt | src/image/toCustomImageData.ts:166-168 | pixel i of such a conversion is the slice of its samples |
| ConversionProps.WithAlpha | src/image/imageProps.ts:4-13 | Y gains A and RGB gains A: one sample more, alpha, the same colour samples |
| ConversionProps.PixelAlphaRoundTrip | src/image/toCustomImageData.ts:43-66 | a pixel that gained alpha and lost it again is the pixel converted directly |
| ConversionProps.ChannelAlphaRoundTrip | src/image/toCustomImageData.ts:108-141 | a colour sample survives the detour through alpha |
| ConversionProps.AlphaPixelAt | src/image/toCustomImageData.ts:166-168 | pixel i of the round trip is pixel i converted directly |
| ConversionProps.AlphaPixelWritten | src/image/toCustomImageData.ts:166-168 | pixel i of the conversion that added alpha lies at i times the new pixel size |
| ConversionProps.AlphaRoundTrip | src/image/toCustomImageData.ts:154-171 | converting to the layout with alpha and back at one depth is converting directly: the alpha is dropped and the colour samples come back |

## Left out

- IHDR.ReadIHDR: a payload shorter than 13 bytes is reported as `ShortHeader`. The source has no such check: it goes on with `undefined` fields. IHDR.ReadIHDRFields models that as-written reading. IHDR.ReadIHDRAgrees proves `ShortHeader` is returned exactly when some field would be undefined. The rest of the model does not carry undefined fields past the header.
- DataViewStreams.DataViewStream.constructor, LegacyStreams.DataViewStream.constructor and BitStreams.DataViewBitStream.constructor: `new DataView` throws a RangeError when the window does not fit in the buffer. The model does not include that error. A Dafny constructor cannot fail, so these constructors require a window inside the buffer.
- CustomImageData.ToCustomImageData: only the eight mapper pairs that need no luma arithmetic are modelled, selected by `DirectPair`: Y and YA among themselves, RGB and RGBA among themselves. The six pairs that go through BT709 `rgb2luma`/`luma2rgb` use floating point and are not modelled. Both sample depths are required to be PNG bit depths (1, 2, 4, 8, 16).
- CustomImageData.Scale: `Math.round(C * scaleMultiplier)` is computed as exact rational rounding (nearest integer, halves up). The source multiplies in floating point, and the model does not capture that float rounding.
- Parser.ParseData: pako's streaming inflate is the `Inflater` parameter, a function from the concatenated IDAT payloads to bytes or an error message. The model does not cover inflate itself.
- Parser.ParseChunks: `decodeGreyscale`, `decodeTrueColor` and `decodeIndexed` are imported but not defined in the source. The result names the decoder call and its arguments (`DecoderCall`) and does not invent what they return.
- Lib.ChunkOf: the `console.log` after a good CRC (src/lib.ts:115) is output only and is not modelled.
- Lib.ReadChunks: the input is a byte sequence starting at index 0. The `byteOffset` of the caller's ArrayBuffer view is not modelled; src/lib.ts:69 ignores it while line 74 uses it.
- DecodeFilter.ReverseFilter.ReverseFilterLine: each byte is read with `getUint8`. The source calls `unfilteredStream.readUint8()` (src/utils/decodeFilter.ts:254, 259, 267 and the other filter branches) on the DataViewStream of src/utils/stream.ts, which has `getUint8` and no `readUint8`. As written the first call throws a TypeError, so every image with at least one scanline fails in the de-filter. The model does not capture that TypeError; DecodeFilter.ReverseFilter.RebuildNext reads the same way.
- DecodeFilter.Filter.constructor: it requires a known colour type, and the class invariant `Valid()` requires pixel data covering every row. The source accepts both: an unknown colour type makes `_Bpp` undefined and the arithmetic NaN, and reads past the data store 0 into the Buffer. The forward filter serves only the round trip, so those cases are not modelled.
- Lib.PNGImage.constructor: the `gamma` getter and the `toCustomImageData`, `getInfo`, `getPalette` and `getSuggestedPalettes` pass-throughs only return fields of the parse result and are not modelled as members.
- Adam7 interlacing, gamma, background colour and alpha compositing are not implemented by the source and are not modelled.
- The `image-q` import and the `smartColorsReducer` option are unused foreign code.
- src/image.ts and src/parser.ts (an older decode path), src/image/superBitmap.ts (unfinished), src/index.ts (a file-system demo) and the build configuration are not part of this model.
- src/format/chunks/chunk.ts, src/image/imageProps.ts and src/models/color.ts declare types only; they are Dafny datatypes here.
- Palettes.SpltEntriesStandard, IHDR.IhdrRecord.SampleDepth, Lib.PNGImage.ChannelsIntended, LegacyStreams.DataViewStream.GetDataViewOfLength and BitStreams.IntendedLoop: these corrected definitions stand beside the code as written. The parser uses the corrected header depth but still runs fromSPLT with the code's own stride, and no part of the decode path calls the corrected `getDataView` or `readUint`.

## Findings

| source | as written | input that shows it | evidently intended | confidence | as-written member | corrected member |
|---|---|---|---|---|---|---|
| src/format/chunks/IHDR.ts:72-78 | readIHDR stores the bit depth as `depth`; the `sampleDepth` getter reads `this.bitDepth`, which is undefined | a truecolour header of depth 8: sample depth undefined | the sample depth is the stored bit depth for colour types without the palette bit | high; not executed | IHDR.IhdrRecord.SampleDepthAsWritten, IHDR.SampleDepthUndefinedForTrueColor | IHDR.IhdrRecord.SampleDepth |
| src/lib.ts:21-26 | the `bitDepth` and `sampleDepth` getters read `info.bitDepth`, which readIHDR never sets; for indexed colour `sampleDepth` reads `palette.sampleDepth`, which Palette does not have (it has getSampleDepth()) | an 8-bit truecolour file: `sampleDepth` is undefined; an indexed file: `sampleDepth` is undefined | the header's depth, or the palette's getSampleDepth() for indexed colour | high; not executed | Lib.PNGImage.SampleDepthAsWritten, Lib.SampleDepthUndefinedForDecodedImage, Lib.SampleDepthUndefinedForIndexedImage | Lib.PNGImage.BitDepth, Lib.PNGImage.SampleDepth |
| src/lib.ts:32 | the `channelsMap` getter reads `palette.channelsMap` for indexed colour, and Palette has no such property | an indexed-colour file: `channelsMap` is undefined | the layout of the palette's colours, RGBA | medium; not executed | Lib.PNGImage.Channels, Lib.ChannelsUndefinedForIndexedImage | Lib.PNGImage.ChannelsIntended |
| src/utils/decodeFilter.ts:220 | `this._IHDR.bitDepth / 8` is NaN, so the scanline length is NaN, `outData` is empty and each line consumes only its tag byte | a 1x1 greyscale depth-8 image with the line [0, 7]: output [] | the scanline length from the header's depth; output [7] | high; not executed | DecodeFilter.UnfilterAsWritten, DecodeFilter.UnfilterAsWrittenDropsPixels | DecodeFilter.Unfilter |
| src/parser/parser.ts:100 | `fromPLTE(IHDR.bitDepth, ...)` gets undefined, `2 ** undefined` is NaN and the palette has no colours | an indexed image whose first PLTE holds one RGB triple: no colours | one colour, from the header's depth | high; not executed | Parser.ParsePaletteAsWritten, Parser.ParsePaletteAsWrittenLosesColors | Parser.ParsePalette |
| src/parser/parser.ts:24 | readIHDR is given the chunk's DataView; indexing a DataView gives undefined, so every field is undefined and ReverseFilter's switch reaches `default` and throws | any IHDR payload: colour type undefined | readIHDR reads the payload bytes | high; not executed | IHDR.ReadIHDRFields, IHDR.DataViewFieldsUndefined, DecodeFilter.DataViewHeaderReachesDefault | IHDR.ReadIHDR, IHDR.ReadIHDRAgrees |
| src/utils/decodeFilter.ts:136 | the filter takes "left" four bytes back, the de-filter one byte back (line 266); section 9.2 of the PNG specification takes it one whole pixel back | the greyscale row [10, 20] filtered with Sub gives [1, 10, 20] and de-filters to [10, 30] | one left distance on both sides: filtering then de-filtering gives the pixels back | high; not executed | DecodeFilter.RoundTripAsWritten, DecodeFilter.SubDoesNotRoundTrip | DecodeFilter.RoundTripMatchingDistance |
| src/models/palette.ts:39-41 | fromSPLT strides `2 + 4 * (depth / 2)` bytes per entry and reads samples `depth / 2` bytes apart; section 11.3.5.4 of the PNG specification has 6-byte entries with 1-byte samples at depth 8 (10 and 2 at depth 16) | three 6-byte entries at depth 8: one colour (1, 0, 7, 9); two entries: RangeError | entries of 6 or 10 bytes: the colours (1, 2, 3, 4), (5, 6, 7, 8), (9, 10, 11, 12) | high; not executed | Palettes.SpltStandardLayoutMisread, Palettes.SpltTwoStandardEntriesFail | Palettes.SpltEntriesStandard, Palettes.SpltStandardLayoutRead |
| src/utils/stream.ts:11-12 | `getDataView(byteLength)` uses the free name `length` (window.length, 0) for the view and the advance | getDataView(4): an empty view and the cursor unmoved | a view of `byteLength` bytes and the cursor past them | medium; not executed | LegacyStreams.DataViewStream.GetDataView, LegacyStreams.GetDataViewIgnoresLength | LegacyStreams.DataViewStream.GetDataViewOfLength |
| src/utils/dataViewBitStream.ts:64-67 | readUint shifts each bit by `bitsLeft - 1` and then bit-reverses the byte | readUint(1) on a byte with its top bit set: 128; readUint8 of the byte 1: 0 | bits taken most significant first into a big-endian value: 1 and 1 | medium; not executed | BitStreams.FirstBitReadsAs128, BitStreams.ReadUint8OfOneIsZero | BitStreams.IntendedLoop, BitStreams.IntendedReadsBigEndian |
