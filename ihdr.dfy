/** The IHDR chunk codec (src/format/chunks/IHDR.ts), section 11.2.2 of the
    PNG specification: big-endian helpers over a Uint8Array, the colour-type
    masks, and readIHDR / writeIHDR. ReadIHDR reads the header from the
    chunk's bytes; ReadIHDRFields is readIHDR exactly as written, where an
    element past the end (or any element of a DataView) is undefined. */
module IHDR {
  import opened Bytes
  import opened Wrappers
  import opened Errors
  import opened DataViews

  /** `readUInt32BE(data, offset)`. */
  function ReadUInt32BE(data: seq<byte>, offset: nat): (r: u32)
    requires offset + 4 <= |data|
    ensures Be32(r) == data[offset..offset + 4]
  {
    U32Bytes(data, offset);
    U32At(data, offset)
  }

  /** `readUInt8(data, offset)`. */
  function ReadUInt8(data: seq<byte>, offset: nat): byte
    requires offset < |data|
  {
    data[offset]
  }

  /** The four bytes `writeUInt32BE` stores: `value >>> 24`, `>>> 16`, `>>> 8`
      and `value` itself, each reduced modulo 256 by the Uint8Array store. */
  function WrittenUInt32(value: int): (r: seq<byte>)
    ensures |r| == 4 && r == Be32(ToUint32(value))
    ensures U32At(r, 0) == ToUint32(value)
  {
    var v := ToUint32(value);
    U32RoundTrip(v);
    [ToUint8(v / 0x100_0000), ToUint8(v / 0x1_0000), ToUint8(v / 0x100), ToUint8(value)]
  }

  /** `writeUInt32BE(data, offset, value)`: four element stores; a store
      outside the array is dropped, nothing else changes. */
  method WriteUInt32BE(data: array<byte>, offset: int, value: int)
    modifies data
    ensures forall i :: 0 <= i < data.Length ==>
      data[i] == if offset <= i < offset + 4 then WrittenUInt32(value)[i - offset] else old(data[i])
  {
    var bytes := WrittenUInt32(value);
    var k := 0;
    while k < 4
      invariant 0 <= k <= 4
      invariant forall i :: 0 <= i < data.Length ==>
        data[i] == if offset <= i < offset + k then bytes[i - offset] else old(data[i])
    {
      if 0 <= offset + k < data.Length {
        data[offset + k] := bytes[k];
      }
      k := k + 1;
    }
  }

  /** `writeUInt8(data, offset, value)`: one element store. */
  method WriteUInt8(data: array<byte>, offset: int, value: int)
    modifies data
    ensures forall i :: 0 <= i < data.Length ==>
      data[i] == if i == offset then ToUint8(value) else old(data[i])
  {
    if 0 <= offset < data.Length {
      data[offset] := ToUint8(value);
    }
  }

  /** ColorTypeMasks. */
  const NoneMask: bv8 := 0
  const PaletteMask: bv8 := 1
  const TrueColorMask: bv8 := 2
  const AlphaMask: bv8 := 4

  /** ColorTypes, as the ORs of the masks the enumeration writes. */
  const GreyScale: int := NoneMask as int
  const TrueColor: int := TrueColorMask as int
  const IndexedColor: int := (PaletteMask | TrueColorMask) as int
  const GreyScaleWithAlpha: int := AlphaMask as int
  const TrueColorWithAlpha: int := (TrueColorMask | AlphaMask) as int

  /** The colour types are exactly 0, 2, 3, 4 and 6. */
  lemma ColorTypeValues()
    ensures [GreyScale, TrueColor, IndexedColor, GreyScaleWithAlpha, TrueColorWithAlpha] == [0, 2, 3, 4, 6]
  {
    assert (PaletteMask | TrueColorMask) == 3;
    assert (TrueColorMask | AlphaMask) == 6;
  }

  predicate IsColorType(c: int)
  {
    c in {GreyScale, TrueColor, IndexedColor, GreyScaleWithAlpha, TrueColorWithAlpha}
  }

  /** The palette bit of a colour type, `colorType & PaletteMask`. */
  predicate HasPalette(colorType: int)
  {
    colorType % 2 == 1
  }

  /** The IHDR interface (what writeIHDR consumes and the decoder reads):
      the bit depth is named `bitDepth`. */
  datatype Ihdr = Ihdr(width: int, height: int, bitDepth: int, colorType: int,
                       compression: int, filter: int, interlace: int)
  {
    /** The `sampleDepth` the interface documents: 8 for indexed colour
        (samples live in the palette), the bit depth otherwise. */
    function SampleDepth(): (r: int)
      ensures colorType == IndexedColor ==> r == 8
      ensures !HasPalette(colorType) ==> r == bitDepth
    {
      if HasPalette(colorType) then 8 else bitDepth
    }
  }

  /** The object readIHDR returns: the bit depth is stored as `depth`. */
  datatype IhdrRecord = IhdrRecord(width: u32, height: u32, depth: byte, colorType: byte,
                                   compression: byte, filter: byte, interlace: byte)
  {
    /** The `sampleDepth` getter as written: it reads `this.bitDepth`, which
        the record does not have, so for every colour type without the palette
        bit it yields undefined. */
    function SampleDepthAsWritten(): (r: Option<int>)
      ensures HasPalette(colorType) <==> r.Some?
      ensures r.Some? ==> r.value == 8
    {
      if HasPalette(colorType) then Some(8) else None
    }

    /** The getter as intended: the stored `depth` where the code reads
        `bitDepth`. */
    function SampleDepth(): (r: int)
      ensures HasPalette(colorType) ==> r == 8
      ensures !HasPalette(colorType) ==> r == depth
      ensures SampleDepthAsWritten().Some? ==> r == SampleDepthAsWritten().value
    {
      if HasPalette(colorType) then 8 else depth
    }

    /** The header the rest of the decoder works with, `depth` read as
        `bitDepth`. */
    function Header(): (r: Ihdr)
      ensures r.SampleDepth() == SampleDepth()
    {
      Ihdr(width, height, depth, colorType, compression, filter, interlace)
    }
  }

  /** The discrepancy: a truecolour header of depth 8 has no sample depth as
      written, while the intended value is 8. */
  lemma SampleDepthUndefinedForTrueColor()
    ensures IhdrRecord(1, 1, 8, 2, 0, 0, 0).SampleDepthAsWritten() == None
    ensures IhdrRecord(1, 1, 8, 2, 0, 0, 0).SampleDepth() == 8
  {
  }

  /** `readIHDR(data)`: the fields at offsets 0, 4, 8, 9, 10, 11 and 12, with
      no validation of their values. A payload shorter than 13 bytes is
      reported instead of computing with undefined. */
  function ReadIHDR(data: seq<byte>): (r: Result<IhdrRecord, Error>)
    ensures r.Success? <==> |data| >= 13
    ensures r.Failure? ==> r.error == ShortHeader
    ensures r.Success? ==> Be32(r.value.width) == data[0..4] && Be32(r.value.height) == data[4..8]
    ensures r.Success? ==> [r.value.depth, r.value.colorType, r.value.compression, r.value.filter, r.value.interlace] == data[8..13]
  {
    if |data| < 13 then Failure(ShortHeader)
    else Success(IhdrRecord(
      width := ReadUInt32BE(data, 0),
      height := ReadUInt32BE(data, 4),
      depth := ReadUInt8(data, 8),
      colorType := ReadUInt8(data, 9),
      compression := ReadUInt8(data, 10),
      filter := ReadUInt8(data, 11),
      interlace := ReadUInt8(data, 12)))
  }

  /** A number as the JavaScript arithmetic of readIHDR yields it: a value,
      or NaN / undefined (an element read past the end, or a sum with one). */
  datatype Field = Number(value: int) | NoNumber

  /** `data[offset]` on an object whose indexed elements are `elements`:
      undefined past the end. A DataView has no indexed elements at all, so
      it reads as the empty sequence. */
  function Element(elements: seq<byte>, offset: nat): (r: Field)
    ensures r.Number? <==> offset < |elements|
    ensures r.Number? ==> r.value == ReadUInt8(elements, offset)
  {
    if offset < |elements| then Number(elements[offset] as int) else NoNumber
  }

  /** `readUInt32BE(data, offset)` as JavaScript evaluates it: one undefined
      element makes the whole sum NaN. */
  function ReadUInt32BEOf(elements: seq<byte>, offset: nat): (r: Field)
    ensures r.Number? <==> offset + 4 <= |elements|
    ensures r.Number? ==> r.value == ReadUInt32BE(elements, offset)
  {
    match (Element(elements, offset), Element(elements, offset + 1), Element(elements, offset + 2), Element(elements, offset + 3))
    case (Number(d0), Number(d1), Number(d2), Number(d3)) => Number(d0 * 0x100_0000 + d1 * 0x1_0000 + d2 * 0x100 + d3)
    case _ => NoNumber
  }

  /** The seven fields of the object readIHDR returns, as written. */
  datatype IhdrFields = IhdrFields(width: Field, height: Field, depth: Field, colorType: Field,
                                   compression: Field, filter: Field, interlace: Field)
  {
    predicate AllNumbers()
    {
      width.Number? && height.Number? && depth.Number? && colorType.Number?
      && compression.Number? && filter.Number? && interlace.Number?
    }
  }

  /** A record's fields, every one a number. */
  function FieldsOf(h: IhdrRecord): (r: IhdrFields)
    ensures r.AllNumbers()
  {
    IhdrFields(Number(h.width), Number(h.height), Number(h.depth), Number(h.colorType),
               Number(h.compression), Number(h.filter), Number(h.interlace))
  }

  /** `readIHDR(data)` exactly as written, with no length check: each field
      is a number when the bytes it reads exist and NaN / undefined
      otherwise. */
  function ReadIHDRFields(elements: seq<byte>): (r: IhdrFields)
    ensures r.width.Number? <==> |elements| >= 4
    ensures r.height.Number? <==> |elements| >= 8
    ensures r.depth.Number? <==> |elements| >= 9
    ensures r.colorType.Number? <==> |elements| >= 10
    ensures r.compression.Number? <==> |elements| >= 11
    ensures r.filter.Number? <==> |elements| >= 12
    ensures r.interlace.Number? <==> |elements| >= 13
  {
    IhdrFields(ReadUInt32BEOf(elements, 0), ReadUInt32BEOf(elements, 4), Element(elements, 8), Element(elements, 9),
               Element(elements, 10), Element(elements, 11), Element(elements, 12))
  }

  /** ReadIHDR's ShortHeader error is exactly the case where readIHDR, as
      written, leaves some field undefined; otherwise both give the same
      numbers. */
  lemma ReadIHDRAgrees(elements: seq<byte>)
    ensures ReadIHDR(elements).Failure? <==> !ReadIHDRFields(elements).AllNumbers()
    ensures ReadIHDR(elements).Success? ==> ReadIHDRFields(elements) == FieldsOf(ReadIHDR(elements).value)
  {
  }

  /** A payload of 10 to 12 bytes: as written, the width, height, depth and
      colour type are read as from a whole header, and only the trailing
      method bytes are undefined. */
  lemma ShortPayloadKeepsHeader(elements: seq<byte>, rest: seq<byte>)
    requires 10 <= |elements| < 13 && |elements| + |rest| >= 13
    ensures var h := ReadIHDR(elements + rest).value;
      var f := ReadIHDRFields(elements);
      f.width == Number(h.width) && f.height == Number(h.height)
      && f.depth == Number(h.depth) && f.colorType == Number(h.colorType)
      && f.interlace == NoNumber
  {
    var data := elements + rest;
    assert data[..|elements|] == elements;
    assert U32At(data, 0) == U32At(elements, 0);
    assert U32At(data, 4) == U32At(elements, 4);
  }

  /** readIHDR of a DataView, which has no indexed elements: every field is
      undefined, whatever the chunk holds. */
  lemma DataViewFieldsUndefined()
    ensures ReadIHDRFields([]) == IhdrFields(NoNumber, NoNumber, NoNumber, NoNumber, NoNumber, NoNumber, NoNumber)
  {
  }

  /** The 13 bytes writeIHDR stores for a header. */
  function IhdrBytes(h: Ihdr): (r: seq<byte>)
    ensures |r| == 13
  {
    WrittenUInt32(h.width) + WrittenUInt32(h.height)
    + [ToUint8(h.bitDepth), ToUint8(h.colorType), ToUint8(h.compression), ToUint8(h.filter), ToUint8(h.interlace)]
  }

  /** `writeIHDR(data, chunk)`: bytes 0..12 become IhdrBytes(chunk), as far
      as the array reaches; the rest is untouched. */
  method WriteIHDR(data: array<byte>, chunk: Ihdr)
    modifies data
    ensures forall i :: 0 <= i < data.Length ==> data[i] == if i < 13 then IhdrBytes(chunk)[i] else old(data[i])
  {
    WriteUInt32BE(data, 0, chunk.width);
    WriteUInt32BE(data, 4, chunk.height);
    WriteUInt8(data, 8, chunk.bitDepth);
    WriteUInt8(data, 9, chunk.colorType);
    WriteUInt8(data, 10, chunk.compression);
    WriteUInt8(data, 11, chunk.filter);
    WriteUInt8(data, 12, chunk.interlace);
  }

  /** The header fields as the stores reduce them. */
  function Stored(h: Ihdr): IhdrRecord
  {
    IhdrRecord(ToUint32(h.width), ToUint32(h.height), ToUint8(h.bitDepth), ToUint8(h.colorType),
               ToUint8(h.compression), ToUint8(h.filter), ToUint8(h.interlace))
  }

  /** readIHDR after writeIHDR gives back the header, the bit depth under
      `depth`; fields in range come back unchanged. */
  lemma ReadAfterWrite(h: Ihdr, rest: seq<byte>)
    ensures ReadIHDR(IhdrBytes(h) + rest) == Success(Stored(h))
    ensures 0 <= h.width < 0x1_0000_0000 && 0 <= h.height < 0x1_0000_0000 && 0 <= h.bitDepth < 0x100
            && 0 <= h.colorType < 0x100 && 0 <= h.compression < 0x100 && 0 <= h.filter < 0x100
            && 0 <= h.interlace < 0x100
            ==> Stored(h).Header() == h
  {
    var data := IhdrBytes(h) + rest;
    var w := WrittenUInt32(h.width);
    var ht := WrittenUInt32(h.height);
    assert data[0..4] == w;
    assert data[4..8] == ht;
    assert U32At(data, 0) == U32At(w, 0);
    assert U32At(data, 4) == U32At(ht, 0);
  }
}
