/** A decoded bitmap and its expansion to RGBA bytes (src/models/bitmap.ts). */
module Bitmaps {
  import opened Bytes
  import opened Wrappers
  import opened Colors
  import opened IHDR
  import opened Palettes
  import opened TypedArrayStreams

  /** The object toImageData returns: the dimensions and the RGBA bytes. */
  datatype ImageData = ImageData(width: int, height: int, data: seq<byte>)

  /** `this._data[index]`: undefined past the end of the typed array. */
  function Element(data: seq<int>, index: int): Option<int>
  {
    if 0 <= index < |data| then Some(data[index]) else None
  }

  /** `palette.getColor(v)`. With v undefined the slot index is NaN and all
      four channels are undefined. */
  function ColorOf(palette: Palette, v: Option<int>): (r: Color)
    ensures v.None? ==> r == Color(None, None, None, None)
    ensures v.Some? ==> r == palette.GetColor(v.value)
  {
    if v.None? then Color(None, None, None, None) else palette.GetColor(v.value)
  }

  /** The four bytes a colour becomes in the Uint8Array: each channel is
      stored with the typed array's conversion (undefined becomes 0, larger
      values are reduced modulo 256). */
  function PixelBytes(c: Color): (r: seq<byte>)
    ensures |r| == 4
  {
    [Store(Uint8, c.r), Store(Uint8, c.g), Store(Uint8, c.b), Store(Uint8, c.a)]
  }

  /** The colour types whose branch runs the palette lookup loop. */
  predicate ExpandsPalette(colorType: int)
  {
    colorType == TrueColor || colorType == IndexedColor
  }

  /** Byte k of the output: channel k % 4 of pixel k / 4 for the colour types
      with a lookup loop, 0 (the fresh array's content) for the others. */
  function ImageByte(colorType: int, data: seq<int>, palette: Palette, k: nat): byte
  {
    if ExpandsPalette(colorType) then PixelBytes(ColorOf(palette, Element(data, k / 4)))[k % 4] else 0
  }

  /** The bytes toImageData produces for `pixels` pixels. */
  function ImageBytes(colorType: int, pixels: nat, data: seq<int>, palette: Palette): (r: seq<byte>)
    ensures |r| == 4 * pixels
  {
    seq(4 * pixels, k requires 0 <= k < 4 * pixels => ImageByte(colorType, data, palette, k))
  }

  class Bitmap {
    const ihdr: Ihdr
    const data: array<int>
    const palette: Palette

    constructor (ihdr: Ihdr, data: array<int>, palette: Palette)
      ensures this.ihdr == ihdr && this.data == data && this.palette == palette
    {
      this.ihdr := ihdr;
      this.data := data;
      this.palette := palette;
    }

    /** `toImageData()`: a fresh Uint8Array of `4 * width * height` bytes;
        the bitmap's own data is only read. */
    method ToImageData() returns (r: ImageData)
      requires ihdr.width >= 0 && ihdr.height >= 0
      ensures r.width == ihdr.width && r.height == ihdr.height
      ensures r.data == ImageBytes(ihdr.colorType, ihdr.width * ihdr.height, data[..], palette)
    {
      var pixels := ihdr.width * ihdr.height;
      var out := new byte[pixels * 4](_ => 0);
      if ihdr.colorType == TrueColor {
        ExpandPixels(out, pixels, data[..], palette);
      } else if ihdr.colorType == IndexedColor {
        ExpandPixels(out, pixels, data[..], palette);
      }
      assert out[..] == ImageBytes(ihdr.colorType, pixels, data[..], palette);
      r := ImageData(ihdr.width, ihdr.height, out[..]);
    }
  }

  /** The loop both lookup branches run: pixel `index` gets the colour of
      element `index`. */
  method ExpandPixels(out: array<byte>, pixels: nat, data: seq<int>, palette: Palette)
    requires out.Length == 4 * pixels
    modifies out
    ensures forall k :: 0 <= k < out.Length ==> out[k] == PixelBytes(ColorOf(palette, Element(data, k / 4)))[k % 4]
  {
    var index := 0;
    while index < pixels
      invariant 0 <= index <= pixels
      invariant forall k :: 0 <= k < 4 * index ==> out[k] == PixelBytes(ColorOf(palette, Element(data, k / 4)))[k % 4]
    {
      var color := ColorOf(palette, Element(data, index));
      StorePixel(out, index, color);
      index := index + 1;
    }
  }

  /** The four element stores `data[index*4 + c] = color.<channel>`. */
  method StorePixel(out: array<byte>, index: nat, color: Color)
    requires 4 * index + 4 <= out.Length
    modifies out
    ensures forall k :: 0 <= k < out.Length ==>
      out[k] == if 4 * index <= k < 4 * index + 4 then PixelBytes(color)[k - 4 * index] else old(out[k])
  {
    out[index * 4 + 0] := Store(Uint8, color.r);
    out[index * 4 + 1] := Store(Uint8, color.g);
    out[index * 4 + 2] := Store(Uint8, color.b);
    out[index * 4 + 3] := Store(Uint8, color.a);
  }

  // ---------------------------------------------------------------------
  // What the bytes are

  /** Pixel i of a colour type with a lookup loop holds the palette colour of
      element i, each channel stored as a byte. */
  lemma ImagePixel(colorType: int, pixels: nat, data: seq<int>, palette: Palette, i: nat)
    requires ExpandsPalette(colorType) && i < pixels
    ensures ImageBytes(colorType, pixels, data, palette)[4 * i..4 * i + 4] == PixelBytes(ColorOf(palette, Element(data, i)))
  {
    var r := ImageBytes(colorType, pixels, data, palette);
    var px := PixelBytes(ColorOf(palette, Element(data, i)));
    forall c | 0 <= c < 4
      ensures r[4 * i + c] == px[c]
    {
      QuarterOf(i, c);
      assert r[4 * i + c] == ImageByte(colorType, data, palette, 4 * i + c);
    }
    assert r[4 * i..4 * i + 4] == px;
  }

  /** Every other colour type leaves all bytes zero. */
  lemma ImageZeros(colorType: int, pixels: nat, data: seq<int>, palette: Palette, k: nat)
    requires !ExpandsPalette(colorType) && k < 4 * pixels
    ensures ImageBytes(colorType, pixels, data, palette)[k] == 0
  {
  }

  /** An element naming a colour the palette holds: the four stored bytes are
      its slots modulo 256 (unchanged for an 8-bit palette). */
  lemma ImagePaletteColor(colorType: int, pixels: nat, data: seq<int>, palette: Palette, i: nat, c: nat)
    requires ExpandsPalette(colorType) && i < pixels && i < |data| && c < 4
    requires 0 <= data[i] && 4 * data[i] + 4 <= |palette.data|
    ensures ImageBytes(colorType, pixels, data, palette)[4 * i + c] == palette.data[4 * data[i] + c] % 0x100
  {
    ImagePixel(colorType, pixels, data, palette, i);
    assert ImageBytes(colorType, pixels, data, palette)[4 * i + c]
           == ImageBytes(colorType, pixels, data, palette)[4 * i..4 * i + 4][c];
    ChannelOfSlot(palette, data[i], c);
  }

  /** Channel c of a colour the palette holds, as a stored byte. */
  lemma ChannelOfSlot(palette: Palette, v: int, c: nat)
    requires 0 <= v && 4 * v + 4 <= |palette.data| && c < 4
    ensures PixelBytes(palette.GetColor(v))[c] == palette.data[4 * v + c] % 0x100
  {
    StoredByte(palette.data[4 * v + c]);
  }

  lemma StoredByte(v: int)
    ensures Store(Uint8, Some(v)) == v % 0x100
  {
    var s := Store(Uint8, Some(v));
    var q := (s - v) / 0x100;
    assert s - v == q * 0x100;
    assert v == -q * 0x100 + s;
  }

  /** An element past the data or outside the palette gives a transparent
      black pixel: four zero bytes. */
  lemma ImageMissingColor(colorType: int, pixels: nat, data: seq<int>, palette: Palette, i: nat)
    requires ExpandsPalette(colorType) && i < pixels
    requires i >= |data| || data[i] < 0 || 4 * data[i] >= |palette.data|
    ensures ImageBytes(colorType, pixels, data, palette)[4 * i..4 * i + 4] == [0, 0, 0, 0]
  {
    ImagePixel(colorType, pixels, data, palette, i);
  }

  /** For an indexed image over the PLTE palette, pixel i with index v below
      the palette's colour count is the PLTE triple at 3v and the tRNS alpha
      of v, or 255 when tRNS does not reach it. */
  lemma IndexedPixelFromPlte(bitDepth: nat, plte: seq<byte>, trns: Option<seq<byte>>, pixels: nat, data: seq<int>, i: nat)
    requires i < pixels && i < |data| && 0 <= data[i] < PlteColorCount(bitDepth, |plte|)
    ensures var v := data[i];
      ImageBytes(IndexedColor, pixels, data, PltePalette(bitDepth, plte, trns))[4 * i..4 * i + 4]
      == [plte[3 * v], plte[3 * v + 1], plte[3 * v + 2], if trns.Some? && v < |trns.value| then trns.value[v] else 255]
  {
    var v := data[i];
    var palette := PltePalette(bitDepth, plte, trns);
    PlteColors(bitDepth, plte, trns, v);
    ImagePixel(IndexedColor, pixels, data, palette, i);
    assert ColorOf(palette, Element(data, i)) == palette.GetColor(v);
    PixelOfBytes(plte[3 * v], plte[3 * v + 1], plte[3 * v + 2], if trns.Some? && v < |trns.value| then trns.value[v] else 255);
  }

  /** A colour of four bytes is stored as those bytes. */
  lemma PixelOfBytes(r: byte, g: byte, b: byte, a: byte)
    ensures PixelBytes(Color(Some(r), Some(g), Some(b), Some(a))) == [r, g, b, a]
  {
    StoredByte(r);
    StoredByte(g);
    StoredByte(b);
    StoredByte(a);
  }
}
