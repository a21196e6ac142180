/** The channel layouts of decoded images (src/image/imageProps.ts). */
module ImageProps {
  import opened TypedArrayStreams

  /** `ChannelsMap`: the names 'Y', 'YA', 'RGB' and 'RGBA'. */
  datatype ChannelsMap = Y | YA | RGB | RGBA
  {
    function Name(): string
    {
      match this
      case Y => "Y"
      case YA => "YA"
      case RGB => "RGB"
      case RGBA => "RGBA"
    }

    /** `channelsMap.length`: samples per pixel. */
    function Length(): (r: nat)
      ensures r == |Name()|
    {
      match this
      case Y => 1
      case YA => 2
      case RGB => 3
      case RGBA => 4
    }

    /** The colour samples that come first in every pixel: one grey or
        three of red, green and blue. */
    function ColorCount(): nat
    {
      if this in {Y, YA} then 1 else 3
    }

    /** The layout has an alpha sample. */
    predicate HasAlpha()
    {
      this == YA || this == RGBA
    }
  }

  /** A pixel is its colour samples followed by alpha when there is one;
      the layouts with alpha are those whose name ends in 'A'. */
  lemma LayoutOfChannels(m: ChannelsMap)
    ensures m.Length() == m.ColorCount() + (if m.HasAlpha() then 1 else 0)
    ensures m.HasAlpha() <==> m.Name()[|m.Name()| - 1] == 'A'
    ensures 1 <= m.Length() <= 4
  {
  }

  /** `BitDepth`: the bit depths a PNG image can have. The type itself is
      not among the modelled files. */
  predicate IsBitDepth(d: int)
  {
    d in {1, 2, 4, 8, 16}
  }

  /** The fields of `ImageProps` that `toCustomImageData` reads; the
      channel data is a Uint8Array or a Uint16Array. */
  datatype Image = Image(width: int, height: int, sampleDepth: int, channelsMap: ChannelsMap,
                         channelsData: array<int>, channelsKind: ElementKind)
}
