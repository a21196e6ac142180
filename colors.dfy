/** The colour records (src/models/color.ts): the `Color` object a palette
    lookup returns and the single transparent colours of a tRNS chunk. */
module Colors {
  import opened Wrappers

  /** `{ r, g, b, a }`; a component read outside the palette's data is
      undefined. */
  datatype Color = Color(r: Option<int>, g: Option<int>, b: Option<int>, a: Option<int>)

  /** `Color1D` (one grey sample) or `Color3D` (red, green, blue). */
  datatype TransparentColor = Color1D(grey: int) | Color3D(red: int, green: int, blue: int)
}
