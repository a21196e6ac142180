/** Conversion of decoded samples to another channel layout and sample depth
    (src/image/toCustomImageData.ts), for the layout pairs whose mappers need
    no luma arithmetic: Y and YA among themselves, RGB and RGBA among
    themselves. */
module CustomImageData {
  import opened Wrappers
  import opened Bytes
  import opened Constants
  import opened ImageProps
  import opened TypedArrayStreams

  // ---------------------------------------------------------------------
  // scale and clamp

  /** `clamp`: `Math.min(2^t - 1, Math.max(0, value))`. */
  function Clamp(targetDepth: nat, v: int): (r: int)
    ensures 0 <= r <= GetOpaque(targetDepth)
    ensures 0 <= v <= GetOpaque(targetDepth) ==> r == v
    ensures v < 0 ==> r == 0
    ensures v > GetOpaque(targetDepth) ==> r == GetOpaque(targetDepth)
  {
    var low := if v < 0 then 0 else v;
    if low < GetOpaque(targetDepth) then low else GetOpaque(targetDepth)
  }

  lemma Pow2AtLeastTwo(n: nat)
    requires n >= 1
    ensures Pow2(n) >= 2
  {
  }

  /** `Math.round(C * scaleMultiplier)` in exact arithmetic: the multiplier
      is `(2^t - 1) / (2^s - 1)` and `Math.round` is `floor(x + 1/2)`. */
  function RoundScaled(c: int, sourceDepth: nat, targetDepth: nat): int
    requires sourceDepth >= 1
  {
    Pow2AtLeastTwo(sourceDepth);
    var n := GetOpaque(sourceDepth);
    (2 * c * GetOpaque(targetDepth) + n) / (2 * n)
  }

  /** The rounded value is the integer nearest to `C * (2^t - 1) / (2^s - 1)`,
      halves going up: `r - 1/2 <= C * m < r + 1/2`. */
  lemma RoundScaledNearest(c: int, sourceDepth: nat, targetDepth: nat)
    requires sourceDepth >= 1
    ensures var r := RoundScaled(c, sourceDepth, targetDepth);
      var n := GetOpaque(sourceDepth);
      (2 * r - 1) * n <= 2 * c * GetOpaque(targetDepth) < (2 * r + 1) * n
  {
    Pow2AtLeastTwo(sourceDepth);
    var n := GetOpaque(sourceDepth);
    var v := 2 * c * GetOpaque(targetDepth) + n;
    var r := v / (2 * n);
    assert v == r * (2 * n) + v % (2 * n);
    assert (2 * r - 1) * n == r * (2 * n) - n;
    assert (2 * r + 1) * n == r * (2 * n) + n;
  }

  /** `scale`: the rounded value, clamped. A read past the end of the data
      gives undefined, and undefined stays undefined (NaN) through the
      arithmetic. */
  function Scale(sourceDepth: nat, targetDepth: nat, c: Option<int>): (r: Option<int>)
    requires sourceDepth >= 1
    ensures r.None? <==> c.None?
    ensures r.Some? ==> 0 <= r.value <= GetOpaque(targetDepth)
  {
    if c.None? then None else Some(Clamp(targetDepth, RoundScaled(c.value, sourceDepth, targetDepth)))
  }

  /** At equal depths the multiplier is 1: `scale` is `clamp`, and it keeps
      every sample value of that depth. */
  lemma ScaleSameDepth(depth: nat, c: Option<int>)
    requires depth >= 1
    ensures Scale(depth, depth, c) == if c.None? then None else Some(Clamp(depth, c.value))
    ensures c.Some? && 0 <= c.value <= GetOpaque(depth) ==> Scale(depth, depth, c) == c
  {
    if c.Some? {
      Pow2AtLeastTwo(depth);
      var n, v := GetOpaque(depth), c.value;
      assert 2 * v * n + n == v * (2 * n) + n;
      DivModUnique(2 * v * n + n, 2 * n, v, n);
    }
  }

  /** For the PNG bit depths, `2^s - 1` divides `2^t - 1` whenever s <= t. */
  lemma OpaqueDivides(s: nat, t: nat)
    requires IsBitDepth(s) && IsBitDepth(t) && s <= t
    ensures GetOpaque(s) > 0 && GetOpaque(t) % GetOpaque(s) == 0
  {
    DepthPowers();
  }

  /** Widening a sample to a larger bit depth multiplies it exactly by
      `(2^t - 1) / (2^s - 1)`, and scaling back down restores it. */
  lemma ScaleWidenNarrow(s: nat, t: nat, c: int)
    requires IsBitDepth(s) && IsBitDepth(t) && s <= t && 0 <= c <= GetOpaque(s)
    ensures Scale(s, t, Some(c)) == Some(c * (GetOpaque(t) / GetOpaque(s)))
    ensures Scale(t, s, Scale(s, t, Some(c))) == Some(c)
  {
    OpaqueDivides(s, t);
    var k := GetOpaque(t) / GetOpaque(s);
    DivModUnique(GetOpaque(t), GetOpaque(s), k, 0);
    ScaleByFactor(s, t, k, c);
  }

  /** The same, for any depths whose opaque values are in ratio k. */
  lemma ScaleByFactor(s: nat, t: nat, k: int, c: int)
    requires s >= 1 && t >= 1 && k >= 1 && GetOpaque(t) == k * GetOpaque(s) && 0 <= c <= GetOpaque(s)
    ensures Scale(s, t, Some(c)) == Some(c * k)
    ensures Scale(t, s, Scale(s, t, Some(c))) == Some(c)
  {
    RoundWiden(c, s, t, k);
    assert c * k <= GetOpaque(t) by { MulMono(GetOpaque(s), c, k); }
    RoundNarrow(c, s, t, k);
  }

  /** `round(c * (2^t - 1) / (2^s - 1))` is `c * k` when `2^t - 1 = k (2^s - 1)`. */
  lemma RoundWiden(c: int, s: nat, t: nat, k: int)
    requires s >= 1 && GetOpaque(t) == k * GetOpaque(s)
    ensures RoundScaled(c, s, t) == c * k
  {
    Pow2AtLeastTwo(s);
    var n := GetOpaque(s);
    assert 2 * c * GetOpaque(t) + n == (c * k) * (2 * n) + n;
    DivModUnique(2 * c * GetOpaque(t) + n, 2 * n, c * k, n);
  }

  /** `round(c k * (2^s - 1) / (2^t - 1))` is `c` when `2^t - 1 = k (2^s - 1)`. */
  lemma RoundNarrow(c: int, s: nat, t: nat, k: int)
    requires s >= 1 && t >= 1 && GetOpaque(t) == k * GetOpaque(s)
    ensures RoundScaled(c * k, t, s) == c
  {
    Pow2AtLeastTwo(t);
    var n, m := GetOpaque(s), GetOpaque(t);
    assert 2 * (c * k) * n + m == c * (2 * m) + m;
    DivModUnique(2 * (c * k) * n + m, 2 * m, c, m);
  }

  // ---------------------------------------------------------------------
  // The pixel mappers

  /** The layout pairs whose mappers use no luma conversion: both layouts
      have one grey sample, or both have three colour samples. */
  predicate DirectPair(source: ChannelsMap, target: ChannelsMap)
  {
    source.ColorCount() == target.ColorCount()
  }

  /** The samples one call of the mapper writes, given the samples it reads,
      for the eight luma-free entries of `getPixelMappers`' table. */
  function PixelMap(source: ChannelsMap, target: ChannelsMap, sourceDepth: nat, targetDepth: nat,
                    px: seq<Option<int>>): (r: seq<Option<int>>)
    requires DirectPair(source, target) && sourceDepth >= 1 && |px| == source.Length()
    ensures |r| == target.Length()
  {
    var full := Some(GetOpaque(targetDepth));
    match source
    case Y =>
      if target == Y then [Scale(sourceDepth, targetDepth, px[0])]
      else [Scale(sourceDepth, targetDepth, px[0]), full]
    case YA =>
      if target == Y then [Scale(sourceDepth, targetDepth, px[0])]
      else [Scale(sourceDepth, targetDepth, px[0]), Scale(sourceDepth, targetDepth, px[1])]
    case RGB =>
      if target == RGB then
        [Scale(sourceDepth, targetDepth, px[0]), Scale(sourceDepth, targetDepth, px[1]), Scale(sourceDepth, targetDepth, px[2])]
      else
        [Scale(sourceDepth, targetDepth, px[0]), Scale(sourceDepth, targetDepth, px[1]), Scale(sourceDepth, targetDepth, px[2]), full]
    case RGBA =>
      if target == RGB then
        [Scale(sourceDepth, targetDepth, px[0]), Scale(sourceDepth, targetDepth, px[1]), Scale(sourceDepth, targetDepth, px[2])]
      else
        [Scale(sourceDepth, targetDepth, px[0]), Scale(sourceDepth, targetDepth, px[1]), Scale(sourceDepth, targetDepth, px[2]),
         Scale(sourceDepth, targetDepth, px[3])]
  }

  /** Every mapper scales the colour samples in order; it then scales the
      source alpha when both layouts have alpha, and writes opaque alpha when
      only the target has it. */
  lemma PixelMapScales(source: ChannelsMap, target: ChannelsMap, sourceDepth: nat, targetDepth: nat,
                       px: seq<Option<int>>)
    requires DirectPair(source, target) && sourceDepth >= 1 && |px| == source.Length()
    ensures var r := PixelMap(source, target, sourceDepth, targetDepth, px);
      forall i :: 0 <= i < target.ColorCount() ==> r[i] == Scale(sourceDepth, targetDepth, px[i])
    ensures var r := PixelMap(source, target, sourceDepth, targetDepth, px);
      target.HasAlpha() && source.HasAlpha() ==> r[target.ColorCount()] == Scale(sourceDepth, targetDepth, px[source.ColorCount()])
    ensures var r := PixelMap(source, target, sourceDepth, targetDepth, px);
      target.HasAlpha() && !source.HasAlpha() ==> r[target.ColorCount()] == Some(GetOpaque(targetDepth))
  {
  }

  /** Dropping the alpha channel skips the source alpha sample: the output
      does not depend on it (no blending). */
  lemma AlphaDropped(source: ChannelsMap, target: ChannelsMap, sourceDepth: nat, targetDepth: nat,
                     px: seq<Option<int>>, alpha: Option<int>)
    requires DirectPair(source, target) && sourceDepth >= 1 && |px| == source.Length()
    requires source.HasAlpha() && !target.HasAlpha()
    ensures PixelMap(source, target, sourceDepth, targetDepth, px)
            == PixelMap(source, target, sourceDepth, targetDepth, px[|px| - 1 := alpha])
  {
    var r := PixelMap(source, target, sourceDepth, targetDepth, px);
    var r' := PixelMap(source, target, sourceDepth, targetDepth, px[|px| - 1 := alpha]);
    LayoutOfChannels(source);
    LayoutOfChannels(target);
    PixelMapScales(source, target, sourceDepth, targetDepth, px);
    PixelMapScales(source, target, sourceDepth, targetDepth, px[|px| - 1 := alpha]);
    forall i | 0 <= i < |r|
      ensures r[i] == r'[i]
    {
      assert i < target.ColorCount();
    }
  }

  // ---------------------------------------------------------------------
  // Reading and writing the typed arrays

  /** The value `read()` returns at position i: undefined outside the array. */
  function Sample(data: seq<int>, i: int): Option<int>
  {
    if 0 <= i < |data| then Some(data[i]) else None
  }

  /** The values of `k` consecutive reads from position `off`. */
  function Samples(data: seq<int>, off: int, k: nat): (r: seq<Option<int>>)
    ensures |r| == k
  {
    seq(k, i => Sample(data, off + i))
  }

  /** What the target array holds after writing each value in turn. */
  function Stored(kind: ElementKind, vs: seq<Option<int>>): (r: seq<int>)
    ensures |r| == |vs|
  {
    seq(|vs|, i requires 0 <= i < |vs| => Store(kind, vs[i]))
  }

  /** Target sample i of the pixel whose source samples start at `off`: a
      scaled colour sample, the scaled source alpha, or opaque alpha. */
  function ChannelOut(source: ChannelsMap, target: ChannelsMap, sourceDepth: nat, targetDepth: nat, kind: ElementKind,
                      data: seq<int>, off: int, i: nat): int
    requires sourceDepth >= 1
  {
    if i < target.ColorCount() then Copied(kind, sourceDepth, targetDepth, data, off + i)
    else if source.HasAlpha() then Copied(kind, sourceDepth, targetDepth, data, off + source.ColorCount())
    else Store(kind, Some(GetOpaque(targetDepth)))
  }

  /** The target samples of the pixel whose source samples start at `off`. */
  function PixelOut(source: ChannelsMap, target: ChannelsMap, sourceDepth: nat, targetDepth: nat, kind: ElementKind,
                    data: seq<int>, off: int): (r: seq<int>)
    requires DirectPair(source, target) && sourceDepth >= 1
    ensures |r| == target.Length()
  {
    seq(target.Length(), i requires 0 <= i < target.Length() => ChannelOut(source, target, sourceDepth, targetDepth, kind, data, off, i))
  }

  /** The target samples of `n` pixels whose source samples start at `off`. */
  function Converted(source: ChannelsMap, target: ChannelsMap, sourceDepth: nat, targetDepth: nat, kind: ElementKind,
                     data: seq<int>, off: int, n: nat): (r: seq<int>)
    requires DirectPair(source, target) && sourceDepth >= 1
    ensures |r| == Times(n, target.Length())
    decreases n
  {
    if n == 0 then []
    else
      Converted(source, target, sourceDepth, targetDepth, kind, data, off, n - 1)
      + PixelOut(source, target, sourceDepth, targetDepth, kind, data, off + Times(n - 1, source.Length()))
  }

  /** `a` with the elements from `off` replaced by `v`. */
  function Splice(a: seq<int>, off: nat, v: seq<int>): (r: seq<int>)
    requires off + |v| <= |a|
    ensures |r| == |a|
  {
    a[..off] + v + a[off + |v|..]
  }

  lemma SpliceJoin(a: seq<int>, off: nat, v: seq<int>, w: seq<int>)
    requires off + |v| + |w| <= |a|
    ensures Splice(Splice(a, off, v), off + |v|, w) == Splice(a, off, v + w)
  {
    var b := Splice(a, off, v);
    assert b[..off + |v|] == a[..off] + v;
    assert b[off + |v| + |w|..] == a[off + |v| + |w|..];
  }

  /** The streams of one conversion: two arrays, and room for `room` more
      writes before the end of the target. */
  ghost predicate Streams(src: TypedArrayStream, dst: TypedArrayStream, room: nat)
    reads src, dst, dst.typedArray
  {
    src != dst && src.typedArray != dst.typedArray && dst.Valid()
    && 0 <= dst.offset && dst.offset + room <= dst.typedArray.Length
  }

  /** The element one `dst.write(scale(src.read()))` stores when the read is
      at position i. */
  function Copied(kind: ElementKind, sourceDepth: nat, targetDepth: nat, data: seq<int>, i: int): (r: int)
    requires sourceDepth >= 1
    ensures InRange(kind, r)
  {
    Store(kind, Scale(sourceDepth, targetDepth, Sample(data, i)))
  }

  /** `dst.write(scale(src.read()))`. */
  method CopyScaled(src: TypedArrayStream, dst: TypedArrayStream, sourceDepth: nat, targetDepth: nat, ghost data: seq<int>)
    requires Streams(src, dst, 1) && sourceDepth >= 1 && src.typedArray[..] == data
    modifies src, dst, dst.typedArray
    ensures Streams(src, dst, 0) && src.typedArray[..] == data
    ensures src.offset == old(src.offset) + 1 && dst.offset == old(dst.offset) + 1
    ensures dst.typedArray[..]
            == old(dst.typedArray[..])[old(dst.offset) := Copied(dst.kind, sourceDepth, targetDepth, data, old(src.offset))]
  {
    var c := src.Read();
    dst.Write(Scale(sourceDepth, targetDepth, c));
  }

  /** `dst.write(targetOpaque)`. */
  method WriteOpaque(dst: TypedArrayStream, src: TypedArrayStream, targetDepth: nat, ghost data: seq<int>)
    requires Streams(src, dst, 1) && src.typedArray[..] == data
    modifies dst, dst.typedArray
    ensures Streams(src, dst, 0) && src.typedArray[..] == data
    ensures dst.offset == old(dst.offset) + 1
    ensures dst.typedArray[..] == old(dst.typedArray[..])[old(dst.offset) := Store(dst.kind, Some(GetOpaque(targetDepth)))]
  {
    dst.Write(Some(GetOpaque(targetDepth)));
  }

  // Splicing one to four values is storing them one after the other.

  lemma Splice1(a: seq<int>, at: nat, w0: int)
    requires at + 1 <= |a|
    ensures Splice(a, at, [w0]) == a[at := w0]
  {
  }

  lemma Splice2(a: seq<int>, at: nat, w0: int, w1: int)
    requires at + 2 <= |a|
    ensures Splice(a, at, [w0, w1]) == a[at := w0][at + 1 := w1]
  {
  }

  lemma Splice3(a: seq<int>, at: nat, w0: int, w1: int, w2: int)
    requires at + 3 <= |a|
    ensures Splice(a, at, [w0, w1, w2]) == a[at := w0][at + 1 := w1][at + 2 := w2]
  {
  }

  lemma Splice4(a: seq<int>, at: nat, w0: int, w1: int, w2: int, w3: int)
    requires at + 4 <= |a|
    ensures Splice(a, at, [w0, w1, w2, w3]) == a[at := w0][at + 1 := w1][at + 2 := w2][at + 3 := w3]
  {
  }

  /** What each mapper writes: the colour samples scaled in order, then the
      source alpha scaled when both layouts have alpha, or opaque alpha when
      only the target has it. */
  lemma PixelOutCopies(source: ChannelsMap, target: ChannelsMap, sourceDepth: nat, targetDepth: nat, kind: ElementKind,
                       data: seq<int>, off: int)
    requires DirectPair(source, target) && sourceDepth >= 1
    ensures var r := PixelOut(source, target, sourceDepth, targetDepth, kind, data, off);
      forall i :: 0 <= i < target.ColorCount() ==> r[i] == Copied(kind, sourceDepth, targetDepth, data, off + i)
    ensures var r := PixelOut(source, target, sourceDepth, targetDepth, kind, data, off);
      target.HasAlpha() && source.HasAlpha() ==>
        r[target.ColorCount()] == Copied(kind, sourceDepth, targetDepth, data, off + source.ColorCount())
    ensures var r := PixelOut(source, target, sourceDepth, targetDepth, kind, data, off);
      target.HasAlpha() && !source.HasAlpha() ==> r[target.ColorCount()] == Store(kind, Some(GetOpaque(targetDepth)))
  {
    LayoutOfChannels(source);
    LayoutOfChannels(target);
  }

  /** A pixel's writes are what the `getPixelMappers` table entry for the two
      layouts computes from the samples it reads, stored in the target array. */
  lemma PixelOutIsTable(source: ChannelsMap, target: ChannelsMap, sourceDepth: nat, targetDepth: nat, kind: ElementKind,
                        data: seq<int>, off: int)
    requires DirectPair(source, target) && sourceDepth >= 1
    ensures PixelOut(source, target, sourceDepth, targetDepth, kind, data, off)
            == Stored(kind, PixelMap(source, target, sourceDepth, targetDepth, Samples(data, off, source.Length())))
  {
    var px := Samples(data, off, source.Length());
    var r := PixelOut(source, target, sourceDepth, targetDepth, kind, data, off);
    var t := Stored(kind, PixelMap(source, target, sourceDepth, targetDepth, px));
    LayoutOfChannels(source);
    LayoutOfChannels(target);
    var mapped := PixelMap(source, target, sourceDepth, targetDepth, px);
    PixelMapScales(source, target, sourceDepth, targetDepth, px);
    forall i | 0 <= i < |r|
      ensures r[i] == t[i]
    {
      assert t[i] == Store(kind, mapped[i]);
      if i < target.ColorCount() {
        assert mapped[i] == Scale(sourceDepth, targetDepth, px[i]);
        assert px[i] == Sample(data, off + i);
      } else if source.HasAlpha() {
        assert px[source.ColorCount()] == Sample(data, off + source.ColorCount());
      }
    }
  }

  /** A pixel's writes are the stored mapper output when they are the
      scaled colour samples and then the alpha `PixelOutCopies` names. */
  lemma PixelOutIs(source: ChannelsMap, target: ChannelsMap, sourceDepth: nat, targetDepth: nat, kind: ElementKind,
                   data: seq<int>, off: int, written: seq<int>)
    requires DirectPair(source, target) && sourceDepth >= 1 && |written| == target.Length()
    requires forall i :: 0 <= i < target.ColorCount() ==> written[i] == Copied(kind, sourceDepth, targetDepth, data, off + i)
    requires target.HasAlpha() && source.HasAlpha() ==>
               written[target.ColorCount()] == Copied(kind, sourceDepth, targetDepth, data, off + source.ColorCount())
    requires target.HasAlpha() && !source.HasAlpha() ==> written[target.ColorCount()] == Store(kind, Some(GetOpaque(targetDepth)))
    ensures PixelOut(source, target, sourceDepth, targetDepth, kind, data, off) == written
  {
    PixelOutCopies(source, target, sourceDepth, targetDepth, kind, data, off);
    LayoutOfChannels(target);
  }

  // The eight luma-free closures of getPixelMappers, one method each; the
  // ghost values name what each write stores.

  /** Y to Y: one scaled sample. */
  method YToY(src: TypedArrayStream, dst: TypedArrayStream, sourceDepth: nat, targetDepth: nat)
    requires Streams(src, dst, 1) && sourceDepth >= 1
    modifies src, dst, dst.typedArray
    ensures Streams(src, dst, 0)
    ensures src.offset == old(src.offset) + 1 && dst.offset == old(dst.offset) + 1
    ensures dst.typedArray[..] == Splice(old(dst.typedArray[..]), old(dst.offset),
              PixelOut(Y, Y, sourceDepth, targetDepth, dst.kind, src.typedArray[..], old(src.offset)))
  {
    ghost var a, at, data, off := dst.typedArray[..], dst.offset, src.typedArray[..], src.offset;
    ghost var w0 := Copied(dst.kind, sourceDepth, targetDepth, data, off);
    CopyScaled(src, dst, sourceDepth, targetDepth, data);
    PixelOutIs(Y, Y, sourceDepth, targetDepth, dst.kind, data, off, [w0]);
    Splice1(a, at, w0);
  }

  /** Y to YA: the scaled sample, then opaque alpha. */
  method YToYA(src: TypedArrayStream, dst: TypedArrayStream, sourceDepth: nat, targetDepth: nat)
    requires Streams(src, dst, 2) && sourceDepth >= 1
    modifies src, dst, dst.typedArray
    ensures Streams(src, dst, 0)
    ensures src.offset == old(src.offset) + 1 && dst.offset == old(dst.offset) + 2
    ensures dst.typedArray[..] == Splice(old(dst.typedArray[..]), old(dst.offset),
              PixelOut(Y, YA, sourceDepth, targetDepth, dst.kind, src.typedArray[..], old(src.offset)))
  {
    ghost var a, at, data, off := dst.typedArray[..], dst.offset, src.typedArray[..], src.offset;
    ghost var w0 := Copied(dst.kind, sourceDepth, targetDepth, data, off);
    ghost var w1 := Store(dst.kind, Some(GetOpaque(targetDepth)));
    CopyScaled(src, dst, sourceDepth, targetDepth, data);
    WriteOpaque(dst, src, targetDepth, data);
    PixelOutIs(Y, YA, sourceDepth, targetDepth, dst.kind, data, off, [w0, w1]);
    Splice2(a, at, w0, w1);
  }

  /** YA to Y: the scaled grey sample; the alpha sample is skipped. */
  method YAToY(src: TypedArrayStream, dst: TypedArrayStream, sourceDepth: nat, targetDepth: nat)
    requires Streams(src, dst, 1) && sourceDepth >= 1
    modifies src, dst, dst.typedArray
    ensures Streams(src, dst, 0)
    ensures src.offset == old(src.offset) + 2 && dst.offset == old(dst.offset) + 1
    ensures dst.typedArray[..] == Splice(old(dst.typedArray[..]), old(dst.offset),
              PixelOut(YA, Y, sourceDepth, targetDepth, dst.kind, src.typedArray[..], old(src.offset)))
  {
    ghost var a, at, data, off := dst.typedArray[..], dst.offset, src.typedArray[..], src.offset;
    ghost var w0 := Copied(dst.kind, sourceDepth, targetDepth, data, off);
    CopyScaled(src, dst, sourceDepth, targetDepth, data);
    src.Skip(1);
    PixelOutIs(YA, Y, sourceDepth, targetDepth, dst.kind, data, off, [w0]);
    Splice1(a, at, w0);
  }

  /** YA to YA: both samples scaled. */
  method YAToYA(src: TypedArrayStream, dst: TypedArrayStream, sourceDepth: nat, targetDepth: nat)
    requires Streams(src, dst, 2) && sourceDepth >= 1
    modifies src, dst, dst.typedArray
    ensures Streams(src, dst, 0)
    ensures src.offset == old(src.offset) + 2 && dst.offset == old(dst.offset) + 2
    ensures dst.typedArray[..] == Splice(old(dst.typedArray[..]), old(dst.offset),
              PixelOut(YA, YA, sourceDepth, targetDepth, dst.kind, src.typedArray[..], old(src.offset)))
  {
    ghost var a, at, data, off := dst.typedArray[..], dst.offset, src.typedArray[..], src.offset;
    ghost var w0 := Copied(dst.kind, sourceDepth, targetDepth, data, off);
    ghost var w1 := Copied(dst.kind, sourceDepth, targetDepth, data, off + 1);
    CopyScaled(src, dst, sourceDepth, targetDepth, data);
    CopyScaled(src, dst, sourceDepth, targetDepth, data);
    PixelOutIs(YA, YA, sourceDepth, targetDepth, dst.kind, data, off, [w0, w1]);
    Splice2(a, at, w0, w1);
  }

  /** RGB to RGB: three scaled samples. */
  method RgbToRgb(src: TypedArrayStream, dst: TypedArrayStream, sourceDepth: nat, targetDepth: nat)
    requires Streams(src, dst, 3) && sourceDepth >= 1
    modifies src, dst, dst.typedArray
    ensures Streams(src, dst, 0)
    ensures src.offset == old(src.offset) + 3 && dst.offset == old(dst.offset) + 3
    ensures dst.typedArray[..] == Splice(old(dst.typedArray[..]), old(dst.offset),
              PixelOut(RGB, RGB, sourceDepth, targetDepth, dst.kind, src.typedArray[..], old(src.offset)))
  {
    ghost var a, at, data, off := dst.typedArray[..], dst.offset, src.typedArray[..], src.offset;
    ghost var w0 := Copied(dst.kind, sourceDepth, targetDepth, data, off);
    ghost var w1 := Copied(dst.kind, sourceDepth, targetDepth, data, off + 1);
    ghost var w2 := Copied(dst.kind, sourceDepth, targetDepth, data, off + 2);
    CopyScaled(src, dst, sourceDepth, targetDepth, data);
    CopyScaled(src, dst, sourceDepth, targetDepth, data);
    CopyScaled(src, dst, sourceDepth, targetDepth, data);
    PixelOutIs(RGB, RGB, sourceDepth, targetDepth, dst.kind, data, off, [w0, w1, w2]);
    Splice3(a, at, w0, w1, w2);
  }

  /** RGB to RGBA: three scaled samples, then opaque alpha. */
  method RgbToRgba(src: TypedArrayStream, dst: TypedArrayStream, sourceDepth: nat, targetDepth: nat)
    requires Streams(src, dst, 4) && sourceDepth >= 1
    modifies src, dst, dst.typedArray
    ensures Streams(src, dst, 0)
    ensures src.offset == old(src.offset) + 3 && dst.offset == old(dst.offset) + 4
    ensures dst.typedArray[..] == Splice(old(dst.typedArray[..]), old(dst.offset),
              PixelOut(RGB, RGBA, sourceDepth, targetDepth, dst.kind, src.typedArray[..], old(src.offset)))
  {
    ghost var a, at, data, off := dst.typedArray[..], dst.offset, src.typedArray[..], src.offset;
    ghost var w0 := Copied(dst.kind, sourceDepth, targetDepth, data, off);
    ghost var w1 := Copied(dst.kind, sourceDepth, targetDepth, data, off + 1);
    ghost var w2 := Copied(dst.kind, sourceDepth, targetDepth, data, off + 2);
    ghost var w3 := Store(dst.kind, Some(GetOpaque(targetDepth)));
    CopyScaled(src, dst, sourceDepth, targetDepth, data);
    CopyScaled(src, dst, sourceDepth, targetDepth, data);
    CopyScaled(src, dst, sourceDepth, targetDepth, data);
    WriteOpaque(dst, src, targetDepth, data);
    PixelOutIs(RGB, RGBA, sourceDepth, targetDepth, dst.kind, data, off, [w0, w1, w2, w3]);
    Splice4(a, at, w0, w1, w2, w3);
  }

  /** RGBA to RGB: three scaled samples; the alpha sample is skipped. */
  method RgbaToRgb(src: TypedArrayStream, dst: TypedArrayStream, sourceDepth: nat, targetDepth: nat)
    requires Streams(src, dst, 3) && sourceDepth >= 1
    modifies src, dst, dst.typedArray
    ensures Streams(src, dst, 0)
    ensures src.offset == old(src.offset) + 4 && dst.offset == old(dst.offset) + 3
    ensures dst.typedArray[..] == Splice(old(dst.typedArray[..]), old(dst.offset),
              PixelOut(RGBA, RGB, sourceDepth, targetDepth, dst.kind, src.typedArray[..], old(src.offset)))
  {
    ghost var a, at, data, off := dst.typedArray[..], dst.offset, src.typedArray[..], src.offset;
    ghost var w0 := Copied(dst.kind, sourceDepth, targetDepth, data, off);
    ghost var w1 := Copied(dst.kind, sourceDepth, targetDepth, data, off + 1);
    ghost var w2 := Copied(dst.kind, sourceDepth, targetDepth, data, off + 2);
    CopyScaled(src, dst, sourceDepth, targetDepth, data);
    CopyScaled(src, dst, sourceDepth, targetDepth, data);
    CopyScaled(src, dst, sourceDepth, targetDepth, data);
    src.Skip(1);
    PixelOutIs(RGBA, RGB, sourceDepth, targetDepth, dst.kind, data, off, [w0, w1, w2]);
    Splice3(a, at, w0, w1, w2);
  }

  /** RGBA to RGBA: four scaled samples. */
  method RgbaToRgba(src: TypedArrayStream, dst: TypedArrayStream, sourceDepth: nat, targetDepth: nat)
    requires Streams(src, dst, 4) && sourceDepth >= 1
    modifies src, dst, dst.typedArray
    ensures Streams(src, dst, 0)
    ensures src.offset == old(src.offset) + 4 && dst.offset == old(dst.offset) + 4
    ensures dst.typedArray[..] == Splice(old(dst.typedArray[..]), old(dst.offset),
              PixelOut(RGBA, RGBA, sourceDepth, targetDepth, dst.kind, src.typedArray[..], old(src.offset)))
  {
    ghost var a, at, data, off := dst.typedArray[..], dst.offset, src.typedArray[..], src.offset;
    ghost var w0 := Copied(dst.kind, sourceDepth, targetDepth, data, off);
    ghost var w1 := Copied(dst.kind, sourceDepth, targetDepth, data, off + 1);
    ghost var w2 := Copied(dst.kind, sourceDepth, targetDepth, data, off + 2);
    ghost var w3 := Copied(dst.kind, sourceDepth, targetDepth, data, off + 3);
    CopyScaled(src, dst, sourceDepth, targetDepth, data);
    CopyScaled(src, dst, sourceDepth, targetDepth, data);
    CopyScaled(src, dst, sourceDepth, targetDepth, data);
    CopyScaled(src, dst, sourceDepth, targetDepth, data);
    PixelOutIs(RGBA, RGBA, sourceDepth, targetDepth, dst.kind, data, off, [w0, w1, w2, w3]);
    Splice4(a, at, w0, w1, w2, w3);
  }

  /** `mapper()`: the closure `getPixelMappers` returns for the two layouts,
      `mappers[sourceChannelsMap][targetChannelsMap]`. */
  method RunMapper(src: TypedArrayStream, dst: TypedArrayStream, source: ChannelsMap, target: ChannelsMap,
                   sourceDepth: nat, targetDepth: nat)
    requires DirectPair(source, target) && Streams(src, dst, target.Length()) && sourceDepth >= 1
    modifies src, dst, dst.typedArray
    ensures Streams(src, dst, 0)
    ensures src.offset == old(src.offset) + source.Length() && dst.offset == old(dst.offset) + target.Length()
    ensures dst.typedArray[..] == Splice(old(dst.typedArray[..]), old(dst.offset),
              PixelOut(source, target, sourceDepth, targetDepth, dst.kind, src.typedArray[..], old(src.offset)))
  {
    match source
    case Y =>
      if target == Y { YToY(src, dst, sourceDepth, targetDepth); } else { YToYA(src, dst, sourceDepth, targetDepth); }
    case YA =>
      if target == Y { YAToY(src, dst, sourceDepth, targetDepth); } else { YAToYA(src, dst, sourceDepth, targetDepth); }
    case RGB =>
      if target == RGB { RgbToRgb(src, dst, sourceDepth, targetDepth); } else { RgbToRgba(src, dst, sourceDepth, targetDepth); }
    case RGBA =>
      if target == RGB { RgbaToRgb(src, dst, sourceDepth, targetDepth); } else { RgbaToRgba(src, dst, sourceDepth, targetDepth); }
  }

  // ---------------------------------------------------------------------
  // toCustomImageData

  /** The options `toCustomImageData` takes; an absent field takes its default. */
  datatype Options = Options(channelsMap: Option<ChannelsMap>, sampleDepth: Option<int>)

  /** The target layout: RGBA unless given. */
  function TargetMap(options: Options): ChannelsMap
  {
    if options.channelsMap.Some? then options.channelsMap.value else RGBA
  }

  /** The target sample depth: 8 unless given. */
  function TargetDepth(options: Options): int
  {
    if options.sampleDepth.Some? then options.sampleDepth.value else 8
  }

  /** A Uint16Array for 16-bit samples, a Uint8Array otherwise. */
  function TargetKind(targetDepth: int): (r: ElementKind)
    ensures r != Uint8Clamped
  {
    if targetDepth == 16 then Uint16 else Uint8
  }

  /** The array chosen for a bit depth holds every sample value of that
      depth, so no scaled sample wraps when it is stored. */
  lemma TargetHoldsDepth(targetDepth: nat, v: int)
    requires IsBitDepth(targetDepth) && 0 <= v <= GetOpaque(targetDepth)
    ensures InRange(TargetKind(targetDepth), v)
    ensures Store(TargetKind(targetDepth), Some(v)) == v
  {
    DepthPowers();
  }

  /** The state of `toCustomImageData`'s loop before pixel `index`: both
      cursors are at that pixel, and the target holds the first `index`
      converted pixels and then the zeros it was created with. */
  ghost predicate Converting(src: TypedArrayStream, dst: TypedArrayStream, source: ChannelsMap, target: ChannelsMap,
                             sourceDepth: nat, targetDepth: nat, data: seq<int>, zeros: seq<int>, index: nat, pixels: nat)
    reads src, dst, src.typedArray, dst.typedArray
  {
    DirectPair(source, target) && sourceDepth >= 1 && index <= pixels
    && src.typedArray[..] == data && |zeros| == dst.typedArray.Length
    && src.offset == Times(index, source.Length()) && dst.offset == Times(index, target.Length())
    && Streams(src, dst, Times(pixels - index, target.Length()))
    && dst.typedArray[..] == Splice(zeros, 0, Converted(source, target, sourceDepth, targetDepth, dst.kind, data, 0, index))
  }

  /** One turn of `toCustomImageData`'s loop: the mapper converts pixel
      `index`, and the converted prefix of the target grows by it. */
  method MapPixel(src: TypedArrayStream, dst: TypedArrayStream, source: ChannelsMap, target: ChannelsMap,
                  sourceDepth: nat, targetDepth: nat, ghost data: seq<int>, ghost zeros: seq<int>, index: nat, pixels: nat)
    requires index < pixels
    requires Converting(src, dst, source, target, sourceDepth, targetDepth, data, zeros, index, pixels)
    modifies src, dst, dst.typedArray
    ensures Converting(src, dst, source, target, sourceDepth, targetDepth, data, zeros, index + 1, pixels)
  {
    var len := target.Length();
    assert Times(pixels - index, len) == Times(pixels - (index + 1), len) + len;
    ghost var done := Converted(source, target, sourceDepth, targetDepth, dst.kind, data, 0, index);
    RunMapper(src, dst, source, target, sourceDepth, targetDepth);
    SpliceJoin(zeros, 0, done, PixelOut(source, target, sourceDepth, targetDepth, dst.kind, data, Times(index, source.Length())));
  }

  /** `for (let index = 0; index < pixels; index++) mapper();` */
  method MapPixels(src: TypedArrayStream, dst: TypedArrayStream, source: ChannelsMap, target: ChannelsMap,
                   sourceDepth: nat, targetDepth: nat, ghost data: seq<int>, ghost zeros: seq<int>, pixels: nat)
    requires Converting(src, dst, source, target, sourceDepth, targetDepth, data, zeros, 0, pixels)
    modifies src, dst, dst.typedArray
    ensures Converting(src, dst, source, target, sourceDepth, targetDepth, data, zeros, pixels, pixels)
  {
    var index := 0;
    while index < pixels
      invariant index <= pixels
      invariant Converting(src, dst, source, target, sourceDepth, targetDepth, data, zeros, index, pixels)
    {
      MapPixel(src, dst, source, target, sourceDepth, targetDepth, data, zeros, index, pixels);
      index := index + 1;
    }
  }

  /** `toCustomImageData(sourceImage, { channelsMap, sampleDepth })`: a fresh
      typed array of `width * height` target pixels, pixel i converted from
      source pixel i. */
  method ToCustomImageData(image: Image, options: Options) returns (targetData: array<int>, kind: ElementKind)
    requires image.width >= 0 && image.height >= 0
    requires IsBitDepth(image.sampleDepth) && IsBitDepth(TargetDepth(options))
    requires DirectPair(image.channelsMap, TargetMap(options))
    ensures fresh(targetData)
    ensures kind == TargetKind(TargetDepth(options))
    ensures targetData.Length == image.width * image.height * TargetMap(options).Length()
    ensures targetData[..] == Converted(image.channelsMap, TargetMap(options), image.sampleDepth, TargetDepth(options), kind,
                                        image.channelsData[..], 0, image.width * image.height)
  {
    var source, target := image.channelsMap, TargetMap(options);
    var sourceDepth, targetDepth := image.sampleDepth, TargetDepth(options);
    var pixels := image.width * image.height;
    kind := TargetKind(targetDepth);
    targetData := NewTypedArray(kind, pixels * target.Length());
    var src := new TypedArrayStream(image.channelsData, image.channelsKind);
    var dst := new TypedArrayStream(targetData, kind);
    ghost var data, zeros := image.channelsData[..], targetData[..];
    assert dst.Valid();
    SpliceNothing(zeros, 0);
    TimesIsProduct(pixels, target.Length());
    MapPixels(src, dst, source, target, sourceDepth, targetDepth, data, zeros, pixels);
    SpliceWhole(zeros, Converted(source, target, sourceDepth, targetDepth, kind, data, 0, pixels));
  }

  /** `new TypedArray(length)`: `length` zeros, each a value of the element type. */
  method NewTypedArray(kind: ElementKind, length: nat) returns (a: array<int>)
    ensures fresh(a) && a.Length == length
    ensures forall i :: 0 <= i < length ==> a[i] == 0 && InRange(kind, a[i])
  {
    a := new int[length](_ => 0);
  }

  lemma SpliceNothing(a: seq<int>, at: nat)
    requires at <= |a|
    ensures Splice(a, at, []) == a
  {
  }

  lemma SpliceWhole(a: seq<int>, v: seq<int>)
    requires |v| == |a|
    ensures Splice(a, 0, v) == v
  {
  }
}
