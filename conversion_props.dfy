/** Properties of toCustomImageData's conversion (src/image/toCustomImageData.ts):
    what it reads, the layouts it leaves unchanged, and the alpha round trip.
    A conversion lays its pixels end to end: it is Joined of the blocks
    Pixels lists. The facts about such runs (length, where block i sits, a
    run of slices is a slice) are proved once, for any sequence of blocks,
    and then used one pixel at a time. */
module ConversionProps {
  import opened Wrappers
  import opened Bytes
  import opened Constants
  import opened ImageProps
  import opened TypedArrayStreams
  import opened CustomImageData

  // ---------------------------------------------------------------------
  // Runs of blocks

  /** The first n blocks laid end to end. */
  function Joined(blocks: seq<seq<int>>, n: nat): (r: seq<int>)
    requires n <= |blocks|
    decreases n
  {
    if n == 0 then [] else Joined(blocks, n - 1) + blocks[n - 1]
  }

  /** Every block has w elements. */
  predicate Uniform(blocks: seq<seq<int>>, w: nat)
  {
    forall i :: 0 <= i < |blocks| ==> |blocks[i]| == w
  }

  /** Block b is the slice of data of w elements starting at x. */
  predicate IsSliceAt(b: seq<int>, data: seq<int>, x: nat, w: nat)
  {
    x + w <= |data| && b == data[x..x + w]
  }

  lemma {:induction false} JoinedLength(blocks: seq<seq<int>>, w: nat, n: nat)
    requires n <= |blocks| && Uniform(blocks, w)
    ensures |Joined(blocks, n)| == Times(n, w)
    decreases n
  {
    if n > 0 {
      JoinedLength(blocks, w, n - 1);
    }
  }

  /** Block i of a run of blocks of width w starts at i times w. */
  lemma {:induction false} JoinedAt(blocks: seq<seq<int>>, w: nat, n: nat, i: nat)
    requires i < n <= |blocks| && Uniform(blocks, w)
    ensures |Joined(blocks, n)| == Times(n, w)
    ensures Times(i, w) + w <= Times(n, w)
    ensures Joined(blocks, n)[Times(i, w)..Times(i, w) + w] == blocks[i]
    decreases n
  {
    JoinedLength(blocks, w, n);
    JoinedLength(blocks, w, n - 1);
    if i == n - 1 {
      SliceOfLast(Joined(blocks, n - 1), blocks[n - 1]);
    } else {
      JoinedAt(blocks, w, n - 1, i);
      SliceOfFront(Joined(blocks, n - 1), blocks[n - 1], Times(i, w), w);
    }
  }

  lemma SliceOfLast(front: seq<int>, last: seq<int>)
    ensures (front + last)[|front|..|front| + |last|] == last
  {
  }

  lemma SliceOfFront(front: seq<int>, last: seq<int>, at: nat, len: nat)
    requires at + len <= |front|
    ensures (front + last)[at..at + len] == front[at..at + len]
  {
  }

  /** A run whose blocks are the consecutive slices of data from off is that
      part of data. */
  lemma {:induction false} JoinedOfSlices(blocks: seq<seq<int>>, w: nat, data: seq<int>, off: nat, n: nat)
    requires n <= |blocks| && off + Times(n, w) <= |data|
    requires forall i {:trigger blocks[i]} :: 0 <= i < n ==> IsSliceAt(blocks[i], data, off + Times(i, w), w)
    ensures Joined(blocks, n) == data[off..off + Times(n, w)]
    decreases n
  {
    if n > 0 {
      var x := off + Times(n - 1, w);
      assert IsSliceAt(blocks[n - 1], data, x, w);
      JoinedOfSlices(blocks, w, data, off, n - 1);
      ConcatOfSlices(Joined(blocks, n - 1), blocks[n - 1], data, off, x, x + w);
    }
  }

  lemma AppendBoth(a1: seq<int>, b1: seq<int>, a2: seq<int>, b2: seq<int>)
    requires a1 == a2 && b1 == b2
    ensures a1 + b1 == a2 + b2
  {
  }

  /** Blocks equal to equal blocks are equal. */
  lemma SameBlock(b1: seq<seq<int>>, b2: seq<seq<int>>, i: nat, x1: seq<int>, x2: seq<int>)
    requires i < |b1| && i < |b2|
    requires b1[i] == x1
    requires b2[i] == x2
    requires x1 == x2
    ensures b1[i] == b2[i]
  {
  }

  /** A block equal to a slice of data is that slice. */
  lemma SliceBlock(b: seq<seq<int>>, i: nat, x: seq<int>, data: seq<int>, at: nat, w: nat)
    requires i < |b| && b[i] == x && at + w <= |data| && x == data[at..at + w]
    ensures IsSliceAt(b[i], data, at, w)
  {
  }

  lemma ConcatOfSlices(front: seq<int>, last: seq<int>, s: seq<int>, i: nat, j: nat, k: nat)
    requires i <= j <= k <= |s|
    requires front == s[i..j] && last == s[j..k]
    ensures front + last == s[i..k]
  {
  }

  // ---------------------------------------------------------------------
  // A conversion as a run of pixels

  /** The pixels of a conversion, one block each. */
  function Pixels(source: ChannelsMap, target: ChannelsMap, sourceDepth: nat, targetDepth: nat, kind: ElementKind,
                  data: seq<int>, off: int, n: nat): (r: seq<seq<int>>)
    requires DirectPair(source, target) && sourceDepth >= 1
    ensures |r| == n
    decreases n
  {
    if n == 0 then []
    else
      Pixels(source, target, sourceDepth, targetDepth, kind, data, off, n - 1)
      + [PixelOut(source, target, sourceDepth, targetDepth, kind, data, off + Times(n - 1, source.Length()))]
  }

  /** Block i of the pixels is the pixel read at i times the source pixel size. */
  lemma {:induction false} PixelsAt(source: ChannelsMap, target: ChannelsMap, sourceDepth: nat, targetDepth: nat,
                                    kind: ElementKind, data: seq<int>, off: int, n: nat, i: nat)
    requires DirectPair(source, target) && sourceDepth >= 1 && i < n
    ensures Pixels(source, target, sourceDepth, targetDepth, kind, data, off, n)[i]
            == PixelOut(source, target, sourceDepth, targetDepth, kind, data, off + Times(i, source.Length()))
    decreases n
  {
    if i < n - 1 {
      PixelsAt(source, target, sourceDepth, targetDepth, kind, data, off, n - 1, i);
    }
  }

  /** PixelsAt, with the pixels and the offset of pixel i given by name. */
  lemma PixelAtOffset(source: ChannelsMap, target: ChannelsMap, sourceDepth: nat, targetDepth: nat,
                      kind: ElementKind, data: seq<int>, off: int, n: nat, i: nat, x: int, p: seq<seq<int>>)
    requires DirectPair(source, target) && sourceDepth >= 1 && i < n
    requires x == off + Times(i, source.Length())
    requires p == Pixels(source, target, sourceDepth, targetDepth, kind, data, off, n)
    ensures i < |p| && p[i] == PixelOut(source, target, sourceDepth, targetDepth, kind, data, x)
  {
    PixelsAt(source, target, sourceDepth, targetDepth, kind, data, off, n, i);
  }

  /** Two runs of pixels agree at i when the pixels read at i agree. */
  lemma SamePixelAt(s1: ChannelsMap, s2: ChannelsMap, target: ChannelsMap, sourceDepth: nat, targetDepth: nat,
                    kind: ElementKind, d1: seq<int>, o1: int, d2: seq<int>, o2: int, n: nat, i: nat,
                    x1: int, x2: int, p1: seq<seq<int>>, p2: seq<seq<int>>)
    requires DirectPair(s1, target)
    requires DirectPair(s2, target)
    requires sourceDepth >= 1
    requires i < n
    requires x1 == o1 + Times(i, s1.Length())
    requires x2 == o2 + Times(i, s2.Length())
    requires p1 == Pixels(s1, target, sourceDepth, targetDepth, kind, d1, o1, n)
    requires p2 == Pixels(s2, target, sourceDepth, targetDepth, kind, d2, o2, n)
    requires PixelOut(s1, target, sourceDepth, targetDepth, kind, d1, x1)
             == PixelOut(s2, target, sourceDepth, targetDepth, kind, d2, x2)
    ensures i < |p1| && i < |p2| && p1[i] == p2[i]
  {
    PixelAtOffset(s1, target, sourceDepth, targetDepth, kind, d1, o1, n, i, x1, p1);
    PixelAtOffset(s2, target, sourceDepth, targetDepth, kind, d2, o2, n, i, x2, p2);
    SameBlock(p1, p2, i, PixelOut(s1, target, sourceDepth, targetDepth, kind, d1, x1),
              PixelOut(s2, target, sourceDepth, targetDepth, kind, d2, x2));
  }

  lemma PixelsUniform(source: ChannelsMap, target: ChannelsMap, sourceDepth: nat, targetDepth: nat,
                      kind: ElementKind, data: seq<int>, off: int, n: nat)
    requires DirectPair(source, target) && sourceDepth >= 1
    ensures Uniform(Pixels(source, target, sourceDepth, targetDepth, kind, data, off, n), target.Length())
  {
    forall i | 0 <= i < n
      ensures |Pixels(source, target, sourceDepth, targetDepth, kind, data, off, n)[i]| == target.Length()
    {
      PixelsAt(source, target, sourceDepth, targetDepth, kind, data, off, n, i);
    }
  }

  /** The first k pixels of a conversion, laid end to end, are its first k pixels converted. */
  lemma {:induction false} ConvertedJoined(source: ChannelsMap, target: ChannelsMap, sourceDepth: nat, targetDepth: nat,
                                           kind: ElementKind, data: seq<int>, off: int, n: nat, k: nat)
    requires DirectPair(source, target) && sourceDepth >= 1 && k <= n
    ensures Converted(source, target, sourceDepth, targetDepth, kind, data, off, k)
            == Joined(Pixels(source, target, sourceDepth, targetDepth, kind, data, off, n), k)
    decreases k
  {
    if k > 0 {
      var p := Pixels(source, target, sourceDepth, targetDepth, kind, data, off, n);
      ConvertedJoined(source, target, sourceDepth, targetDepth, kind, data, off, n, k - 1);
      PixelsAt(source, target, sourceDepth, targetDepth, kind, data, off, n, k - 1);
      AppendBoth(Converted(source, target, sourceDepth, targetDepth, kind, data, off, k - 1),
                 PixelOut(source, target, sourceDepth, targetDepth, kind, data, off + Times(k - 1, source.Length())),
                 Joined(p, k - 1), p[k - 1]);
    }
  }

  /** Two conversions with the same pixels are equal. */
  lemma ConvertedEqual(s1: ChannelsMap, s2: ChannelsMap, target: ChannelsMap, sourceDepth: nat, targetDepth: nat,
                       kind: ElementKind, d1: seq<int>, o1: int, d2: seq<int>, o2: int, n: nat)
    requires DirectPair(s1, target) && DirectPair(s2, target) && sourceDepth >= 1
    requires Pixels(s1, target, sourceDepth, targetDepth, kind, d1, o1, n)
             == Pixels(s2, target, sourceDepth, targetDepth, kind, d2, o2, n)
    ensures Converted(s1, target, sourceDepth, targetDepth, kind, d1, o1, n)
            == Converted(s2, target, sourceDepth, targetDepth, kind, d2, o2, n)
  {
    ConvertedJoined(s1, target, sourceDepth, targetDepth, kind, d1, o1, n, n);
    ConvertedJoined(s2, target, sourceDepth, targetDepth, kind, d2, o2, n, n);
  }

  /** Pixel i of a conversion is written at i times the target pixel size. */
  lemma ConvertedAt(source: ChannelsMap, target: ChannelsMap, sourceDepth: nat, targetDepth: nat,
                    kind: ElementKind, data: seq<int>, off: int, n: nat, i: nat)
    requires DirectPair(source, target) && sourceDepth >= 1 && i < n
    ensures Times(i, target.Length()) + target.Length() <= Times(n, target.Length())
    ensures var at := Times(i, target.Length());
      Converted(source, target, sourceDepth, targetDepth, kind, data, off, n)[at..at + target.Length()]
      == PixelOut(source, target, sourceDepth, targetDepth, kind, data, off + Times(i, source.Length()))
  {
    var p := Pixels(source, target, sourceDepth, targetDepth, kind, data, off, n);
    ConvertedJoined(source, target, sourceDepth, targetDepth, kind, data, off, n, n);
    PixelsUniform(source, target, sourceDepth, targetDepth, kind, data, off, n);
    JoinedAt(p, target.Length(), n, i);
    PixelsAt(source, target, sourceDepth, targetDepth, kind, data, off, n, i);
  }

  // ---------------------------------------------------------------------
  // What a conversion reads

  /** The reads of a window inside a longer run of reads. */
  lemma {:induction false} SamplesWindow(data: seq<int>, off: int, k: nat, j: nat, len: nat)
    requires j + len <= k
    ensures Samples(data, off + j, len) == Samples(data, off, k)[j..j + len]
  {
    var w, all := Samples(data, off + j, len), Samples(data, off, k);
    forall i | 0 <= i < len
      ensures w[i] == all[j..j + len][i]
    {
      assert all[j + i] == Sample(data, off + (j + i));
    }
  }

  /** A pixel depends only on the samples it reads. */
  lemma {:induction false} PixelOutOfSamples(source: ChannelsMap, target: ChannelsMap, sourceDepth: nat, targetDepth: nat,
                          kind: ElementKind, d1: seq<int>, o1: int, d2: seq<int>, o2: int)
    requires DirectPair(source, target) && sourceDepth >= 1
    requires Samples(d1, o1, source.Length()) == Samples(d2, o2, source.Length())
    ensures PixelOut(source, target, sourceDepth, targetDepth, kind, d1, o1)
            == PixelOut(source, target, sourceDepth, targetDepth, kind, d2, o2)
  {
    PixelOutIsTable(source, target, sourceDepth, targetDepth, kind, d1, o1);
    PixelOutIsTable(source, target, sourceDepth, targetDepth, kind, d2, o2);
  }

  /** A conversion reads nothing outside the samples of its pixels: two
      arrays that read alike there convert alike. */
  lemma {:induction false} ConvertedLocal(source: ChannelsMap, target: ChannelsMap, sourceDepth: nat, targetDepth: nat,
                       kind: ElementKind, d1: seq<int>, o1: int, d2: seq<int>, o2: int, n: nat)
    requires DirectPair(source, target) && sourceDepth >= 1
    requires Samples(d1, o1, Times(n, source.Length())) == Samples(d2, o2, Times(n, source.Length()))
    ensures Converted(source, target, sourceDepth, targetDepth, kind, d1, o1, n)
            == Converted(source, target, sourceDepth, targetDepth, kind, d2, o2, n)
  {
    var p1 := Pixels(source, target, sourceDepth, targetDepth, kind, d1, o1, n);
    var p2 := Pixels(source, target, sourceDepth, targetDepth, kind, d2, o2, n);
    forall i | 0 <= i < n
      ensures p1[i] == p2[i]
    {
      var k, j := Times(n, source.Length()), Times(i, source.Length());
      LocalPixelOut(source, target, sourceDepth, targetDepth, kind, d1, o1, d2, o2, n, i, k, j);
      SamePixelAt(source, source, target, sourceDepth, targetDepth, kind, d1, o1, d2, o2, n, i, o1 + j, o2 + j, p1, p2);
    }
    assert p1 == p2;
    ConvertedEqual(source, source, target, sourceDepth, targetDepth, kind, d1, o1, d2, o2, n);
  }

  /** The pixel read at j from windows of k samples that agree. */
  lemma LocalPixelOut(source: ChannelsMap, target: ChannelsMap, sourceDepth: nat, targetDepth: nat,
                      kind: ElementKind, d1: seq<int>, o1: int, d2: seq<int>, o2: int, n: nat, i: nat, k: nat, j: nat)
    requires DirectPair(source, target) && sourceDepth >= 1 && i < n
    requires k == Times(n, source.Length()) && j == Times(i, source.Length())
    requires Samples(d1, o1, k) == Samples(d2, o2, k)
    ensures PixelOut(source, target, sourceDepth, targetDepth, kind, d1, o1 + j)
            == PixelOut(source, target, sourceDepth, targetDepth, kind, d2, o2 + j)
  {
    var len := source.Length();
    TimesMono(n, i + 1, len);
    SamplesWindow(d1, o1, k, j, len);
    SamplesWindow(d2, o2, k, j, len);
    PixelOutOfSamples(source, target, sourceDepth, targetDepth, kind, d1, o1 + j, d2, o2 + j);
  }

  // ---------------------------------------------------------------------
  // The same layout at the same depth

  /** Converting a sample of the target depth to that depth stores it unchanged. */
  lemma {:induction false} CopiedSame(depth: nat, data: seq<int>, j: int)
    requires IsBitDepth(depth) && 0 <= j < |data| && 0 <= data[j] <= GetOpaque(depth)
    ensures Copied(TargetKind(depth), depth, depth, data, j) == data[j]
  {
    ScaleSameDepth(depth, Some(data[j]));
    TargetHoldsDepth(depth, data[j]);
  }

  /** Every element a conversion stores is a sample of the target depth. */
  lemma {:induction false} CopiedInDepth(sourceDepth: nat, targetDepth: nat, data: seq<int>, i: int)
    requires sourceDepth >= 1 && IsBitDepth(targetDepth)
    ensures var v := Copied(TargetKind(targetDepth), sourceDepth, targetDepth, data, i);
      0 <= v <= GetOpaque(targetDepth)
  {
    var c := Scale(sourceDepth, targetDepth, Sample(data, i));
    if c.Some? {
      TargetHoldsDepth(targetDepth, c.value);
    }
  }

  /** A mapper to the same layout scales every sample in order. */
  lemma {:induction false} PixelOutSameLayoutCopies(m: ChannelsMap, sourceDepth: nat, targetDepth: nat, kind: ElementKind, data: seq<int>, off: int)
    requires sourceDepth >= 1
    ensures var r := PixelOut(m, m, sourceDepth, targetDepth, kind, data, off);
      forall i :: 0 <= i < m.Length() ==> r[i] == Copied(kind, sourceDepth, targetDepth, data, off + i)
  {
    PixelOutCopies(m, m, sourceDepth, targetDepth, kind, data, off);
    LayoutOfChannels(m);
  }

  /** Samples of the target depth are each stored unchanged. */
  lemma {:induction false} CopiedSameRange(depth: nat, data: seq<int>, off: int, len: nat)
    requires IsBitDepth(depth) && 0 <= off && off + len <= |data|
    requires forall i :: off <= i < off + len ==> 0 <= data[i] <= GetOpaque(depth)
    ensures forall j :: off <= j < off + len ==> Copied(TargetKind(depth), depth, depth, data, j) == data[j]
  {
    forall j | off <= j < off + len
      ensures Copied(TargetKind(depth), depth, depth, data, j) == data[j]
    {
      CopiedSame(depth, data, j);
    }
  }

  /** A mapper to the same layout at the same depth stores a pixel's samples
      unchanged when each of them is stored unchanged. */
  lemma {:induction false} PixelOutSameLayout(m: ChannelsMap, depth: nat, kind: ElementKind, data: seq<int>, off: int)
    requires depth >= 1 && 0 <= off && off + m.Length() <= |data|
    requires forall j :: off <= j < off + m.Length() ==> Copied(kind, depth, depth, data, j) == data[j]
    ensures PixelOut(m, m, depth, depth, kind, data, off) == data[off..off + m.Length()]
  {
    var r := PixelOut(m, m, depth, depth, kind, data, off);
    PixelOutSameLayoutCopies(m, depth, depth, kind, data, off);
    assert forall i :: 0 <= i < m.Length() ==> r[i] == data[off..off + m.Length()][i];
  }

  /** Converting to the same layout at the same depth copies the samples. */
  lemma {:induction false} SameLayoutCopies(m: ChannelsMap, depth: nat, data: seq<int>, off: nat, n: nat)
    requires IsBitDepth(depth) && off + Times(n, m.Length()) <= |data|
    requires forall i :: off <= i < off + Times(n, m.Length()) ==> 0 <= data[i] <= GetOpaque(depth)
    ensures Converted(m, m, depth, depth, TargetKind(depth), data, off, n) == data[off..off + Times(n, m.Length())]
  {
    var len, kind := m.Length(), TargetKind(depth);
    CopiedSameRange(depth, data, off, Times(n, len));
    SameLayoutBlocks(m, depth, kind, data, off, n);
  }

  /** SameLayoutCopies, from the copies of the single samples. */
  lemma SameLayoutBlocks(m: ChannelsMap, depth: nat, kind: ElementKind, data: seq<int>, off: nat, n: nat)
    requires depth >= 1 && off + Times(n, m.Length()) <= |data|
    requires forall j :: off <= j < off + Times(n, m.Length()) ==> Copied(kind, depth, depth, data, j) == data[j]
    ensures Converted(m, m, depth, depth, kind, data, off, n) == data[off..off + Times(n, m.Length())]
  {
    var p := Pixels(m, m, depth, depth, kind, data, off, n);
    forall i | 0 <= i < n
      ensures IsSliceAt(p[i], data, off + Times(i, m.Length()), m.Length())
    {
      SameLayoutPixelAt(m, depth, kind, data, off, n, i, off + Times(i, m.Length()), p);
    }
    JoinedOfSlices(p, m.Length(), data, off, n);
    ConvertedJoined(m, m, depth, depth, kind, data, off, n, n);
  }

  /** Pixel i of SameLayoutBlocks. */
  lemma SameLayoutPixelAt(m: ChannelsMap, depth: nat, kind: ElementKind, data: seq<int>, off: nat, n: nat, i: nat, x: nat,
                          p: seq<seq<int>>)
    requires depth >= 1 && off + Times(n, m.Length()) <= |data| && i < n && x == off + Times(i, m.Length())
    requires forall j :: off <= j < off + Times(n, m.Length()) ==> Copied(kind, depth, depth, data, j) == data[j]
    requires p == Pixels(m, m, depth, depth, kind, data, off, n)
    ensures i < |p| && IsSliceAt(p[i], data, x, m.Length())
  {
    TimesMono(n, i + 1, m.Length());
    PixelOutSameLayout(m, depth, kind, data, x);
    PixelAtOffset(m, m, depth, depth, kind, data, off, n, i, x, p);
    SliceBlock(p, i, PixelOut(m, m, depth, depth, kind, data, x), data, x, m.Length());
  }


  // ---------------------------------------------------------------------
  // Adding alpha and dropping it again

  /** The layout with an alpha sample added. */
  function WithAlpha(m: ChannelsMap): (r: ChannelsMap)
    requires !m.HasAlpha()
    ensures r.HasAlpha() && DirectPair(m, r) && DirectPair(r, m) && r.Length() == m.Length() + 1
  {
    if m == Y then YA else RGBA
  }

  /** One pixel of the round trip: reading back a pixel that added alpha and
      dropping the alpha gives the pixel converted without alpha. */
  lemma {:induction false} PixelAlphaRoundTrip(m: ChannelsMap, depth: nat, data: seq<int>, off: int, back: seq<int>, at: nat)
    requires !m.HasAlpha() && IsBitDepth(depth) && at + WithAlpha(m).Length() <= |back|
    requires back[at..at + WithAlpha(m).Length()] == PixelOut(m, WithAlpha(m), depth, depth, TargetKind(depth), data, off)
    ensures PixelOut(WithAlpha(m), m, depth, depth, TargetKind(depth), back, at)
            == PixelOut(m, m, depth, depth, TargetKind(depth), data, off)
  {
    var kind, a := TargetKind(depth), WithAlpha(m);
    var written := PixelOut(m, a, depth, depth, kind, data, off);
    var r1 := PixelOut(a, m, depth, depth, kind, back, at);
    var r2 := PixelOut(m, m, depth, depth, kind, data, off);
    forall i | 0 <= i < m.Length()
      ensures r1[i] == r2[i]
    {
      assert back[at + i] == written[i];
      ChannelAlphaRoundTrip(m, depth, data, off, back, at, i);
    }
  }

  /** One sample of the round trip: a colour sample written with alpha added
      and read back without it is the sample converted directly. */
  lemma ChannelAlphaRoundTrip(m: ChannelsMap, depth: nat, data: seq<int>, off: int, back: seq<int>, at: nat, i: nat)
    requires !m.HasAlpha() && IsBitDepth(depth) && i < m.Length() && at + i < |back|
    requires back[at + i] == ChannelOut(m, WithAlpha(m), depth, depth, TargetKind(depth), data, off, i)
    ensures ChannelOut(WithAlpha(m), m, depth, depth, TargetKind(depth), back, at, i)
            == ChannelOut(m, m, depth, depth, TargetKind(depth), data, off, i)
  {
    LayoutOfChannels(m);
    LayoutOfChannels(WithAlpha(m));
    CopiedInDepth(depth, depth, data, off + i);
    CopiedSame(depth, back, at + i);
  }

  /** Pixel i of the round trip: where the conversion that added alpha wrote
      pixel i, at offset at of back, reading it back without alpha gives pixel
      i converted directly, read from offset x of data. */
  lemma AlphaPixelAt(m: ChannelsMap, depth: nat, data: seq<int>, off: int, n: nat, i: nat, back: seq<int>, at: nat, x: int)
    requires !m.HasAlpha() && IsBitDepth(depth) && i < n
    requires at == Times(i, WithAlpha(m).Length()) && x == off + Times(i, m.Length())
    requires at + WithAlpha(m).Length() <= |back|
    requires back[at..at + WithAlpha(m).Length()] == PixelOut(m, WithAlpha(m), depth, depth, TargetKind(depth), data, x)
    ensures var kind, a := TargetKind(depth), WithAlpha(m);
      Pixels(a, m, depth, depth, kind, back, 0, n)[i] == Pixels(m, m, depth, depth, kind, data, off, n)[i]
  {
    var kind, a := TargetKind(depth), WithAlpha(m);
    PixelAlphaRoundTrip(m, depth, data, x, back, at);
    PixelAtOffset(a, m, depth, depth, kind, back, 0, n, i, at, Pixels(a, m, depth, depth, kind, back, 0, n));
    PixelAtOffset(m, m, depth, depth, kind, data, off, n, i, x, Pixels(m, m, depth, depth, kind, data, off, n));
    SameBlock(Pixels(a, m, depth, depth, kind, back, 0, n), Pixels(m, m, depth, depth, kind, data, off, n), i,
              PixelOut(a, m, depth, depth, kind, back, at), PixelOut(m, m, depth, depth, kind, data, x));
  }

  /** Pixel i of the conversion to the layout with alpha, where it lies in the
      output (at) and where its samples are read (x). */
  lemma AlphaPixelWritten(m: ChannelsMap, depth: nat, data: seq<int>, off: int, n: nat, i: nat, back: seq<int>,
                          at: nat, x: int)
    requires !m.HasAlpha() && IsBitDepth(depth) && i < n
    requires back == Converted(m, WithAlpha(m), depth, depth, TargetKind(depth), data, off, n)
    requires at == Times(i, WithAlpha(m).Length()) && x == off + Times(i, m.Length())
    ensures at + WithAlpha(m).Length() <= |back|
    ensures back[at..at + WithAlpha(m).Length()] == PixelOut(m, WithAlpha(m), depth, depth, TargetKind(depth), data, x)
  {
    ConvertedAt(m, WithAlpha(m), depth, depth, TargetKind(depth), data, off, n, i);
  }

  /** Converting to the layout with alpha and back again, at one depth, is
      converting directly: the added alpha is dropped and the colour samples
      come back unchanged. */
  lemma {:induction false} AlphaRoundTrip(m: ChannelsMap, depth: nat, data: seq<int>, off: int, n: nat)
    requires !m.HasAlpha() && IsBitDepth(depth)
    ensures var kind := TargetKind(depth);
      Converted(WithAlpha(m), m, depth, depth, kind, Converted(m, WithAlpha(m), depth, depth, kind, data, off, n), 0, n)
      == Converted(m, m, depth, depth, kind, data, off, n)
  {
    var kind, a := TargetKind(depth), WithAlpha(m);
    var back := Converted(m, a, depth, depth, kind, data, off, n);
    var p1, p2 := Pixels(a, m, depth, depth, kind, back, 0, n), Pixels(m, m, depth, depth, kind, data, off, n);
    forall i | 0 <= i < n
      ensures p1[i] == p2[i]
    {
      var at, x := Times(i, a.Length()), off + Times(i, m.Length());
      AlphaPixelWritten(m, depth, data, off, n, i, back, at, x);
      AlphaPixelAt(m, depth, data, off, n, i, back, at, x);
    }
    assert p1 == p2;
    ConvertedEqual(a, m, m, depth, depth, kind, back, 0, data, off, n);
  }
}
