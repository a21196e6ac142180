/** Palettes (src/models/palette.ts): the PLTE palette with the tRNS
    alphas, the suggested palettes of sPLT chunks, and the accessors. */
module Palettes {
  import opened Bytes
  import opened Wrappers
  import opened Errors
  import opened DataViews
  import opened Utils
  import opened Colors
  import opened Chunks
  import opened TypedArrayStreams
  import ChunkConstants

  /** A palette: its name and four slots (r, g, b, a) per colour, held in a
      Uint8Array or a Uint16Array. */
  datatype Palette = Palette(name: string, data: seq<int>, kind: ElementKind)
  {
    /** `getName()`. */
    function GetName(): string
    {
      name
    }

    /** `getColorsCount()`: the length of the slot array, four per colour. */
    function GetColorsCount(): nat
    {
      |data|
    }

    /** `getSampleDepth()`: eight bits per byte of the element type. */
    function GetSampleDepth(): (r: nat)
      ensures r == 8 || r == 16
      ensures r == 16 <==> kind.Uint16?
    {
      (if kind.Uint16? then 2 else 1) * 8
    }

    /** Slot `k`, undefined outside the array. */
    function Slot(k: int): Option<int>
    {
      if 0 <= k < |data| then Some(data[k]) else None
    }

    /** `getColor(index)`: slots 4·index to 4·index+3 as r, g, b and a. */
    function GetColor(index: int): (r: Color)
      ensures 0 <= index && 4 * index + 4 <= |data| ==>
        r == Color(Some(data[4 * index]), Some(data[4 * index + 1]), Some(data[4 * index + 2]), Some(data[4 * index + 3]))
      ensures index < 0 || 4 * index >= |data| ==> r == Color(None, None, None, None)
    {
      var base := index * 4;
      Color(Slot(base + 0), Slot(base + 1), Slot(base + 2), Slot(base + 3))
    }
  }

  function Min(a: int, b: int): int
  {
    if a <= b then a else b
  }

  /** The payload of an optional chunk. */
  function DataOf(c: Option<Chunk>): Option<seq<byte>>
  {
    if c.Some? then Some(c.value.data) else None
  }

  // ---------------------------------------------------------------------
  // fromPLTE

  /** The colours fromPLTE builds: at most 2^bitDepth, and no more than the
      whole RGB triples of the PLTE payload. */
  function PlteColorCount(bitDepth: nat, plteLength: nat): nat
  {
    Min(Pow2(bitDepth), plteLength / 3)
  }

  /** The colours whose alpha a tRNS payload replaces. */
  function AlphaCount(colors: nat, trns: Option<seq<byte>>): nat
  {
    if trns.None? then 0 else Min(colors, |trns.value|)
  }

  /** Slot `k` after the first loop: byte 3·i + c of PLTE for colour i and
      channel c < 3, and Opaque255 for the alpha channel. */
  function PlteSlot(plte: seq<byte>, k: nat): int
    requires 3 * (k / 4) + 2 < |plte|
  {
    if k % 4 == 3 then ChunkConstants.Opaque255 else plte[3 * (k / 4) + k % 4]
  }

  /** Slot `k` after the tRNS loop has run over the first `alphas` colours. */
  function AlphaSlot(plte: seq<byte>, trns: seq<byte>, alphas: nat, k: nat): int
    requires 3 * (k / 4) + 2 < |plte| && alphas <= |trns|
  {
    if k % 4 == 3 && k / 4 < alphas then trns[k / 4] else PlteSlot(plte, k)
  }

  /** The palette fromPLTE returns. */
  function PltePalette(bitDepth: nat, plte: seq<byte>, trns: Option<seq<byte>>): Palette
  {
    var colors := PlteColorCount(bitDepth, |plte|);
    var alphas := AlphaCount(colors, trns);
    Palette("Default PLTE Palette",
            seq(4 * colors, k requires 0 <= k < 4 * colors => AlphaSlot(plte, trns.GetOr([]), alphas, k)),
            Uint8)
  }

  /** fromPLTE called with an undefined bit depth: `2 ** undefined` and the
      colour count are NaN, so the slot array is empty and neither loop
      runs, whatever the PLTE and tRNS payloads hold. */
  function PltePaletteOfUndefinedDepth(): (r: Palette)
    ensures r.GetColorsCount() == 0 && r.GetSampleDepth() == 8
    ensures forall bitDepth: nat, plte: seq<byte>, trns: Option<seq<byte>> {:trigger PltePalette(bitDepth, plte, trns)} ::
      r.name == PltePalette(bitDepth, plte, trns).name && r.kind == PltePalette(bitDepth, plte, trns).kind
  {
    Palette("Default PLTE Palette", [], Uint8)
  }

  /** fromPLTE builds min(2^bitDepth, floor(|PLTE|/3)) eight-bit colours;
      colour i is PLTE bytes 3i, 3i+1 and 3i+2, with alpha tRNS byte i when
      the tRNS payload reaches that far and 255 otherwise. */
  lemma PlteColors(bitDepth: nat, plte: seq<byte>, trns: Option<seq<byte>>, i: nat)
    requires i < PlteColorCount(bitDepth, |plte|)
    ensures var p := PltePalette(bitDepth, plte, trns);
      p.GetColorsCount() == 4 * PlteColorCount(bitDepth, |plte|) && p.GetSampleDepth() == 8
      && p.GetColor(i) == Color(Some(plte[3 * i]), Some(plte[3 * i + 1]), Some(plte[3 * i + 2]),
                                Some(if trns.Some? && i < |trns.value| then trns.value[i] else 255))
  {
    PlteChannel(bitDepth, plte, trns, i, 0);
    PlteChannel(bitDepth, plte, trns, i, 1);
    PlteChannel(bitDepth, plte, trns, i, 2);
    PlteChannel(bitDepth, plte, trns, i, 3);
  }

  /** Channel c of fromPLTE's colour i. */
  lemma PlteChannel(bitDepth: nat, plte: seq<byte>, trns: Option<seq<byte>>, i: nat, c: nat)
    requires i < PlteColorCount(bitDepth, |plte|) && c < 4
    ensures var p := PltePalette(bitDepth, plte, trns);
      4 * i + c < |p.data|
      && p.data[4 * i + c] == if c < 3 then plte[3 * i + c] as int
                              else if trns.Some? && i < |trns.value| then trns.value[i] as int else 255
  {
    QuarterOf(i, c);
  }

  /** `Palette.fromPLTE(bitDepth, PLTE, tRNS)`. */
  method FromPLTE(bitDepth: nat, plte: Chunk, trns: Option<Chunk>) returns (p: Palette)
    ensures p == PltePalette(bitDepth, plte.data, DataOf(trns))
  {
    var plteChunkData := plte.data;
    var maxColors := Pow2(bitDepth);
    var colors := Min(maxColors, |plteChunkData| / 3);
    var palette := new int[colors * 4](_ => 0);
    for index := 0 to colors
      invariant forall k :: 0 <= k < 4 * index ==> palette[k] == PlteSlot(plteChunkData, k)
    {
      StoreColor(palette, plteChunkData, index);
    }
    var alphaChunkData: seq<byte> := [];
    var alphaColors := 0;
    if trns.Some? {
      alphaChunkData := trns.value.data;
      alphaColors := Min(colors, |alphaChunkData|);
      for index := 0 to alphaColors
        invariant forall k :: 0 <= k < 4 * colors ==> palette[k] == AlphaSlot(plteChunkData, alphaChunkData, index, k)
      {
        palette[index * 4 + 3] := alphaChunkData[index];
      }
    }
    assert alphaColors == AlphaCount(colors, DataOf(trns)) && alphaChunkData == DataOf(trns).GetOr([]);
    p := Palette("Default PLTE Palette", palette[..], Uint8);
  }

  /** The first loop's body for colour `index`. */
  method StoreColor(palette: array<int>, plte: seq<byte>, index: nat)
    requires 4 * index + 4 <= palette.Length && 3 * index + 3 <= |plte|
    requires forall k :: 0 <= k < 4 * index ==> palette[k] == PlteSlot(plte, k)
    modifies palette
    ensures forall k :: 0 <= k < 4 * index + 4 ==> palette[k] == PlteSlot(plte, k)
  {
    palette[index * 4] := plte[index * 3];
    palette[index * 4 + 1] := plte[index * 3 + 1];
    palette[index * 4 + 2] := plte[index * 3 + 2];
    palette[index * 4 + 3] := ChunkConstants.Opaque255;
    forall k | 4 * index <= k < 4 * index + 4
      ensures palette[k] == PlteSlot(plte, k)
    {
      assert k / 4 == index;
    }
  }

  // ---------------------------------------------------------------------
  // fromSPLT

  /** The first `c` samples of the entry starting at `base`, `sampleBytes`
      apart, each read with `getUint(.., depth)`; the first read outside the
      payload throws. */
  function EntryReads(data: seq<byte>, base: nat, sampleBytes: nat, depth: int, c: nat): (r: Result<seq<int>, Error>)
    ensures r.Success? ==> |r.value| == c
    ensures r.Failure? ==> r.error == if depth in {8, 16, 32} then RangeError else UnsupportedBits(depth)
  {
    if c == 0 then Success([])
    else
      var before :- EntryReads(data, base, sampleBytes, depth, c - 1);
      var v :- GetUint(data, base + (c - 1) * sampleBytes, depth);
      Success(before + [v])
  }

  /** A failed read ends the entry: later samples keep the error. */
  lemma {:induction false} EntryReadsFailureSticks(data: seq<byte>, base: nat, sampleBytes: nat, depth: int, k: nat, m: nat)
    requires k <= m && EntryReads(data, base, sampleBytes, depth, k).Failure?
    ensures EntryReads(data, base, sampleBytes, depth, m) == EntryReads(data, base, sampleBytes, depth, k)
    decreases m
  {
    if k < m {
      EntryReadsFailureSticks(data, base, sampleBytes, depth, k, m - 1);
    }
  }

  /** The four samples of one sPLT entry. */
  function EntrySamples(data: seq<byte>, base: nat, sampleBytes: nat, depth: int): (r: Result<seq<int>, Error>)
    ensures r.Success? ==> |r.value| == 4
  {
    EntryReads(data, base, sampleBytes, depth, 4)
  }

  /** The samples the fromSPLT loop reads for its first `count` entries, in
      order; entry i starts at `prefix + i*stride`. */
  function SpltReads(data: seq<byte>, prefix: nat, sampleBytes: nat, depth: int, stride: nat, count: nat): (r: Result<seq<int>, Error>)
    ensures r.Success? ==> |r.value| == 4 * count
    ensures r.Failure? ==> r.error == if depth in {8, 16, 32} then RangeError else UnsupportedBits(depth)
    decreases count
  {
    if count == 0 then Success([])
    else
      var before :- SpltReads(data, prefix, sampleBytes, depth, stride, count - 1);
      var entry :- EntrySamples(data, prefix + Times(count - 1, stride), sampleBytes, depth);
      Success(before + entry)
  }

  /** The number of entries the fromSPLT loop visits: the indices i with
      i·stride < n, that is ceil(n / stride). */
  function EntryCount(n: nat, stride: nat): nat
    requires stride > 0
  {
    (n + stride - 1) / stride
  }

  /** The length of the typed array fromSPLT allocates, `colors * 4` with
      `colors = n / stride` a fraction, truncated by the constructor. */
  function SlotCount(n: nat, stride: nat): nat
    requires stride > 0
  {
    4 * n / stride
  }

  /** The typed array of length `n` after the stores of `samples`, one per
      slot from slot 0 on; stores past the end are dropped. */
  function Fill(n: nat, samples: seq<int>): (r: seq<int>)
    ensures |r| == n
  {
    seq(n, k requires 0 <= k < n => if k < |samples| then samples[k] else 0)
  }

  /** `Palette.fromSPLT(sPLT)`: the NUL-terminated name, then the sample
      depth byte, which must be 8 or 16. */
  function SpltPalette(data: seq<byte>): (r: Result<Palette, Error>)
    ensures TextAt(data, 0).Failure? ==> r == Failure(RangeError)
    ensures TextAt(data, 0).Success? && |data| == |TextAt(data, 0).value| + 1 ==> r == Failure(RangeError)
    ensures TextAt(data, 0).Success? && |data| > |TextAt(data, 0).value| + 1 ==>
      (data[|TextAt(data, 0).value| + 1] !in {8, 16} ==> r == Failure(AssertionError))
    ensures r.Success? ==> r.value.name == TextAt(data, 0).value && |r.value.name| + 1 < |data|
                           && r.value.GetSampleDepth() == data[|r.value.name| + 1]
    ensures r.Failure? ==> r.error == RangeError || r.error == AssertionError
  {
    TextAtMeaning(data, 0);
    var name :- TextAt(data, 0);
    var sampleDepth :- GetUint8(data, |name| + 1);
    :- Assert([Bool(sampleDepth in [8, 16])]);
    SpltEntries(data, name, sampleDepth)
  }

  /** The rest of fromSPLT: the prefix is the name, its NUL and the depth
      byte. The code takes `depth / 2` bytes per sample and
      `2 + 4 * (depth / 2)` bytes per entry; the loop runs while
      `index < (|data| - prefix) / stride` (a fraction), and the typed array
      has the truncated length `4 * (|data| - prefix) / stride`, so stores
      beyond it are dropped. */
  function SpltEntries(data: seq<byte>, name: string, sampleDepth: byte): (r: Result<Palette, Error>)
    requires |name| + 2 <= |data|
    ensures r.Success? ==> r.value.name == name
    ensures r.Success? ==> (r.value.kind == if sampleDepth == 8 then Uint8 else Uint16)
    ensures r.Failure? && sampleDepth in {8, 16} ==> r.error == RangeError
  {
    var prefixLength := |name| + 1 + 1;
    var sampleBytes := sampleDepth / 2;
    var indexLength := 2 + 4 * sampleBytes;
    var n := |data| - prefixLength;
    var samples :- SpltReads(data, prefixLength, sampleBytes, sampleDepth, indexLength, EntryCount(n, indexLength));
    Success(Palette(name, Fill(SlotCount(n, indexLength), samples), if sampleDepth == 8 then Uint8 else Uint16))
  }

  lemma FillSnoc(n: nat, samples: seq<int>, v: int)
    ensures Fill(n, samples + [v]) == if |samples| < n then Fill(n, samples)[|samples| := v] else Fill(n, samples)
  {
  }

  /** i·s < n exactly for the indices below ceil(n / s). */
  lemma CeilIndex(n: nat, s: nat, i: nat)
    requires s > 0
    ensures i * s < n <==> i < EntryCount(n, s)
  {
    var q, r := (n + s - 1) / s, (n + s - 1) % s;
    assert n + s - 1 == q * s + r;
    if i < q {
      MulMono(q - 1, i, s);
    } else {
      MulMono(i, q, s);
    }
  }

  /** Once a read has failed, further entries do not change the outcome. */
  lemma {:induction false} SpltReadsFailureSticks(data: seq<byte>, prefix: nat, sampleBytes: nat, depth: int, stride: nat, k: nat, m: nat)
    requires k <= m && SpltReads(data, prefix, sampleBytes, depth, stride, k).Failure?
    ensures SpltReads(data, prefix, sampleBytes, depth, stride, m) == SpltReads(data, prefix, sampleBytes, depth, stride, k)
    decreases m
  {
    if k < m {
      SpltReadsFailureSticks(data, prefix, sampleBytes, depth, stride, k, m - 1);
    }
  }

  /** `palette[i] = v` on a typed array: dropped outside the array. */
  method Put(palette: array<int>, i: int, v: int)
    modifies palette
    ensures palette[..] == if 0 <= i < palette.Length then old(palette[..])[i := v] else old(palette[..])
  {
    if 0 <= i < palette.Length {
      palette[i] := v;
    }
  }

  /** One read and one store of the loop body. */
  method ReadSample(palette: array<int>, data: seq<byte>, off: int, depth: int, slot: nat, ghost samples: seq<int>)
      returns (o: Outcome<Error>, ghost samples': seq<int>)
    requires palette[..] == Fill(palette.Length, samples) && slot == |samples|
    modifies palette
    ensures o.Pass? <==> GetUint(data, off, depth).Success?
    ensures o.Fail? ==> o.error == GetUint(data, off, depth).error
    ensures o.Pass? ==> samples' == samples + [GetUint(data, off, depth).value]
                        && palette[..] == Fill(palette.Length, samples')
  {
    var v := GetUint(data, off, depth);
    if v.Failure? {
      return Fail(v.error), samples;
    }
    FillSnoc(palette.Length, samples, v.value);
    Put(palette, slot, v.value);
    o, samples' := Pass, samples + [v.value];
  }

  /** One statement of the loop body, `palette[slot + c] = getUint(..,
      base + c * sampleBytes, ..)`, after the `c` before it. */
  method ReadComponent(palette: array<int>, data: seq<byte>, base: nat, sampleBytes: nat, depth: int, slot: nat, c: nat, ghost samples: seq<int>)
      returns (o: Outcome<Error>)
    requires EntryReads(data, base, sampleBytes, depth, c).Success?
    requires palette[..] == Fill(palette.Length, samples + EntryReads(data, base, sampleBytes, depth, c).value)
    requires slot == |samples| && c < 4
    modifies palette
    ensures var next := EntryReads(data, base, sampleBytes, depth, c + 1);
      (o.Pass? <==> next.Success?)
      && (o.Pass? ==> palette[..] == Fill(palette.Length, samples + next.value))
    ensures o.Fail? ==> EntrySamples(data, base, sampleBytes, depth) == Failure(o.error)
  {
    ghost var before := samples + EntryReads(data, base, sampleBytes, depth, c).value;
    ghost var after;
    o, after := ReadSample(palette, data, base + c * sampleBytes, depth, slot + c, before);
    if o.Pass? {
      assert after == samples + EntryReads(data, base, sampleBytes, depth, c + 1).value;
    } else {
      EntryReadsFailureSticks(data, base, sampleBytes, depth, c + 1, 4);
    }
  }

  /** The loop body for the entry at `base`: four reads, stored into
      slots `slot` to `slot + 3`. */
  method ReadEntry(palette: array<int>, data: seq<byte>, base: nat, sampleBytes: nat, depth: int, slot: nat, ghost samples: seq<int>)
      returns (o: Outcome<Error>)
    requires palette[..] == Fill(palette.Length, samples) && slot == |samples|
    modifies palette
    ensures var entry := EntrySamples(data, base, sampleBytes, depth);
      (o.Pass? <==> entry.Success?) && (o.Fail? ==> o.error == entry.error)
      && (o.Pass? ==> palette[..] == Fill(palette.Length, samples + entry.value))
  {
    assert samples + EntryReads(data, base, sampleBytes, depth, 0).value == samples;
    o := ReadComponent(palette, data, base, sampleBytes, depth, slot, 0, samples);
    if o.Fail? { return; }
    o := ReadComponent(palette, data, base, sampleBytes, depth, slot, 1, samples);
    if o.Fail? { return; }
    o := ReadComponent(palette, data, base, sampleBytes, depth, slot, 2, samples);
    if o.Fail? { return; }
    o := ReadComponent(palette, data, base, sampleBytes, depth, slot, 3, samples);
  }

  /** `Palette.fromSPLT(sPLT)`. */
  method FromSPLT(sPLT: Chunk) returns (r: Result<Palette, Error>)
    ensures r == SpltPalette(sPLT.data)
  {
    var spltChunkData := sPLT.data;
    var name :- ReadText(spltChunkData, 0);
    var sampleDepth :- GetUint8(spltChunkData, |name| + 1);
    :- Assert([Bool(sampleDepth in [8, 16])]);
    r := ReadSplt(spltChunkData, name, sampleDepth);
  }

  /** fromSPLT after the name and the sample depth. */
  method ReadSplt(spltChunkData: seq<byte>, name: string, sampleDepth: byte) returns (r: Result<Palette, Error>)
    requires |name| + 2 <= |spltChunkData|
    ensures r == SpltEntries(spltChunkData, name, sampleDepth)
  {
    var prefixLength := |name| + 1 + 1;
    var sampleBytes := sampleDepth / 2;
    var indexLength := 2 + 4 * sampleBytes;
    var n := |spltChunkData| - prefixLength;
    var palette := new int[SlotCount(n, indexLength)](_ => 0);
    var o := ReadEntries(palette, spltChunkData, prefixLength, sampleBytes, sampleDepth, indexLength, n);
    ghost var outcome := SpltReads(spltChunkData, prefixLength, sampleBytes, sampleDepth, indexLength, EntryCount(n, indexLength));
    assert SpltEntries(spltChunkData, name, sampleDepth) ==
      if outcome.Failure? then Failure(outcome.error)
      else Success(Palette(name, Fill(SlotCount(n, indexLength), outcome.value), if sampleDepth == 8 then Uint8 else Uint16));
    if o.Fail? {
      return Failure(o.error);
    }
    r := Success(Palette(name, palette[..], if sampleDepth == 8 then Uint8 else Uint16));
  }

  /** The fromSPLT loop: `for (index = 0; index < colors; index++)` with
      `colors = n / stride`, into the zeroed typed array. */
  method ReadEntries(palette: array<int>, data: seq<byte>, prefix: nat, sampleBytes: nat, depth: int, stride: nat, n: nat)
      returns (o: Outcome<Error>)
    requires stride > 0 && forall k :: 0 <= k < palette.Length ==> palette[k] == 0
    modifies palette
    ensures var outcome := SpltReads(data, prefix, sampleBytes, depth, stride, EntryCount(n, stride));
      (o.Pass? <==> outcome.Success?) && (o.Fail? ==> o.error == outcome.error)
      && (o.Pass? ==> palette[..] == Fill(palette.Length, outcome.value))
  {
    ghost var count := EntryCount(n, stride);
    assert palette[..] == Fill(palette.Length, []);
    var index := 0;
    while index * stride < n
      invariant 0 <= index <= count
      invariant SpltReads(data, prefix, sampleBytes, depth, stride, index).Success?
      invariant palette[..] == Fill(palette.Length, SpltReads(data, prefix, sampleBytes, depth, stride, index).value)
      decreases count - index
    {
      CeilIndex(n, stride, index);
      o := ReadNextEntry(palette, data, prefix, sampleBytes, depth, stride, index);
      if o.Fail? {
        SpltReadsFailureSticks(data, prefix, sampleBytes, depth, stride, index + 1, count);
        return;
      }
      index := index + 1;
    }
    CeilIndex(n, stride, index);
    o := Pass;
  }

  /** One turn of the loop: `base = prefixLength + index * indexLength`. */
  method ReadNextEntry(palette: array<int>, data: seq<byte>, prefix: nat, sampleBytes: nat, depth: int, stride: nat, index: nat)
      returns (o: Outcome<Error>)
    requires SpltReads(data, prefix, sampleBytes, depth, stride, index).Success?
    requires palette[..] == Fill(palette.Length, SpltReads(data, prefix, sampleBytes, depth, stride, index).value)
    modifies palette
    ensures var next := SpltReads(data, prefix, sampleBytes, depth, stride, index + 1);
      (o.Pass? <==> next.Success?) && (o.Fail? ==> o.error == next.error)
      && (o.Pass? ==> palette[..] == Fill(palette.Length, next.value))
  {
    var base := prefix + index * stride;
    TimesIsProduct(index, stride);
    o := ReadEntry(palette, data, base, sampleBytes, depth, index * 4,
                   SpltReads(data, prefix, sampleBytes, depth, stride, index).value);
  }

  // ---------------------------------------------------------------------
  // What fromSPLT reads

  /** The reads of an entry succeed exactly when its last sample fits, and
      sample j is the one at `base + j * sampleBytes`. */
  lemma {:induction false} EntryReadsSucceed(data: seq<byte>, base: nat, sampleBytes: nat, depth: int, c: nat)
    requires depth in {8, 16, 32}
    ensures EntryReads(data, base, sampleBytes, depth, c).Success? <==>
            c == 0 || base + (c - 1) * sampleBytes + depth / 8 <= |data|
    decreases c
  {
    if c > 1 {
      EntryReadsSucceed(data, base, sampleBytes, depth, c - 1);
      MulMono(c - 1, c - 2, sampleBytes);
    }
  }

  lemma {:induction false} EntryReadsAt(data: seq<byte>, base: nat, sampleBytes: nat, depth: int, c: nat, j: nat)
    requires EntryReads(data, base, sampleBytes, depth, c).Success? && j < c
    ensures GetUint(data, base + j * sampleBytes, depth).Success?
    ensures EntryReads(data, base, sampleBytes, depth, c).value[j] == GetUint(data, base + j * sampleBytes, depth).value
    decreases c
  {
    if j < c - 1 {
      EntryReadsAt(data, base, sampleBytes, depth, c - 1, j);
    }
  }

  /** The first `count` entries read successfully exactly when the fourth
      sample of the last of them fits: the reads move forward. */
  lemma {:induction false} SpltReadsSucceed(data: seq<byte>, prefix: nat, sampleBytes: nat, depth: int, stride: nat, count: nat)
    requires depth in {8, 16, 32}
    ensures SpltReads(data, prefix, sampleBytes, depth, stride, count).Success? <==>
            count == 0 || prefix + (count - 1) * stride + 3 * sampleBytes + depth / 8 <= |data|
    decreases count
  {
    if count > 0 {
      SpltReadsStep(data, prefix, sampleBytes, depth, stride, count);
      SpltReadsSucceed(data, prefix, sampleBytes, depth, stride, count - 1);
      if count > 1 {
        MulMono(count - 1, count - 2, stride);
      }
    }
  }

  /** One more entry reads successfully exactly when the earlier ones do
      and its fourth sample fits. */
  lemma SpltReadsStep(data: seq<byte>, prefix: nat, sampleBytes: nat, depth: int, stride: nat, count: nat)
    requires depth in {8, 16, 32} && count > 0
    ensures SpltReads(data, prefix, sampleBytes, depth, stride, count).Success? <==>
            SpltReads(data, prefix, sampleBytes, depth, stride, count - 1).Success?
            && prefix + (count - 1) * stride + 3 * sampleBytes + depth / 8 <= |data|
  {
    var base := prefix + Times(count - 1, stride);
    assert SpltReads(data, prefix, sampleBytes, depth, stride, count).Success? <==>
           SpltReads(data, prefix, sampleBytes, depth, stride, count - 1).Success?
           && EntrySamples(data, base, sampleBytes, depth).Success?;
    EntryReadsSucceed(data, base, sampleBytes, depth, 4);
    TimesIsProduct(count - 1, stride);
  }

  /** Sample c of entry i is the one at `prefix + i * stride + c * sampleBytes`. */
  lemma {:induction false} SpltReadsAt(data: seq<byte>, prefix: nat, sampleBytes: nat, depth: int, stride: nat, count: nat, i: nat, c: nat)
    requires SpltReads(data, prefix, sampleBytes, depth, stride, count).Success?
    requires i < count && c < 4
    ensures GetUint(data, prefix + i * stride + c * sampleBytes, depth).Success?
    ensures SpltReads(data, prefix, sampleBytes, depth, stride, count).value[4 * i + c]
            == GetUint(data, prefix + i * stride + c * sampleBytes, depth).value
    decreases count
  {
    var before := SpltReads(data, prefix, sampleBytes, depth, stride, count - 1).value;
    if i < count - 1 {
      SpltReadsAt(data, prefix, sampleBytes, depth, stride, count - 1, i, c);
    } else {
      var base := prefix + Times(count - 1, stride);
      TimesIsProduct(count - 1, stride);
      EntryReadsAt(data, base, sampleBytes, depth, 4, c);
    }
  }

  /** A slot of the truncated typed array belongs to an entry the loop visits. */
  lemma SlotInVisitedEntry(n: nat, stride: nat, i: nat, c: nat)
    requires stride > 0 && c < 4 && 4 * i + c < SlotCount(n, stride)
    ensures i < EntryCount(n, stride)
  {
    assert (4 * i + 1) * stride <= 4 * n by {
      MulMono(4 * n / stride, 4 * i + 1, stride);
    }
    assert i * stride < n;
    CeilIndex(n, stride, i);
  }

  /** Past the header, fromSPLT is SpltEntries of the name and the depth byte. */
  lemma {:induction false} SpltPaletteEntries(data: seq<byte>, name: string, depth: byte)
    requires TextAt(data, 0).Success? && name == TextAt(data, 0).value
    requires |name| + 1 < |data| && depth == data[|name| + 1] && depth in {8, 16}
    ensures SpltPalette(data) == SpltEntries(data, name, depth)
  {
    assert GetUint8(data, |name| + 1) == Success(depth);
    assert Assert([Bool(depth in [8, 16])]) == Pass;
  }

  /** The entries of an sPLT payload decode exactly when the fourth sample
      of the last entry the loop visits lies inside the payload. */
  lemma SpltEntriesSucceed(data: seq<byte>, name: string, depth: byte)
    requires |name| + 2 <= |data| && depth in {8, 16}
    ensures var n := |data| - (|name| + 2);
            var stride := 2 + 4 * (depth / 2);
            var count := EntryCount(n, stride);
            SpltEntries(data, name, depth).Success? <==>
            count == 0 || |name| + 2 + (count - 1) * stride + 3 * (depth / 2) + depth / 8 <= |data|
  {
    SpltReadsSucceed(data, |name| + 2, depth / 2, depth, 2 + 4 * (depth / 2), EntryCount(|data| - (|name| + 2), 2 + 4 * (depth / 2)));
  }

  /** Slot 4i + c of a decoded sPLT palette holds sample c of entry i, read
      at `prefix + i * stride + c * (depth / 2)`. */
  lemma SpltEntriesSample(data: seq<byte>, name: string, depth: byte, i: nat, c: nat)
    requires |name| + 2 <= |data| && depth in {8, 16}
    requires SpltEntries(data, name, depth).Success?
    requires c < 4 && 4 * i + c < |SpltEntries(data, name, depth).value.data|
    ensures GetUint(data, |name| + 2 + i * (2 + 4 * (depth / 2)) + c * (depth / 2), depth).Success?
    ensures SpltEntries(data, name, depth).value.data[4 * i + c]
            == GetUint(data, |name| + 2 + i * (2 + 4 * (depth / 2)) + c * (depth / 2), depth).value
  {
    var n := |data| - (|name| + 2);
    var stride := 2 + 4 * (depth / 2);
    SlotInVisitedEntry(n, stride, i, c);
    SpltReadsAt(data, |name| + 2, depth / 2, depth, stride, EntryCount(n, stride), i, c);
  }

  /** A payload of whole entries always decodes, into four slots per entry. */
  lemma SpltWholeEntries(data: seq<byte>, name: string, depth: byte)
    requires |name| + 2 <= |data| && depth in {8, 16}
    requires (|data| - (|name| + 2)) % (2 + 4 * (depth / 2)) == 0
    ensures SpltEntries(data, name, depth).Success?
    ensures |SpltEntries(data, name, depth).value.data| == 4 * ((|data| - (|name| + 2)) / (2 + 4 * (depth / 2)))
  {
    var n := |data| - (|name| + 2);
    var stride := 2 + 4 * (depth / 2);
    var count := n / stride;
    assert n == count * stride;
    assert EntryCount(n, stride) == count;
    assert SlotCount(n, stride) == 4 * count;
    if count > 0 {
      assert (count - 1) * stride + stride == n;
    }
    SpltEntriesSucceed(data, name, depth);
  }

  /** A payload of exactly one entry of the code's stride decodes into
      that entry's four samples. */
  lemma SpltOneEntry(data: seq<byte>, name: string, depth: byte)
    requires depth in {8, 16} && |data| == |name| + 2 + (2 + 4 * (depth / 2))
    ensures EntrySamples(data, |name| + 2, depth / 2, depth).Success?
    ensures SpltEntries(data, name, depth)
            == Success(Palette(name, EntrySamples(data, |name| + 2, depth / 2, depth).value, if depth == 8 then Uint8 else Uint16))
  {
    var stride := 2 + 4 * (depth / 2);
    assert EntryCount(stride, stride) == 1 && SlotCount(stride, stride) == 4;
    EntryReadsSucceed(data, |name| + 2, depth / 2, depth, 4);
    assert Times(0, stride) == 0;
    var e := EntrySamples(data, |name| + 2, depth / 2, depth).value;
    assert SpltReads(data, |name| + 2, depth / 2, depth, stride, 1).value == e;
    assert Fill(4, e) == e;
  }

  /** An 8-bit palette named "a" with 18 payload bytes after the header
      is one entry: its samples are the payload bytes 0, 4, 8 and 12. */
  lemma SpltOneEntryNamedA(data: seq<byte>)
    requires |data| == 21 && data[0] == 97 && data[1] == 0 && data[2] == 8
    ensures SpltPalette(data) == Success(Palette("a", [data[3] as int, data[7] as int, data[11] as int, data[15] as int], Uint8))
  {
    assert TextAt(data, 1) == Success([]);
    assert TextAt(data, 0).value == "a";
    SpltPaletteEntries(data, "a", 8);
    SpltOneEntry(data, "a", 8);
    var e := EntrySamples(data, 3, 4, 8).value;
    EntryReadsAt(data, 3, 4, 8, 4, 0);
    EntryReadsAt(data, 3, 4, 8, 4, 1);
    EntryReadsAt(data, 3, 4, 8, 4, 2);
    EntryReadsAt(data, 3, 4, 8, 4, 3);
    assert e == [data[3] as int, data[7] as int, data[11] as int, data[15] as int];
  }

  /** Three 8-bit entries in the layout of section 11.3.5.4 of the PNG
      specification (four 1-byte samples and a 2-byte frequency each) are
      read as a single entry of the code's 18-byte stride, whose samples
      are the payload bytes 0, 4, 8 and 12 after the header. */
  lemma SpltStandardLayoutMisread(data: seq<byte>)
    requires data == [97, 0, 8, 1, 2, 3, 4, 0, 0, 5, 6, 7, 8, 0, 0, 9, 10, 11, 12, 0, 0]
    ensures SpltPalette(data) == Success(Palette("a", [1, 0, 7, 9], Uint8))
  {
    assert |data| == 21 && data[0] == 97 && data[1] == 0 && data[2] == 8;
    assert data[3] == 1 && data[7] == 0 && data[11] == 7 && data[15] == 9;
    SpltOneEntryNamedA(data);
  }

  /** The same layout with two entries is shorter than one 18-byte entry:
      the fourth read falls outside the payload. */
  lemma SpltTwoStandardEntriesFail(data: seq<byte>)
    requires data == [97, 0, 8, 1, 2, 3, 4, 0, 0, 5, 6, 7, 8, 0, 0]
    ensures SpltPalette(data) == Failure(RangeError)
  {
    assert TextAt(data, 1) == Success([]);
    assert TextAt(data, 0).value == "a";
    SpltPaletteEntries(data, "a", 8);
    assert EntryCount(12, 18) == 1;
    SpltEntriesSucceed(data, "a", 8);
  }

  // ---------------------------------------------------------------------
  // fromSPLT with the entry layout of the PNG specification

  /** The entries in the layout of section 11.3.5.4 of the PNG
      specification: `depth / 8` bytes per sample, so an entry of four
      samples and a 2-byte frequency takes 6 bytes at depth 8 and 10 at
      depth 16. The loop and the typed array are fromSPLT's. */
  function SpltEntriesStandard(data: seq<byte>, name: string, sampleDepth: byte): (r: Result<Palette, Error>)
    requires |name| + 2 <= |data|
    ensures r.Success? ==> r.value.name == name
    ensures r.Success? ==> (r.value.kind == if sampleDepth == 8 then Uint8 else Uint16)
    ensures r.Failure? && sampleDepth in {8, 16} ==> r.error == RangeError
  {
    var prefixLength := |name| + 1 + 1;
    var sampleBytes := sampleDepth / 8;
    var indexLength := 2 + 4 * sampleBytes;
    var n := |data| - prefixLength;
    var samples :- SpltReads(data, prefixLength, sampleBytes, sampleDepth, indexLength, EntryCount(n, indexLength));
    Success(Palette(name, Fill(SlotCount(n, indexLength), samples), if sampleDepth == 8 then Uint8 else Uint16))
  }

  /** fromSPLT with the header it reads and the standard entry layout. */
  function SpltPaletteStandard(data: seq<byte>): (r: Result<Palette, Error>)
    ensures TextAt(data, 0).Failure? ==> r == Failure(RangeError)
    ensures r.Success? ==> r.value.name == TextAt(data, 0).value && |r.value.name| + 1 < |data|
                           && r.value.GetSampleDepth() == data[|r.value.name| + 1]
    ensures r.Failure? ==> r.error == RangeError || r.error == AssertionError
  {
    TextAtMeaning(data, 0);
    var name :- TextAt(data, 0);
    var sampleDepth :- GetUint8(data, |name| + 1);
    :- Assert([Bool(sampleDepth in [8, 16])]);
    SpltEntriesStandard(data, name, sampleDepth)
  }

  /** A payload of whole standard entries always decodes, into four slots
      per entry. */
  lemma SpltWholeStandardEntries(data: seq<byte>, name: string, depth: byte)
    requires |name| + 2 <= |data| && depth in {8, 16}
    requires (|data| - (|name| + 2)) % (2 + 4 * (depth / 8)) == 0
    ensures SpltEntriesStandard(data, name, depth).Success?
    ensures |SpltEntriesStandard(data, name, depth).value.data| == 4 * ((|data| - (|name| + 2)) / (2 + 4 * (depth / 8)))
  {
    var n := |data| - (|name| + 2);
    var stride := 2 + 4 * (depth / 8);
    var count := n / stride;
    assert n == count * stride;
    assert EntryCount(n, stride) == count;
    assert SlotCount(n, stride) == 4 * count;
    if count > 0 {
      assert (count - 1) * stride + stride == n;
    }
    SpltReadsSucceed(data, |name| + 2, depth / 8, depth, stride, count);
  }

  /** Slot 4i + c of a decoded standard sPLT palette holds sample c of
      entry i, the `depth`-bit value at `x`, which is
      `prefix + i * stride + c * (depth / 8)`. */
  lemma SpltStandardSample(data: seq<byte>, name: string, depth: byte, i: nat, c: nat, x: nat)
    requires |name| + 2 <= |data| && depth in {8, 16}
    requires SpltEntriesStandard(data, name, depth).Success?
    requires c < 4 && 4 * i + c < |SpltEntriesStandard(data, name, depth).value.data|
    requires x == |name| + 2 + i * (2 + 4 * (depth / 8)) + c * (depth / 8)
    ensures GetUint(data, x, depth).Success?
    ensures SpltEntriesStandard(data, name, depth).value.data[4 * i + c] == GetUint(data, x, depth).value
  {
    var n := |data| - (|name| + 2);
    var stride := 2 + 4 * (depth / 8);
    SlotInVisitedEntry(n, stride, i, c);
    SpltReadsAt(data, |name| + 2, depth / 8, depth, stride, EntryCount(n, stride), i, c);
  }

  /** The three 8-bit entries SpltStandardLayoutMisread misreads are read
      back whole in the standard layout: colours (1, 2, 3, 4), (5, 6, 7, 8)
      and (9, 10, 11, 12). */
  lemma SpltStandardLayoutRead(data: seq<byte>)
    requires data == [97, 0, 8, 1, 2, 3, 4, 0, 0, 5, 6, 7, 8, 0, 0, 9, 10, 11, 12, 0, 0]
    ensures SpltPaletteStandard(data).Success?
    ensures var p := SpltPaletteStandard(data).value;
      && p.name == "a" && p.kind == Uint8 && p.GetColorsCount() == 12
      && p.GetColor(0) == Color(Some(1), Some(2), Some(3), Some(4))
      && p.GetColor(1) == Color(Some(5), Some(6), Some(7), Some(8))
      && p.GetColor(2) == Color(Some(9), Some(10), Some(11), Some(12))
  {
    StandardHeaderNamedA(data);
    StandardEntry(data, 0, 3);
    StandardEntry(data, 1, 9);
    StandardEntry(data, 2, 15);
  }

  /** An 8-bit palette named "a": past the header, the standard entries. */
  lemma StandardHeaderNamedA(data: seq<byte>)
    requires |data| > 3 && data[0] == 97 && data[1] == 0 && data[2] == 8
    ensures SpltPaletteStandard(data) == SpltEntriesStandard(data, "a", 8)
  {
    assert TextAt(data, 1) == Success([]);
    assert TextAt(data, 0).value == "a";
    assert GetUint8(data, 2) == Success(8);
    assert Assert([Bool(8 in [8, 16])]) == Pass;
  }

  /** Entry i of a 21-byte 8-bit payload named "a", in the standard layout:
      the four bytes from x = 3 + 6i. */
  lemma StandardEntry(data: seq<byte>, i: nat, x: nat)
    requires |data| == 21 && data[0] == 97 && data[1] == 0 && i < 3 && x == 3 + 6 * i
    ensures SpltEntriesStandard(data, "a", 8).Success?
    ensures var p := SpltEntriesStandard(data, "a", 8).value;
      |p.data| == 12
      && p.data[4 * i] == data[x] && p.data[4 * i + 1] == data[x + 1]
      && p.data[4 * i + 2] == data[x + 2] && p.data[4 * i + 3] == data[x + 3]
  {
    SpltWholeStandardEntries(data, "a", 8);
    SpltStandardSample(data, "a", 8, i, 0, x);
    SpltStandardSample(data, "a", 8, i, 1, x + 1);
    SpltStandardSample(data, "a", 8, i, 2, x + 2);
    SpltStandardSample(data, "a", 8, i, 3, x + 3);
  }
}
