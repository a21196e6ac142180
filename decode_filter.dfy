/** Scanline filtering (src/utils/decodeFilter.ts), sections 9.2 and 9.4 of
    the PNG specification: the de-filter that rebuilds the raw scanline bytes
    of a non-interlaced image from the inflated IDAT stream, the encoder-side
    filter, and the Paeth predictor they share.

    The source's "left" neighbour is not the same in both directions. The
    de-filter takes the byte immediately before (distance 1); the filter takes
    the byte four positions before (distance 4). Section 9.2 asks for the byte
    one whole pixel before. The specification functions below take the
    distance `d` as a parameter so that both choices, and their composition,
    can be stated. */
module DecodeFilter {
  import opened Bytes
  import opened Wrappers
  import opened Errors
  import opened DataViews
  import opened IHDR
  import LegacyStreams

  /** FilterType: None 0, Sub 1, Up 2, Avg 3, Paeth 4. */
  type FilterTag = t: int | 0 <= t <= 4

  const FilterNone: FilterTag := 0
  const FilterSub: FilterTag := 1
  const FilterUp: FilterTag := 2
  const FilterAvg: FilterTag := 3
  const FilterPaeth: FilterTag := 4

  /** The left distance the de-filter uses. */
  const ReverseDistance: nat := 1
  /** The left distance the filter uses. */
  const ForwardDistance: nat := 4

  function Abs(x: int): (r: nat)
    ensures r == x || r == -x
  {
    if x < 0 then -x else x
  }

  /** `PaethPredictor(left, above, upLeft)` (section 9.4). */
  function PaethPredictor(left: int, above: int, upLeft: int): (r: int)
    ensures 0 <= left < 0x100 && 0 <= above < 0x100 && 0 <= upLeft < 0x100 ==> 0 <= r < 0x100
  {
    var p := left + above - upLeft;
    var pLeft := Abs(p - left);
    var pAbove := Abs(p - above);
    var pUpLeft := Abs(p - upLeft);
    if pLeft <= pAbove && pLeft <= pUpLeft then left
    else if pAbove <= pUpLeft then above
    else upLeft
  }

  /** Paeth returns one of its three neighbours, the one nearest to
      `p = left + above - upLeft`; ties go to left, then to above. */
  lemma PaethIsNearest(left: int, above: int, upLeft: int)
    ensures var r := PaethPredictor(left, above, upLeft);
      var p := left + above - upLeft;
      && (r == left || r == above || r == upLeft)
      && Abs(p - r) <= Abs(p - left) && Abs(p - r) <= Abs(p - above) && Abs(p - r) <= Abs(p - upLeft)
      && (Abs(p - left) <= Abs(p - above) && Abs(p - left) <= Abs(p - upLeft) ==> r == left)
      && (Abs(p - above) < Abs(p - left) && Abs(p - above) <= Abs(p - upLeft) ==> r == above)
  {
  }

  /** On the first line (above = upLeft = 0) Paeth is Sub; in the first
      column (left = upLeft = 0) it is Up. */
  lemma PaethDegenerates(left: int, above: int)
    ensures PaethPredictor(left, 0, 0) == left
    ensures PaethPredictor(0, above, 0) == above
  {
  }

  /** The value each filter type predicts a byte from. */
  function Predict(tag: FilterTag, left: byte, up: byte, upLeft: byte): (r: byte)
  {
    match tag
    case 0 => 0
    case 1 => left
    case 2 => up
    case 3 => (left + up) / 2
    case 4 => PaethPredictor(left, up, upLeft)
  }

  /** The prediction is nothing for None, the left byte for Sub, the byte
      above for Up, the floor of their mean for Avg, and Paeth. */
  lemma PredictByTag(tag: FilterTag, left: byte, up: byte, upLeft: byte)
    ensures var r := Predict(tag, left, up, upLeft);
      && (tag == FilterNone ==> r == 0)
      && (tag == FilterSub ==> r == left)
      && (tag == FilterUp ==> r == up)
      && (tag == FilterAvg ==> 2 * r <= left + up < 2 * r + 2)
      && (tag == FilterPaeth ==> r == PaethPredictor(left, up, upLeft))
  {
  }

  /** Tags 0 and 2 predict without looking left. */
  lemma {:induction false} PredictIgnoresLeft(tag: FilterTag, left: byte, left': byte, up: byte, upLeft: byte, upLeft': byte)
    requires tag == FilterNone || tag == FilterUp
    ensures Predict(tag, left, up, upLeft) == Predict(tag, left', up, upLeft')
  {
  }

  /** A sequence of zero bytes is the padding after no rows. */
  lemma AllZeros(a: seq<byte>)
    requires forall k :: 0 <= k < |a| ==> a[k] == 0
    ensures a == [] + Zeros(|a|)
  {
    assert a == Zeros(|a|);
  }

  function Zeros(n: nat): (r: seq<byte>)
    ensures |r| == n && forall i :: 0 <= i < n ==> r[i] == 0
  {
    seq(n, _ => 0)
  }

  /** Samples per pixel of each colour type (the switch of the ReverseFilter
      constructor and colorTypeToBppMap): 1, 3, 1, 2, 4 for colour types
      0, 2, 3, 4, 6, nothing for any other value. */
  function SamplesPerPixel(colorType: int): (r: Option<nat>)
    ensures r.Some? <==> IsColorType(colorType)
    ensures colorType == GreyScale ==> r == Some(1)
    ensures colorType == TrueColor ==> r == Some(3)
    ensures colorType == IndexedColor ==> r == Some(1)
    ensures colorType == GreyScaleWithAlpha ==> r == Some(2)
    ensures colorType == TrueColorWithAlpha ==> r == Some(4)
  {
    ColorTypeValues();
    if colorType == 0 || colorType == 3 then Some(1)
    else if colorType == 2 then Some(3)
    else if colorType == 4 then Some(2)
    else if colorType == 6 then Some(4)
    else None
  }

  /** `_scanLineByteLength`: `ceil(width * bitDepth / 8 * samples)`; an
      unknown colour type throws. The bit depth is the header's `depth`. */
  function ScanLineByteLength(ihdr: IhdrRecord): (r: Result<nat, Error>)
    ensures r.Success? <==> IsColorType(ihdr.colorType)
    ensures r.Failure? ==> r.error == UnknownColorType(ihdr.colorType)
  {
    match SamplesPerPixel(ihdr.colorType)
    case None => Failure(UnknownColorType(ihdr.colorType))
    case Some(ch) => Success((ihdr.width * ihdr.depth * ch + 7) / 8)
  }

  /** The scanline length is the bits of a row of samples, rounded up to
      whole bytes. */
  lemma ScanLineHoldsRow(ihdr: IhdrRecord)
    requires IsColorType(ihdr.colorType)
    ensures var bits := ihdr.width * ihdr.depth * SamplesPerPixel(ihdr.colorType).value;
      bits <= 8 * ScanLineByteLength(ihdr).value < bits + 8
  {
  }

  /** At bit depth 8 a scanline holds exactly one byte per sample. */
  lemma {:induction false} ScanLineAtDepth8(ihdr: IhdrRecord)
    requires ihdr.depth == 8 && IsColorType(ihdr.colorType)
    ensures ScanLineByteLength(ihdr) == Success(ihdr.width * SamplesPerPixel(ihdr.colorType).value)
  {
    var n := ihdr.width * SamplesPerPixel(ihdr.colorType).value;
    assert ihdr.width * ihdr.depth * SamplesPerPixel(ihdr.colorType).value == 8 * n;
    DivModUnique(8 * n + 7, 8, n, 7);
  }

  // ---------------------------------------------------------------------
  // De-filter, as a specification

  /** Byte i of a row rebuilt by `_reverseFilterLine` from the filtered
      bytes at `input[start..]`: the filtered byte plus its prediction,
      modulo 256. */
  function Rebuilt(tag: FilterTag, input: seq<byte>, start: nat, prior: seq<byte>, d: nat, i: nat): byte
    requires start + i < |input| && i < |prior| && d >= 1
    decreases i, 1
  {
    (input[start + i] + Prediction(tag, input, start, prior, d, i)) % 0x100
  }

  /** The prediction for byte i: from the rebuilt byte `d` to the left (0
      for i < d), the byte above in `prior` (the row above, all zeros on the
      first line) and the byte above that left one (0 for i < d). */
  function Prediction(tag: FilterTag, input: seq<byte>, start: nat, prior: seq<byte>, d: nat, i: nat): byte
    requires start + i < |input| && i < |prior| && d >= 1
    decreases i, 0
  {
    var left := if i >= d then Rebuilt(tag, input, start, prior, d, i - d) else 0;
    var upLeft := if i >= d then prior[i - d] else 0;
    Predict(tag, left, prior[i], upLeft)
  }

  /** The first `n` bytes of a reconstructed row, as `_reverseFilterLine`
      stores them left to right. */
  function Recon(tag: FilterTag, input: seq<byte>, start: nat, n: nat, prior: seq<byte>, d: nat): (r: seq<byte>)
    requires start + n <= |input| && |prior| >= n && d >= 1
    ensures |r| == n
  {
    seq(n, i requires 0 <= i < n => Rebuilt(tag, input, start, prior, d, i))
  }

  /** Each reconstructed byte is `(filtered[i] + pred) mod 256`, where the
      prediction reads the rebuilt byte `d` to the left (0 for i < d), the
      byte above, and the byte above that left one (0 for i < d). */
  lemma ReconByte(tag: FilterTag, input: seq<byte>, start: nat, n: nat, prior: seq<byte>, d: nat, i: nat)
    requires start + n <= |input| && |prior| >= n && d >= 1 && i < n
    ensures Recon(tag, input, start, n, prior, d)[i]
         == (input[start + i] + Predict(tag, if i >= d then Recon(tag, input, start, n, prior, d)[i - d] else 0, prior[i],
                                        if i >= d then prior[i - d] else 0)) % 0x100
  {
    var left := if i >= d then Rebuilt(tag, input, start, prior, d, i - d) else 0;
    var upLeft := if i >= d then prior[i - d] else 0;
    assert Prediction(tag, input, start, prior, d, i) == Predict(tag, left, prior[i], upLeft);
  }

  /** Extending a reconstructed row by the byte the next input byte and the
      neighbours give. */
  lemma ReconSucc(tag: FilterTag, input: seq<byte>, start: nat, i: nat, prior: seq<byte>, d: nat,
                  left: byte, upLeft: byte, b: byte)
    requires start + i < |input| && |prior| > i && d >= 1
    requires left == if i >= d then Recon(tag, input, start, i, prior, d)[i - d] else 0
    requires upLeft == if i >= d then prior[i - d] else 0
    requires b == (input[start + i] + Predict(tag, left, prior[i], upLeft)) % 0x100
    ensures Recon(tag, input, start, i + 1, prior, d) == Recon(tag, input, start, i, prior, d) + [b]
  {
    assert Prediction(tag, input, start, prior, d, i) == Predict(tag, left, prior[i], upLeft);
    assert b == Rebuilt(tag, input, start, prior, d, i);
    assert Recon(tag, input, start, i + 1, prior, d)[..i] == Recon(tag, input, start, i, prior, d);
  }

  /** One call of `_reverseFilterLine` on the input bytes at `pos`: the tag
      byte, then for tags 0..4 exactly `L` filtered bytes. An unknown tag
      consumes the tag byte only and leaves the row as allocated, all zeros.
      Running out of input is a RangeError. The result is the row and the
      position after it. */
  function LineStep(input: seq<byte>, L: nat, d: nat, prior: seq<byte>, pos: nat): (r: Result<(seq<byte>, nat), Error>)
    requires |prior| == L && d >= 1
    ensures r.Success? <==> pos < |input| && (input[pos] <= 4 ==> pos + 1 + L <= |input|)
    ensures r.Failure? ==> r.error == RangeError
    ensures r.Success? ==> |r.value.0| == L
    ensures r.Success? ==> r.value.1 == pos + 1 + (if input[pos] <= 4 then L else 0)
    ensures r.Success? && input[pos] > 4 ==> r.value.0 == Zeros(L)
  {
    if pos >= |input| then Failure(RangeError)
    else if input[pos] > 4 then Success((Zeros(L), pos + 1))
    else if pos + 1 + L > |input| then Failure(RangeError)
    else Success((Recon(input[pos], input, pos + 1, L, prior, d), pos + 1 + L))
  }

  /** The row above line `n` within the rows already rebuilt. */
  function PriorOf(out: seq<byte>, L: nat, n: nat): (r: seq<byte>)
    requires |out| == Times(n, L)
    ensures |r| == L
    ensures n > 0 ==> r == out[|out| - L..]
  {
    if n == 0 then Zeros(L) else out[|out| - L..]
  }

  /** The first `n` lines, top to bottom: the bytes rebuilt so far and the
      input position after them. */
  function Lines(input: seq<byte>, L: nat, d: nat, n: nat): (r: Result<(seq<byte>, nat), Error>)
    requires d >= 1
    ensures r.Success? ==> |r.value.0| == Times(n, L) && r.value.1 <= |input|
    ensures r.Failure? ==> r.error == RangeError
    decreases n
  {
    if n == 0 then Success(([], 0))
    else
      var p := Lines(input, L, d, n - 1);
      if p.Failure? then Failure(p.error)
      else
        var step := LineStep(input, L, d, PriorOf(p.value.0, L, n - 1), p.value.1);
        if step.Failure? then Failure(step.error)
        else Success((p.value.0 + step.value.0, step.value.1))
  }

  /** One more line after `n` successful ones: the rows grow by the new row
      and the cursor moves to the position after it. */
  lemma LinesSucc(input: seq<byte>, L: nat, d: nat, n: nat, out: seq<byte>, pos: nat, row: seq<byte>, next: nat)
    requires d >= 1 && Lines(input, L, d, n) == Success((out, pos))
    requires LineStep(input, L, d, PriorOf(out, L, n), pos) == Success((row, next))
    ensures Lines(input, L, d, n + 1) == Success((out + row, next))
  {
  }

  /** The step from `y` to `y + 1` rebuilt pixel rows: when the first `y`
      lines give back the first `y` rows of `px` and line y gives back row y,
      the first `y + 1` lines give back the first `y + 1` rows. */
  lemma LinesOfRowsSucc(input: seq<byte>, px: seq<byte>, L: nat, d: nat, y: nat, pos: nat)
    requires d >= 1 && Times(y, L) + L <= |px| && pos == Times(y, L + 1)
    requires Lines(input, L, d, y) == Success((px[..Times(y, L)], pos))
    requires PriorOf(px[..Times(y, L)], L, y) == PriorRow(px, L, y)
    requires LineStep(input, L, d, PriorRow(px, L, y), pos) == Success((PixelRow(px, L, y), pos + 1 + L))
    ensures Lines(input, L, d, y + 1) == Success((px[..Times(y + 1, L)], Times(y + 1, L + 1)))
  {
    PixelPrefixSucc(px, L, y);
    assert Times(y + 1, L + 1) == pos + 1 + L;
    LinesSuccTo(input, L, d, y, px[..Times(y, L)], pos, PixelRow(px, L, y), Times(y + 1, L + 1), px[..Times(y + 1, L)]);
  }

  /** LinesSucc with the grown rows named. */
  lemma LinesSuccTo(input: seq<byte>, L: nat, d: nat, n: nat, out: seq<byte>, pos: nat, row: seq<byte>, next: nat, grown: seq<byte>)
    requires d >= 1 && Lines(input, L, d, n) == Success((out, pos))
    requires LineStep(input, L, d, PriorOf(out, L, n), pos) == Success((row, next))
    requires out + row == grown
    ensures Lines(input, L, d, n + 1) == Success((grown, next))
  {
    LinesSucc(input, L, d, n, out, pos, row, next);
  }

  /** The first y + 1 pixel rows are the first y and then row y. */
  lemma PixelPrefixSucc(px: seq<byte>, L: nat, y: nat)
    requires Times(y, L) + L <= |px|
    ensures px[..Times(y, L)] + PixelRow(px, L, y) == px[..Times(y + 1, L)]
  {
  }

  /** Once a line fails, every longer run fails the same way. */
  lemma LinesFailureSticks(input: seq<byte>, L: nat, d: nat, n: nat, m: nat)
    requires d >= 1 && n <= m && Lines(input, L, d, n).Failure?
    ensures Lines(input, L, d, m) == Lines(input, L, d, n)
  {
    var lines := (k: nat) => Lines(input, L, d, k);
    forall j, k | n <= j < m && k == j + 1 && lines(j).Failure? ensures lines(k) == lines(j) {
      LinesFailNext(input, L, d, k);
    }
    FailureSticks(lines, n, m);
  }

  /** A run of results in which a failure is repeated by the next one keeps
      its first failure. */
  lemma {:induction false} FailureSticks<T>(f: nat -> Result<T, Error>, n: nat, m: nat)
    requires n <= m && f(n).Failure?
    requires forall j, k :: n <= j < m && k == j + 1 && f(j).Failure? ==> f(k) == f(j)
    ensures f(m) == f(n)
    decreases m
  {
    if n < m {
      FailureSticks(f, n, m - 1);
    }
  }

  /** A failed run of lines stays failed one line further. */
  lemma LinesFailNext(input: seq<byte>, L: nat, d: nat, m: nat)
    requires d >= 1 && m > 0 && Lines(input, L, d, m - 1).Failure?
    ensures Lines(input, L, d, m) == Lines(input, L, d, m - 1)
  {
  }

  /** The de-filtered image: `height` lines of `_scanLineByteLength` bytes,
      with the source's left distance 1. */
  function Unfilter(inData: seq<byte>, ihdr: IhdrRecord): (r: Result<seq<byte>, Error>)
    ensures ScanLineByteLength(ihdr).Failure? ==> r == Failure(UnknownColorType(ihdr.colorType))
    ensures r.Success? ==> |r.value| == Times(ihdr.height, ScanLineByteLength(ihdr).value)
    ensures r.Failure? && ScanLineByteLength(ihdr).Success? ==> r.error == RangeError
  {
    var L :- ScanLineByteLength(ihdr);
    var p :- Lines(inData, L, ReverseDistance, ihdr.height);
    Success(p.0)
  }

  /** The de-filter as written: the constructor reads `IHDR.bitDepth`, which
      the object readIHDR returns does not have, so `bytesPerSample`, the
      scanline length and the output length are all NaN. The output array is
      then empty, no per-byte loop runs, and each line consumes only its
      filter-type byte. */
  function UnfilterAsWritten(inData: seq<byte>, ihdr: IhdrRecord): (r: Result<seq<byte>, Error>)
    ensures SamplesPerPixel(ihdr.colorType).None? ==> r == Failure(UnknownColorType(ihdr.colorType))
    ensures SamplesPerPixel(ihdr.colorType).Some? ==> (r.Success? <==> ihdr.height <= |inData|)
    ensures r.Failure? && SamplesPerPixel(ihdr.colorType).Some? ==> r.error == RangeError
    ensures r.Success? ==> r.value == []
  {
    if SamplesPerPixel(ihdr.colorType).None? then Failure(UnknownColorType(ihdr.colorType))
    else
      LinesOfNothing(inData, ReverseDistance, ihdr.height);
      var p :- Lines(inData, 0, ReverseDistance, ihdr.height);
      Success(p.0)
  }

  /** Lines of no bytes: each takes one filter-type byte and yields nothing,
      so n of them succeed exactly when the input has n bytes. */
  lemma {:induction false} LinesOfNothing(input: seq<byte>, d: nat, n: nat)
    requires d >= 1
    ensures Lines(input, 0, d, n) == if n <= |input| then Success(([], n)) else Failure(RangeError)
  {
    if n > 0 {
      LinesOfNothing(input, d, n - 1);
    }
  }

  /** The discrepancy on a 1x1 greyscale image of depth 8 whose one line is
      filter type None and the sample 7: as written the decoded image is
      empty, while the intended de-filter gives back the sample. */
  lemma UnfilterAsWrittenDropsPixels()
    ensures UnfilterAsWritten([0, 7], IhdrRecord(1, 1, 8, 0, 0, 0, 0)) == Success([])
    ensures Unfilter([0, 7], IhdrRecord(1, 1, 8, 0, 0, 0, 0)) == Success([7])
  {
    var ihdr := IhdrRecord(1, 1, 8, 0, 0, 0, 0);
    assert ScanLineByteLength(ihdr) == Success(1);
    var step := LineStep([0, 7], 1, ReverseDistance, Zeros(1), 0);
    assert step.Success? && |step.value.0| == 1;
    assert step.value.0 == [7] by {
      assert step.value.0[0] == 7;
    }
    assert Lines([0, 7], 1, ReverseDistance, 0) == Success(([], 0));
    assert PriorOf([], 1, 0) == Zeros(1);
    LinesSuccTo([0, 7], 1, ReverseDistance, 0, [], 0, [7], 2, [7]);
  }

  /** `switch (IHDR.colorType)` over the field readIHDR yields: a case
      matches only a number that is one of the five colour types. */
  predicate SwitchMatches(colorType: Field)
  {
    colorType.Number? && SamplesPerPixel(colorType.value).Some?
  }

  /** With the chunk's DataView passed to readIHDR, the colour type is
      undefined for every file, the switch reaches `default` and the
      constructor throws. */
  lemma DataViewHeaderReachesDefault(elements: seq<byte>)
    requires |elements| < 10
    ensures !SwitchMatches(ReadIHDRFields(elements).colorType)
  {
  }

  // ---------------------------------------------------------------------
  // Filter, as a specification

  /** The value `_filterX` computes for byte x of a row: the pixel byte less
      the prediction, with left at distance `d` and the row above `prev`
      (zeros for line 0). It is not yet reduced to a byte. */
  function Residual(tag: FilterTag, cur: seq<byte>, prev: seq<byte>, x: nat, d: nat): int
    requires x < |cur| && |prev| == |cur|
  {
    var left := if x >= d then cur[x - d] else 0;
    var upLeft := if x >= d then prev[x - d] else 0;
    cur[x] - Predict(tag, left, prev[x], upLeft)
  }

  /** The residuals of a row, each stored modulo 256. */
  function Residuals(tag: FilterTag, cur: seq<byte>, prev: seq<byte>, d: nat): (r: seq<byte>)
    requires |prev| == |cur|
    ensures |r| == |cur|
    ensures forall x :: 0 <= x < |cur| ==> r[x] == ToUint8(Residual(tag, cur, prev, x, d))
  {
    seq(|cur|, x requires 0 <= x < |cur| => ToUint8(Residual(tag, cur, prev, x, d)))
  }

  /** The row `_filterX(pxData, y, rawData)` writes: the tag, then the
      residuals. */
  function FilteredRow(tag: FilterTag, cur: seq<byte>, prev: seq<byte>, d: nat): (r: seq<byte>)
    requires |prev| == |cur|
    ensures |r| == |cur| + 1 && r[0] == tag && r[1..] == Residuals(tag, cur, prev, d)
  {
    [tag] + Residuals(tag, cur, prev, d)
  }

  /** The sum `_filterX(pxData, y, null)` returns over the first `n` bytes:
      the absolute residuals, added up. */
  function Cost(tag: FilterTag, cur: seq<byte>, prev: seq<byte>, d: nat, n: nat): (r: nat)
    requires n <= |cur| && |prev| == |cur|
    ensures n > 0 ==> r >= Abs(Residual(tag, cur, prev, n - 1, d))
  {
    if n == 0 then 0 else Cost(tag, cur, prev, d, n - 1) + Abs(Residual(tag, cur, prev, n - 1, d))
  }

  /** After the first `n` entries of `filterTypes`: the selected tag and the
      smallest sum so far (None stands for the initial `Infinity`). */
  function SelectPrefix(fts: seq<FilterTag>, cur: seq<byte>, prev: seq<byte>, d: nat, n: nat): (r: (FilterTag, Option<nat>))
    requires n <= |fts| && |prev| == |cur|
    ensures r.1.None? <==> n == 0
    ensures n == 0 ==> r.0 == FilterNone
    decreases n
  {
    if n == 0 then (FilterNone, None)
    else
      var (sel, min) := SelectPrefix(fts, cur, prev, d, n - 1);
      var sum := Cost(fts[n - 1], cur, prev, d, |cur|);
      if min.None? || sum < min.value then (fts[n - 1], Some(sum)) else (sel, min)
  }

  /** One more entry of `filterTypes`: it is selected when its sum is below
      the minimum so far. */
  lemma SelectPrefixSucc(fts: seq<FilterTag>, cur: seq<byte>, prev: seq<byte>, d: nat, i: nat, sum: nat)
    requires i < |fts| && |prev| == |cur| && sum == RowCost(fts[i], cur, prev, d)
    ensures var (sel, min) := SelectPrefix(fts, cur, prev, d, i);
      SelectPrefix(fts, cur, prev, d, i + 1) == if min.None? || sum < min.value then (fts[i], Some(sum)) else (sel, min)
  {
  }

  /** The filter type chosen for a row. */
  function Choice(fts: seq<FilterTag>, cur: seq<byte>, prev: seq<byte>, d: nat): FilterTag
    requires |prev| == |cur|
  {
    SelectPrefix(fts, cur, prev, d, |fts|).0
  }

  function RowCost(tag: FilterTag, cur: seq<byte>, prev: seq<byte>, d: nat): nat
    requires |prev| == |cur|
  {
    Cost(tag, cur, prev, d, |cur|)
  }

  /** The selection after `n` entries is the first entry among them with the
      strictly smallest sum, and the recorded minimum is its sum. */
  lemma {:induction false} SelectPrefixIsFirstMinimal(fts: seq<FilterTag>, cur: seq<byte>, prev: seq<byte>, d: nat, n: nat)
    returns (k: nat)
    requires 0 < n <= |fts| && |prev| == |cur|
    ensures k < n && SelectPrefix(fts, cur, prev, d, n) == (fts[k], Some(RowCost(fts[k], cur, prev, d)))
    ensures forall j :: 0 <= j < n ==> RowCost(fts[k], cur, prev, d) <= RowCost(fts[j], cur, prev, d)
    ensures forall j :: 0 <= j < k ==> RowCost(fts[k], cur, prev, d) < RowCost(fts[j], cur, prev, d)
    decreases n
  {
    if n == 1 {
      k := 0;
    } else {
      var k' := SelectPrefixIsFirstMinimal(fts, cur, prev, d, n - 1);
      if RowCost(fts[n - 1], cur, prev, d) < RowCost(fts[k'], cur, prev, d) {
        k := n - 1;
      } else {
        k := k';
      }
    }
  }

  /** `filter()` picks, for each line, the first entry of `filterTypes` with
      the strictly smallest sum, and None (0) when the list is empty. */
  lemma ChoiceIsFirstMinimal(fts: seq<FilterTag>, cur: seq<byte>, prev: seq<byte>, d: nat) returns (k: nat)
    requires |prev| == |cur|
    ensures |fts| == 0 ==> Choice(fts, cur, prev, d) == FilterNone
    ensures |fts| > 0 ==> k < |fts| && Choice(fts, cur, prev, d) == fts[k]
    ensures |fts| > 0 ==> forall j :: 0 <= j < |fts| ==> RowCost(fts[k], cur, prev, d) <= RowCost(fts[j], cur, prev, d)
    ensures |fts| > 0 ==> forall j :: 0 <= j < k ==> RowCost(fts[k], cur, prev, d) < RowCost(fts[j], cur, prev, d)
  {
    k := 0;
    if |fts| > 0 {
      k := SelectPrefixIsFirstMinimal(fts, cur, prev, d, |fts|);
    }
  }

  /** Row y of the pixel bytes, `rowLen` bytes from `y * rowLen`. */
  function PixelRow(px: seq<byte>, rowLen: nat, y: nat): (r: seq<byte>)
    requires Times(y, rowLen) + rowLen <= |px|
    ensures |r| == rowLen
  {
    px[Times(y, rowLen)..Times(y, rowLen) + rowLen]
  }

  /** The row above row y, zeros for row 0 (`y > 0 ? ... : 0`). */
  function PriorRow(px: seq<byte>, rowLen: nat, y: nat): (r: seq<byte>)
    requires Times(y, rowLen) + rowLen <= |px|
    ensures |r| == rowLen
    ensures y > 0 ==> r == PixelRow(px, rowLen, y - 1)
  {
    if y == 0 then Zeros(rowLen) else PixelRow(px, rowLen, y - 1)
  }

  /** The first `n` rows of `filter()`'s output: for each row its chosen tag
      and residuals, `rowLen + 1` bytes per row. */
  function FilterRows(px: seq<byte>, rowLen: nat, fts: seq<FilterTag>, d: nat, n: nat): (r: seq<byte>)
    requires Times(n, rowLen) <= |px|
    ensures |r| == Times(n, rowLen + 1)
    decreases n
  {
    if n == 0 then []
    else
      var cur := PixelRow(px, rowLen, n - 1);
      var prev := PriorRow(px, rowLen, n - 1);
      FilterRows(px, rowLen, fts, d, n - 1) + FilteredRow(Choice(fts, cur, prev, d), cur, prev, d)
  }

  /** Earlier rows of the filter output do not depend on later ones. */
  lemma {:induction false} FilterRowsPrefix(px: seq<byte>, rowLen: nat, fts: seq<FilterTag>, d: nat, m: nat, n: nat)
    requires m <= n && Times(n, rowLen) <= |px|
    ensures Times(m, rowLen + 1) <= Times(n, rowLen + 1)
    ensures Times(m, rowLen) <= |px|
    ensures FilterRows(px, rowLen, fts, d, n)[..Times(m, rowLen + 1)] == FilterRows(px, rowLen, fts, d, m)
    decreases n
  {
    TimesMono(n, m, rowLen + 1);
    TimesMono(n, m, rowLen);
    if m < n {
      TimesMono(n - 1, m, rowLen);
      FilterRowsPrefix(px, rowLen, fts, d, m, n - 1);
      var a := FilterRows(px, rowLen, fts, d, n - 1);
      TimesMono(n - 1, m, rowLen + 1);
      assert FilterRows(px, rowLen, fts, d, n)[..|a|] == a;
    }
  }

  // ---------------------------------------------------------------------
  // Round trips

  lemma ModBack(c: byte, p: int)
    ensures (ToUint8(c - p) + p) % 0x100 == c
  {
    var r := ToUint8(c - p);
    var k := (r - (c - p)) / 0x100;
    assert r - (c - p) == 0x100 * k;
    DivModUnique(r + p, 0x100, k, c);
  }

  /** De-filtering the residuals of a row, wherever they sit in the input,
      gives each byte back when both sides use the same left distance, or when
      the tag does not look left at all. */
  lemma {:induction false} RowByteRoundTrip(tag: FilterTag, cur: seq<byte>, prev: seq<byte>, dF: nat, dR: nat,
                                             input: seq<byte>, start: nat, i: nat)
    requires |prev| == |cur| && dR >= 1 && i < |cur| && start + |cur| <= |input|
    requires dF == dR || tag == FilterNone || tag == FilterUp
    requires forall x :: 0 <= x < |cur| ==> input[start + x] == ToUint8(Residual(tag, cur, prev, x, dF))
    ensures Recon(tag, input, start, |cur|, prev, dR)[i] == cur[i]
    decreases i
  {
    var row := Recon(tag, input, start, |cur|, prev, dR);
    ReconByte(tag, input, start, |cur|, prev, dR, i);
    var left := if i >= dR then row[i - dR] else 0;
    var upLeft := if i >= dR then prev[i - dR] else 0;
    var leftF := if i >= dF then cur[i - dF] else 0;
    var upLeftF := if i >= dF then prev[i - dF] else 0;
    if dF == dR {
      if i >= dR {
        RowByteRoundTrip(tag, cur, prev, dF, dR, input, start, i - dR);
      }
      assert left == leftF;
    } else {
      PredictIgnoresLeft(tag, left, leftF, prev[i], upLeft, upLeftF);
    }
    var p := Predict(tag, leftF, prev[i], upLeftF);
    assert input[start + i] == ToUint8(Residual(tag, cur, prev, i, dF));
    assert Residual(tag, cur, prev, i, dF) == cur[i] as int - p;
    ModBack(cur[i], p);
  }

  lemma RowRoundTrip(tag: FilterTag, cur: seq<byte>, prev: seq<byte>, dF: nat, dR: nat, input: seq<byte>, start: nat)
    requires |prev| == |cur| && dR >= 1 && start + |cur| <= |input|
    requires dF == dR || tag == FilterNone || tag == FilterUp
    requires input[start..start + |cur|] == Residuals(tag, cur, prev, dF)
    ensures Recon(tag, input, start, |cur|, prev, dR) == cur
  {
    var row := Recon(tag, input, start, |cur|, prev, dR);
    forall x | 0 <= x < |cur|
      ensures input[start + x] == ToUint8(Residual(tag, cur, prev, x, dF))
    {
      assert input[start..start + |cur|][x] == input[start + x];
    }
    forall i | 0 <= i < |cur|
      ensures row[i] == cur[i]
    {
      RowByteRoundTrip(tag, cur, prev, dF, dR, input, start, i);
    }
  }

  /** The row above, read back from the rebuilt prefix of the image, is the
      pixel row above. */
  lemma PriorOfPixels(px: seq<byte>, L: nat, y: nat)
    requires Times(y, L) + L <= |px|
    ensures Times(y, L) <= |px| && PriorOf(px[..Times(y, L)], L, y) == PriorRow(px, L, y)
  {
    if y > 0 {
      var above := Times(y - 1, L);
      assert Times(y, L) == above + L;
      SliceOfPrefix(px, above, above + L);
    }
  }

  /** The tail of a prefix is a slice. */
  lemma SliceOfPrefix(s: seq<byte>, i: nat, j: nat)
    requires i <= j <= |s|
    ensures s[..j][i..] == s[i..j]
  {
  }

  /** Row y of the filter output sits at `pos = y * (L + 1)`. */
  lemma {:induction false} FilteredRowAt(px: seq<byte>, L: nat, fts: seq<FilterTag>, d: nat, h: nat, y: nat) returns (pos: nat)
    requires Times(h, L) <= |px| && y < h
    ensures pos == Times(y, L + 1) && Times(y, L) + L <= |px|
    ensures pos + 1 + L <= |FilterRows(px, L, fts, d, h)|
    ensures var cur := PixelRow(px, L, y);
      var prev := PriorRow(px, L, y);
      FilterRows(px, L, fts, d, h)[pos..pos + 1 + L] == FilteredRow(Choice(fts, cur, prev, d), cur, prev, d)
  {
    TimesMono(h, y + 1, L);
    pos := Times(y, L + 1);
    assert Times(y + 1, L + 1) == pos + (L + 1);
    FilterRowsPrefix(px, L, fts, d, y + 1, h);
    FilterRowsLast(px, L, fts, d, y + 1);
    SliceOfPrefix(FilterRows(px, L, fts, d, h), pos, pos + 1 + L);
  }

  /** The last of the first `n` rows of the filter output. */
  lemma FilterRowsLast(px: seq<byte>, L: nat, fts: seq<FilterTag>, d: nat, n: nat)
    requires n > 0 && Times(n, L) <= |px|
    ensures Times(n - 1, L + 1) <= |FilterRows(px, L, fts, d, n)|
    ensures var cur := PixelRow(px, L, n - 1);
      var prev := PriorRow(px, L, n - 1);
      FilterRows(px, L, fts, d, n)[Times(n - 1, L + 1)..] == FilteredRow(Choice(fts, cur, prev, d), cur, prev, d)
  {
    assert Times(n, L) == Times(n - 1, L) + L;
    var a := FilterRows(px, L, fts, d, n - 1);
    var cur := PixelRow(px, L, n - 1);
    var prev := PriorRow(px, L, n - 1);
    var row := FilteredRow(Choice(fts, cur, prev, d), cur, prev, d);
    assert FilterRows(px, L, fts, d, n) == a + row;
    AppendTail(a, row);
  }

  /** What follows a prefix is the appended part. */
  lemma AppendTail(a: seq<byte>, b: seq<byte>)
    ensures (a + b)[|a|..] == b
  {
  }

  /** A line whose tag and residuals were produced from `cur` and the row
      above `prev` de-filters to `cur`. */
  lemma LineStepOfResiduals(input: seq<byte>, pos: nat, L: nat, tag: FilterTag, cur: seq<byte>, prev: seq<byte>, dF: nat, dR: nat)
    requires |prev| == |cur| == L && dR >= 1 && pos + 1 + L <= |input|
    requires dF == dR || tag == FilterNone || tag == FilterUp
    requires input[pos..pos + 1 + L] == FilteredRow(tag, cur, prev, dF)
    ensures LineStep(input, L, dR, prev, pos) == Success((cur, pos + 1 + L))
  {
    var row := input[pos..pos + 1 + |cur|];
    assert input[pos] == row[0];
    assert input[pos + 1..pos + 1 + |cur|] == row[1..];
    RowRoundTrip(tag, cur, prev, dF, dR, input, pos + 1);
  }

  /** De-filtering line y of a filtered image, at `pos = y * (L + 1)`,
      reads its tag and residuals and rebuilds pixel row y. */
  lemma {:induction false} LineOfFiltered(px: seq<byte>, L: nat, fts: seq<FilterTag>, dF: nat, dR: nat, h: nat, y: nat)
    returns (pos: nat)
    requires Times(h, L) <= |px| && dR >= 1 && y < h
    requires dF == dR || forall i :: 0 <= i < |fts| ==> fts[i] == FilterNone || fts[i] == FilterUp
    ensures pos == Times(y, L + 1) && Times(y, L) + L <= |px|
    ensures LineStep(FilterRows(px, L, fts, dF, h), L, dR, PriorRow(px, L, y), pos)
         == Success((PixelRow(px, L, y), pos + 1 + L))
  {
    pos := FilteredRowAt(px, L, fts, dF, h, y);
    var cur := PixelRow(px, L, y);
    var prev := PriorRow(px, L, y);
    var k := ChoiceIsFirstMinimal(fts, cur, prev, dF);
    LineStepOfResiduals(FilterRows(px, L, fts, dF, h), pos, L, Choice(fts, cur, prev, dF), cur, prev, dF, dR);
  }

  /** De-filtering all `h` rows of a filtered image gives back the pixel
      rows, and leaves the cursor after them. */
  lemma {:induction false} LinesOfFiltered(px: seq<byte>, L: nat, fts: seq<FilterTag>, dF: nat, dR: nat, h: nat, input: seq<byte>)
    requires Times(h, L) <= |px| && dR >= 1 && input == FilterRows(px, L, fts, dF, h)
    requires dF == dR || forall i :: 0 <= i < |fts| ==> fts[i] == FilterNone || fts[i] == FilterUp
    ensures Lines(input, L, dR, h) == Success((px[..Times(h, L)], Times(h, L + 1)))
  {
    LinesOfFilteredEach(px, L, fts, dF, dR, h, input);
    LinesOfRows(input, px, L, dR, h);
  }

  /** LineOfFiltered for every row of the image at once. */
  lemma LinesOfFilteredEach(px: seq<byte>, L: nat, fts: seq<FilterTag>, dF: nat, dR: nat, h: nat, input: seq<byte>)
    requires Times(h, L) <= |px| && dR >= 1 && input == FilterRows(px, L, fts, dF, h)
    requires dF == dR || forall i :: 0 <= i < |fts| ==> fts[i] == FilterNone || fts[i] == FilterUp
    ensures forall y {:trigger LineStep(input, L, dR, PriorRow(px, L, y), Times(y, L + 1))} :: 0 <= y < h && Times(y, L) + L <= |px| ==>
      LineStep(input, L, dR, PriorRow(px, L, y), Times(y, L + 1)) == Success((PixelRow(px, L, y), Times(y, L + 1) + 1 + L))
  {
    forall y {:trigger LineStep(input, L, dR, PriorRow(px, L, y), Times(y, L + 1))} | 0 <= y < h && Times(y, L) + L <= |px|
      ensures LineStep(input, L, dR, PriorRow(px, L, y), Times(y, L + 1)) == Success((PixelRow(px, L, y), Times(y, L + 1) + 1 + L))
    {
      var pos := LineOfFiltered(px, L, fts, dF, dR, h, y);
    }
  }

  /** When each of the first `n` lines of `input` gives back the pixel row
      of its index, the first `n` lines give back the first `n` rows and
      leave the cursor after them. */
  lemma {:induction false} LinesOfRows(input: seq<byte>, px: seq<byte>, L: nat, d: nat, n: nat)
    requires d >= 1 && Times(n, L) <= |px|
    requires forall y {:trigger LineStep(input, L, d, PriorRow(px, L, y), Times(y, L + 1))} :: 0 <= y < n && Times(y, L) + L <= |px| ==>
      LineStep(input, L, d, PriorRow(px, L, y), Times(y, L + 1)) == Success((PixelRow(px, L, y), Times(y, L + 1) + 1 + L))
    ensures Lines(input, L, d, n) == Success((px[..Times(n, L)], Times(n, L + 1)))
    decreases n
  {
    if n > 0 {
      var y := n - 1;
      assert Times(n, L) == Times(y, L) + L;
      LinesOfRows(input, px, L, d, y);
      PriorOfPixels(px, L, y);
      LinesOfRowsSucc(input, px, L, d, y, Times(y, L + 1));
    } else {
      assert px[..Times(0, L)] == [];
    }
  }

  /** With one left distance on both sides, the filter output of any
      filterTypes list de-filters to the pixel rows. */
  lemma RoundTripMatchingDistance(px: seq<byte>, L: nat, fts: seq<FilterTag>, d: nat, h: nat)
    requires Times(h, L) <= |px| && d >= 1
    ensures Lines(FilterRows(px, L, fts, d, h), L, d, h) == Success((px[..Times(h, L)], Times(h, L + 1)))
  {
    LinesOfFiltered(px, L, fts, d, d, h, FilterRows(px, L, fts, d, h));
  }

  /** As written (filter left distance 4, de-filter left distance 1), an
      image of bit depth 8, whose Filter rows of `width * bpp` bytes are its
      scanlines (ScanLineAtDepth8), filtered with filterTypes drawn from None
      and Up, comes back unchanged from ReverseFilter. */
  lemma RoundTripAsWritten(px: seq<byte>, ihdr: IhdrRecord, fts: seq<FilterTag>)
    requires ihdr.depth == 8 && IsColorType(ihdr.colorType)
    requires Times(ihdr.height, ihdr.width * SamplesPerPixel(ihdr.colorType).value) <= |px|
    requires forall i :: 0 <= i < |fts| ==> fts[i] == FilterNone || fts[i] == FilterUp
    ensures var rowLength := ihdr.width * SamplesPerPixel(ihdr.colorType).value;
      Unfilter(FilterRows(px, rowLength, fts, ForwardDistance, ihdr.height), ihdr) == Success(px[..Times(ihdr.height, rowLength)])
  {
    var rowLength := ihdr.width * SamplesPerPixel(ihdr.colorType).value;
    ScanLineAtDepth8(ihdr);
    LinesOfFiltered(px, rowLength, fts, ForwardDistance, ReverseDistance, ihdr.height,
                    FilterRows(px, rowLength, fts, ForwardDistance, ihdr.height));
  }

  /** As written, Sub does not round-trip: a 2-pixel greyscale row [10, 20]
      filters to [1, 10, 20] (nothing lies four bytes to the left) and
      de-filters to [10, 30]. */
  lemma SubDoesNotRoundTrip()
    ensures var ihdr := IhdrRecord(2, 1, 8, 0, 0, 0, 0);
      var filtered := FilterRows([10, 20], 2, [FilterSub], ForwardDistance, 1);
      filtered == [1, 10, 20] && Unfilter(filtered, ihdr) == Success([10, 30])
  {
    SubFiltersAsWritten();
    SubUnfiltersAsWritten();
  }

  /** The forward half: with nothing four bytes to the left, Sub keeps the
      bytes. */
  lemma SubFiltersAsWritten()
    ensures FilterRows([10, 20], 2, [FilterSub], ForwardDistance, 1) == [1, 10, 20]
  {
    var px: seq<byte> := [10, 20];
    var cur := PixelRow(px, 2, 0);
    assert cur == px;
    var prev := PriorRow(px, 2, 0);
    assert Choice([FilterSub], cur, prev, ForwardDistance) == FilterSub;
    var row := FilteredRow(FilterSub, cur, prev, ForwardDistance);
    assert row[1] == 10 && row[2] == 20;
    assert row == [1, 10, 20];
    assert FilterRows(px, 2, [FilterSub], ForwardDistance, 1) == [] + row;
  }

  /** The reverse half: Sub adds the byte one to the left. */
  lemma SubUnfiltersAsWritten()
    ensures Unfilter([1, 10, 20], IhdrRecord(2, 1, 8, 0, 0, 0, 0)) == Success([10, 30])
  {
    var ihdr := IhdrRecord(2, 1, 8, 0, 0, 0, 0);
    ScanLineAtDepth8(ihdr);
    assert ScanLineByteLength(ihdr) == Success(2);
    var filtered: seq<byte> := [1, 10, 20];
    var zeros := Zeros(2);
    var r := SubRowAsWritten(filtered, zeros);
    assert PriorOf([], 2, 0) == zeros;
    assert LineStep(filtered, 2, ReverseDistance, zeros, 0) == Success((r, 3));
    assert Lines(filtered, 2, ReverseDistance, 0) == Success(([], 0));
    assert Lines(filtered, 2, ReverseDistance, 1) == Success(([] + r, 3));
    assert [] + r == r;
  }

  /** The row Sub rebuilds from [10, 20] over a zero row. */
  lemma SubRowAsWritten(filtered: seq<byte>, zeros: seq<byte>) returns (r: seq<byte>)
    requires filtered == [1, 10, 20] && zeros == Zeros(2)
    ensures r == Recon(FilterSub, filtered, 1, 2, zeros, ReverseDistance) && r == [10, 30]
  {
    assert zeros[0] == 0 && zeros[1] == 0;
    r := Recon(FilterSub, filtered, 1, 2, zeros, ReverseDistance);
    ReconByte(FilterSub, filtered, 1, 2, zeros, ReverseDistance, 0);
    ReconByte(FilterSub, filtered, 1, 2, zeros, ReverseDistance, 1);
    assert r[0] == 10;
    assert r[1] == 30;
  }

  // ---------------------------------------------------------------------
  // ReverseFilter

  /** The neighbours `_reverseFilterLine` reads while rebuilding byte i of
      row `line` in place: the byte to the left is the rebuilt byte i - 1,
      and the bytes above and above-left are those of the row above as it
      was before the row was started. */
  lemma Neighbours(current: seq<byte>, before: seq<byte>, rowPos: nat, L: nat, line: nat, i: nat, row: seq<byte>, prior: seq<byte>)
    requires rowPos == Times(line, L) && rowPos + L <= |before| && i < L && |row| == i
    requires current == before[..rowPos] + row + before[rowPos + i..]
    requires prior == PriorOf(before[..rowPos], L, line)
    ensures i > 0 ==> rowPos + i - 1 < |current| && current[rowPos + i - 1] == row[i - 1]
    ensures line > 0 ==> 0 <= rowPos - L + i < |current| && current[rowPos - L + i] == prior[i]
    ensures i > 0 && line > 0 ==> 0 <= rowPos - L - 1 + i < |current| && current[rowPos - L - 1 + i] == prior[i - 1]
    ensures line == 0 ==> prior[i] == 0 && (i > 0 ==> prior[i - 1] == 0)
  {
  }

  /** One line of the ReverseFilter constructor's loop, on the whole of
      `outData`: with the rows above rebuilt and the rows from `line` on
      still zero, storing the line as `_reverseFilterLine` does extends the
      rebuilt rows by one and keeps the rest zero; a failing line makes
      the run of lines fail. */
  lemma RowStored(input: seq<byte>, L: nat, height: nat, line: nat, rows: seq<byte>, before: seq<byte>, after: seq<byte>,
                   pos: nat, r: Outcome<Error>, offset: int)
    returns (next: seq<byte>)
    requires line < height && |before| == |after| == Times(height, L) && Times(line, L) + L <= |before|
    requires Lines(input, L, ReverseDistance, line) == Success((rows, pos))
    requires |rows| <= |before| && before == rows + Zeros(|before| - |rows|)
    requires var rowPos := Times(line, L);
      var step := LineStep(input, L, ReverseDistance, PriorOf(before[..rowPos], L, line), pos);
      && (r.Pass? <==> step.Success?)
      && (r.Fail? ==> r.error == step.error)
      && (r.Pass? ==> offset == step.value.1)
      && (r.Pass? && input[pos] <= 4 ==> after == before[..rowPos] + step.value.0 + before[rowPos + L..])
      && (r.Pass? && input[pos] > 4 ==> after == before)
    ensures r.Fail? ==> Lines(input, L, ReverseDistance, line + 1) == Failure(r.error)
    ensures r.Pass? ==> Lines(input, L, ReverseDistance, line + 1) == Success((next, offset))
    ensures r.Pass? ==> |next| <= |after| && after == next + Zeros(|after| - |next|)
  {
    var m := |before| - |rows|;
    PaddedPrefix(rows, m);
    var step := LineStep(input, L, ReverseDistance, PriorOf(rows, L, line), pos);
    next := rows;
    if r.Pass? {
      LinesSucc(input, L, ReverseDistance, line, rows, pos, step.value.0, step.value.1);
      if input[pos] <= 4 {
        PaddedSplice(rows, step.value.0, m);
      } else {
        PaddedSkip(rows, L, m);
      }
      next := rows + step.value.0;
    }
  }

  /** The rows rebuilt so far are the prefix of the padded array. */
  lemma PaddedPrefix(rows: seq<byte>, m: nat)
    ensures (rows + Zeros(m))[..|rows|] == rows
  {
  }

  /** Storing the next row over the zeros after the rows rebuilt so far. */
  lemma PaddedSplice(rows: seq<byte>, row: seq<byte>, m: nat)
    requires |row| <= m
    ensures (rows + Zeros(m))[..|rows|] + row + (rows + Zeros(m))[|rows| + |row|..] == (rows + row) + Zeros(m - |row|)
  {
    assert (rows + Zeros(m))[|rows| + |row|..] == Zeros(m - |row|);
  }

  /** Skipping a row leaves its zeros in place. */
  lemma PaddedSkip(rows: seq<byte>, L: nat, m: nat)
    requires L <= m
    ensures rows + Zeros(m) == (rows + Zeros(L)) + Zeros(m - L)
  {
  }

  /** Storing the next byte of a row that is being rebuilt in place. */
  lemma Splice(before: seq<byte>, at: nat, i: nat, row: seq<byte>, b: byte)
    requires |row| == i && at + i < |before|
    ensures (before[..at] + row + before[at + i..])[at + i := b] == before[..at] + (row + [b]) + before[at + (i + 1)..]
  {
  }

  /** `ReverseFilter`: the de-filtered image `outData`, `height` rows of
      `scanLineByteLength` bytes, filled row by row from a legacy cursor. */
  class ReverseFilter {
    const scanLineByteLength: nat
    const height: nat
    const outData: array<byte>

    /** The allocation `new Uint8Array(height * scanLineByteLength)`: all
        zeros. */
    constructor Init(scanLineByteLength: nat, height: nat)
      ensures this.scanLineByteLength == scanLineByteLength && this.height == height
      ensures fresh(outData) && outData[..] == Zeros(Times(height, scanLineByteLength))
    {
      this.scanLineByteLength := scanLineByteLength;
      this.height := height;
      outData := new byte[Times(height, scanLineByteLength)](_ => 0);
    }

    /** `new ReverseFilter(inData, IHDR)`: computes the scanline length
        (throwing for an unknown colour type), allocates `outData` and
        rebuilds the lines top to bottom from a legacy cursor over the whole
        of `inData`. The result is the de-filtered image of Unfilter, and
        fails exactly when Unfilter does, with the same error. */
    static method Create(inData: seq<byte>, ihdr: IhdrRecord) returns (r: Result<ReverseFilter, Error>)
      ensures r.Failure? <==> Unfilter(inData, ihdr).Failure?
      ensures r.Failure? ==> r.error == Unfilter(inData, ihdr).error
      ensures r.Success? ==> fresh(r.value.outData) && r.value.outData[..] == Unfilter(inData, ihdr).value
    {
      var lineLength := ScanLineByteLength(ihdr);
      if lineLength.Failure? {
        return Failure(lineLength.error);
      }
      var L := lineLength.value;
      var f := new ReverseFilter.Init(L, ihdr.height as nat);
      var o := f.ReverseFilterLines(inData);
      TimesIsProduct(ihdr.height as nat, L);
      if o.Fail? {
        return Failure(o.error);
      }
      r := Success(f);
    }

    /** The constructor's loop over the lines, from a fresh legacy cursor
        over the whole of `inData` into the all-zero `outData`. */
    method ReverseFilterLines(inData: seq<byte>) returns (r: Outcome<Error>)
      requires outData.Length == Times(height, scanLineByteLength)
      requires forall k :: 0 <= k < outData.Length ==> outData[k] == 0
      modifies outData
      ensures var lines := Lines(inData, scanLineByteLength, ReverseDistance, height);
        && (r.Fail? <==> lines.Failure?)
        && (r.Fail? ==> r.error == lines.error)
        && (r.Pass? ==> outData[..] == lines.value.0)
    {
      var stream := new LegacyStreams.DataViewStream(inData, View(0, |inData|), None, None);
      assert stream.Contents() == inData;
      r := RunLines(inData, stream);
    }

    /** The loop itself, over a cursor at offset 0 of `inData`. */
    method RunLines(inData: seq<byte>, stream: LegacyStreams.DataViewStream) returns (r: Outcome<Error>)
      requires outData.Length == Times(height, scanLineByteLength)
      requires forall k :: 0 <= k < outData.Length ==> outData[k] == 0
      requires stream.Valid() && stream.Contents() == inData && stream.currentOffset == 0
      modifies outData, stream
      ensures var lines := Lines(inData, scanLineByteLength, ReverseDistance, height);
        && (r.Fail? <==> lines.Failure?)
        && (r.Fail? ==> r.error == lines.error)
        && (r.Pass? ==> outData[..] == lines.value.0)
    {
      var L := scanLineByteLength;
      var line := 0;
      ghost var rows: seq<byte> := [];
      AllZeros(outData[..]);
      while line < height
        invariant 0 <= line <= height && stream.Valid() && stream.Contents() == inData
        invariant Lines(inData, L, ReverseDistance, line) == Success((rows, stream.currentOffset))
        invariant |rows| <= outData.Length && outData[..] == rows + Zeros(outData.Length - |rows|)
        invariant stream.currentOffset >= 0
        modifies outData, stream
      {
        var o;
        o, rows := AdvanceLine(line, stream, rows);
        if o.Fail? {
          LinesFailureSticks(inData, L, ReverseDistance, line + 1, height);
          return o;
        }
        line := line + 1;
      }
      assert rows + Zeros(0) == rows;
      r := Pass;
    }

    /** One iteration of the constructor's loop, `_reverseFilterLine` on
        line `line`: when `outData` holds the rows Lines has rebuilt so far
        and zeros after them, afterwards it holds one more row (`next`) and
        zeros after it, or the run of lines fails with the error the call
        throws. */
    method AdvanceLine(line: nat, s: LegacyStreams.DataViewStream, ghost rows: seq<byte>) returns (r: Outcome<Error>, ghost next: seq<byte>)
      requires s.Valid() && s.currentOffset >= 0 && line < height
      requires outData.Length == Times(height, scanLineByteLength)
      requires Lines(s.Contents(), scanLineByteLength, ReverseDistance, line) == Success((rows, s.currentOffset))
      requires |rows| <= outData.Length && outData[..] == rows + Zeros(outData.Length - |rows|)
      modifies outData, s
      ensures r.Fail? ==> Lines(s.Contents(), scanLineByteLength, ReverseDistance, line + 1) == Failure(r.error)
      ensures r.Pass? ==> Lines(s.Contents(), scanLineByteLength, ReverseDistance, line + 1) == Success((next, s.currentOffset))
      ensures r.Pass? ==> |next| <= outData.Length && outData[..] == next + Zeros(outData.Length - |next|)
    {
      TimesMono(height, line + 1, scanLineByteLength);
      ghost var L := scanLineByteLength;
      ghost var before := outData[..];
      ghost var pos: nat := s.currentOffset;
      r := ReverseFilterLine(line, s);
      next := RowStored(s.Contents(), L, height, line, rows, before, outData[..], pos, r, s.currentOffset);
    }

    /** `_reverseFilterLine(line, unfilteredStream)`: reads the tag and, for
        tags 0..4, rebuilds row `line` in place from the bytes the cursor
        yields and the row above in `outData`; an unknown tag leaves
        `outData` alone. A read past the end throws (RangeError). Only row
        `line` of `outData` changes. */
    method ReverseFilterLine(line: nat, s: LegacyStreams.DataViewStream) returns (r: Outcome<Error>)
      requires s.Valid() && s.currentOffset >= 0 && line < height
      requires outData.Length == Times(height, scanLineByteLength)
      modifies outData, s
      ensures Times(line, scanLineByteLength) + scanLineByteLength <= outData.Length
      ensures var L := scanLineByteLength;
        var rowPos := Times(line, L);
        var input := s.Contents();
        var pos := old(s.currentOffset);
        var step := LineStep(input, L, ReverseDistance, PriorOf(old(outData[..rowPos]), L, line), pos);
        && (r.Pass? <==> step.Success?)
        && (r.Fail? ==> r.error == step.error)
        && (r.Pass? ==> s.currentOffset == step.value.1)
        && (r.Pass? && input[pos] <= 4 ==>
              outData[..] == old(outData[..])[..rowPos] + step.value.0 + old(outData[..])[rowPos + L..])
        && (r.Pass? && input[pos] > 4 ==> outData[..] == old(outData[..]))
    {
      TimesMono(height, line + 1, scanLineByteLength);
      var filter := s.GetUint8();
      if filter.Failure? {
        return Fail(filter.error);
      }
      if filter.value > 4 {
        return Pass;
      }
      r := ReconstructRow(line, filter.value, s);
    }

    /** The loop of `_reverseFilterLine` for a known tag: byte i of the row
        is the next input byte plus the prediction from the byte to its left
        (already rebuilt), the byte above and the byte above-left, stored
        modulo 256. */
    method ReconstructRow(line: nat, tag: FilterTag, s: LegacyStreams.DataViewStream) returns (r: Outcome<Error>)
      requires s.Valid() && 0 <= s.currentOffset <= |s.Contents()| && line < height
      requires outData.Length == Times(height, scanLineByteLength)
      modifies outData, s
      ensures Times(line, scanLineByteLength) + scanLineByteLength <= outData.Length
      ensures var L := scanLineByteLength;
        var rowPos := Times(line, L);
        var input := s.Contents();
        var pos := old(s.currentOffset);
        && (r.Pass? <==> pos + L <= |input|)
        && (r.Fail? ==> r.error == RangeError)
        && (r.Pass? ==> s.currentOffset == pos + L)
        && (r.Pass? ==> outData[..] == old(outData[..])[..rowPos]
                                       + Recon(tag, input, pos, L, PriorOf(old(outData[..rowPos]), L, line), ReverseDistance)
                                       + old(outData[..])[rowPos + L..])
    {
      var L := scanLineByteLength;
      TimesMono(height, line + 1, L);
      var rowPos := Times(line, L);
      ghost var input := s.Contents();
      ghost var pos: nat := s.currentOffset;
      ghost var before := outData[..];
      ghost var prior := PriorOf(before[..rowPos], L, line);
      r := RebuildRow(line, tag, s, input, pos, before, prior);
    }

    /** The loop over the bytes of row `line`, from the cursor at `pos`. */
    method RebuildRow(line: nat, tag: FilterTag, s: LegacyStreams.DataViewStream,
                      ghost input: seq<byte>, ghost pos: nat, ghost before: seq<byte>, ghost prior: seq<byte>)
      returns (r: Outcome<Error>)
      requires s.Valid() && s.Contents() == input && s.currentOffset == pos && pos <= |input|
      requires line < height
      requires outData.Length == |before| == Times(height, scanLineByteLength)
      requires Times(line, scanLineByteLength) + scanLineByteLength <= |before|
      requires prior == PriorOf(before[..Times(line, scanLineByteLength)], scanLineByteLength, line)
      requires outData[..] == before
      modifies outData, s
      ensures r.Pass? <==> pos + scanLineByteLength <= |input|
      ensures r.Fail? ==> r.error == RangeError
      ensures r.Pass? ==> s.currentOffset == pos + scanLineByteLength
      ensures r.Pass? ==> outData[..] == before[..Times(line, scanLineByteLength)]
                                         + Recon(tag, input, pos, scanLineByteLength, prior, ReverseDistance)
                                         + before[Times(line, scanLineByteLength) + scanLineByteLength..]
    {
      var L := scanLineByteLength;
      ghost var rowPos := Times(line, L);
      assert Recon(tag, input, pos, 0, prior, ReverseDistance) == [];
      assert before == before[..rowPos] + [] + before[rowPos..];
      var i := 0;
      while i < L
        invariant 0 <= i <= L && s.Valid() && s.Contents() == input
        invariant s.currentOffset == pos + i
        invariant pos + i <= |input|
        invariant outData[..] == before[..rowPos] + Recon(tag, input, pos, i, prior, ReverseDistance) + before[rowPos + i..]
      {
        r := RebuildNext(line, tag, i, s, input, pos, before, prior);
        if r.Fail? {
          return;
        }
        i := i + 1;
      }
      r := Pass;
    }

    /** One iteration of that loop: read the next filtered byte, which is a
        RangeError past the end of the input, and rebuild byte i from it. */
    method RebuildNext(line: nat, tag: FilterTag, i: nat, s: LegacyStreams.DataViewStream,
                       ghost input: seq<byte>, ghost pos: nat, ghost before: seq<byte>, ghost prior: seq<byte>)
      returns (r: Outcome<Error>)
      requires s.Valid() && s.Contents() == input && s.currentOffset == pos + i && pos + i <= |input|
      requires line < height && i < scanLineByteLength
      requires outData.Length == |before| == Times(height, scanLineByteLength)
      requires Times(line, scanLineByteLength) + scanLineByteLength <= |before|
      requires prior == PriorOf(before[..Times(line, scanLineByteLength)], scanLineByteLength, line)
      requires outData[..] == before[..Times(line, scanLineByteLength)]
                              + Recon(tag, input, pos, i, prior, ReverseDistance)
                              + before[Times(line, scanLineByteLength) + i..]
      modifies outData, s
      ensures s.Valid() && s.Contents() == input
      ensures r.Pass? <==> pos + i < |input|
      ensures r.Fail? ==> r.error == RangeError
      ensures r.Pass? ==> s.currentOffset == pos + (i + 1)
      ensures r.Pass? ==> outData[..] == before[..Times(line, scanLineByteLength)]
                                         + Recon(tag, input, pos, i + 1, prior, ReverseDistance)
                                         + before[Times(line, scanLineByteLength) + (i + 1)..]
    {
      var v := s.GetUint8();
      if v.Failure? {
        return Fail(v.error);
      }
      RebuildByte(line, tag, i, v.value, input, pos, before, prior);
      r := Pass;
    }

    /** One iteration of that loop: byte i of row `line` becomes `v` plus
        the prediction from its neighbours in `outData`, which extends the
        rebuilt prefix of the row by one byte. */
    method RebuildByte(line: nat, tag: FilterTag, i: nat, v: byte,
                       ghost input: seq<byte>, ghost pos: nat, ghost before: seq<byte>, ghost prior: seq<byte>)
      requires line < height && i < scanLineByteLength && pos + i < |input| && v == input[pos + i]
      requires outData.Length == |before| == Times(height, scanLineByteLength)
      requires Times(line, scanLineByteLength) + scanLineByteLength <= |before|
      requires prior == PriorOf(before[..Times(line, scanLineByteLength)], scanLineByteLength, line)
      requires outData[..] == before[..Times(line, scanLineByteLength)]
                              + Recon(tag, input, pos, i, prior, ReverseDistance)
                              + before[Times(line, scanLineByteLength) + i..]
      modifies outData
      ensures outData[..] == before[..Times(line, scanLineByteLength)]
                             + Recon(tag, input, pos, i + 1, prior, ReverseDistance)
                             + before[Times(line, scanLineByteLength) + (i + 1)..]
    {
      var L := scanLineByteLength;
      var rowPos := Times(line, L);
      ghost var row := Recon(tag, input, pos, i, prior, ReverseDistance);
      Neighbours(outData[..], before, rowPos, L, line, i, row, prior);
      var left := if i > 0 then outData[rowPos + i - 1] else 0;
      var up := if line > 0 then outData[rowPos - L + i] else 0;
      var upLeft := if i > 0 && line > 0 then outData[rowPos as int - L - 1 + i] else 0;
      var b: byte := (v + Predict(tag, left, up, upLeft)) % 0x100;
      ReconSucc(tag, input, pos, i, prior, ReverseDistance, left, upLeft, b);
      Splice(before, rowPos, i, row, b);
      ghost var current := outData[..];
      outData[rowPos + i] := b;
      assert outData[..] == current[rowPos + i := b];
    }
  }

  // ---------------------------------------------------------------------
  // Filter

  /** The `filterTypes` default of the Filter constructor. */
  const DefaultFilterTypes: seq<FilterTag> := [FilterNone, FilterSub, FilterUp, FilterAvg, FilterPaeth]

  /** Byte x + 1 of a filtered row is the residual of pixel byte x. */
  lemma FilteredRowByte(tag: FilterTag, cur: seq<byte>, prev: seq<byte>, d: nat, x: nat)
    requires |prev| == |cur| && x < |cur|
    ensures FilteredRow(tag, cur, prev, d)[x + 1] == ToUint8(Residual(tag, cur, prev, x, d))
  {
    var row := FilteredRow(tag, cur, prev, d);
    assert row[x + 1] == row[1..][x];
  }

  /** Writing the next byte of a row wherever it sits in an array. */
  lemma SpliceTake(before: seq<byte>, at: nat, row: seq<byte>, k: nat)
    requires k < |row| && at + |row| <= |before|
    ensures (before[..at] + row[..k] + before[at + k..])[at + k := row[k]] == before[..at] + row[..k + 1] + before[at + (k + 1)..]
  {
    assert row[..k + 1] == row[..k] + [row[k]];
  }

  /** The bytes of pixel row y, and of the row above, at the offsets
      `_filterX` reads them from. */
  lemma RowBytes(px: seq<byte>, rowLen: nat, y: nat, x: nat)
    requires Times(y, rowLen) + rowLen <= |px| && x < rowLen
    ensures PixelRow(px, rowLen, y)[x] == px[Times(y, rowLen) + x]
    ensures y > 0 ==> Times(y, rowLen) >= rowLen && PriorRow(px, rowLen, y)[x] == px[Times(y, rowLen) - rowLen + x]
    ensures y == 0 ==> PriorRow(px, rowLen, y)[x] == 0
  {
    if y > 0 {
      var above := Times(y - 1, rowLen);
      assert Times(y, rowLen) == above + rowLen;
      assert PriorRow(px, rowLen, y) == px[above..above + rowLen];
    }
  }

  /** One row of `filter()`'s loop: with the first y rows written as
      FilterRows says, writing row y at its place gives the first y + 1. */
  lemma FilterRowsSucc(px: seq<byte>, rowLen: nat, fts: seq<FilterTag>, d: nat, y: nat, tag: FilterTag, row: seq<byte>,
                        before: seq<byte>, after: seq<byte>)
    requires Times(y + 1, rowLen) <= |px| && |before| == |after| && Times(y + 1, rowLen + 1) <= |before|
    requires before[..Times(y, rowLen + 1)] == FilterRows(px, rowLen, fts, d, y)
    requires tag == Choice(fts, PixelRow(px, rowLen, y), PriorRow(px, rowLen, y), d)
    requires row == FilteredRow(tag, PixelRow(px, rowLen, y), PriorRow(px, rowLen, y), d)
    requires after == before[..Times(y, rowLen + 1)] + row + before[Times(y, rowLen + 1) + (rowLen + 1)..]
    ensures after[..Times(y + 1, rowLen + 1)] == FilterRows(px, rowLen, fts, d, y + 1)
  {
    assert after[..Times(y + 1, rowLen + 1)] == before[..Times(y, rowLen + 1)] + row;
  }

  /** The forward filter: `width * Bpp` bytes per row, `height` rows of
      pixel bytes in `data`, and the candidate filter types. */
  class Filter {
    const width: nat
    const height: nat
    const bpp: nat
    /** The bytes of a pixel row, `_width * _Bpp`. */
    const rowLength: nat
    const data: seq<byte>
    const filterTypes: seq<FilterTag>

    /** The pixel data spans the rows the filter reads. */
    predicate Valid()
    {
      Times(height, rowLength) <= |data|
    }

    /** `new Filter(IHDR, inData, filterTypes)`: `_Bpp` is the sample count
        of the colour type (`colorTypeToBppMap`). */
    constructor (ihdr: Ihdr, inData: seq<byte>, filterTypes: seq<FilterTag>)
      requires ihdr.width >= 0 && ihdr.height >= 0 && SamplesPerPixel(ihdr.colorType).Some?
      ensures width == ihdr.width && height == ihdr.height && bpp == SamplesPerPixel(ihdr.colorType).value
      ensures rowLength == width * bpp
      ensures data == inData && this.filterTypes == filterTypes
    {
      width := ihdr.width;
      height := ihdr.height;
      bpp := SamplesPerPixel(ihdr.colorType).value;
      rowLength := ihdr.width * SamplesPerPixel(ihdr.colorType).value;
      data := inData;
      this.filterTypes := filterTypes;
    }

    /** `_filterX(pxData, y, null)`: the sum of the absolute residuals of
        row y under filter type `tag`. */
    method LineSum(tag: FilterTag, y: nat) returns (sum: nat)
      requires Valid() && y < height
      ensures Times(y, rowLength) + rowLength <= |data|
      ensures sum == RowCost(tag, PixelRow(data, rowLength, y), PriorRow(data, rowLength, y), ForwardDistance)
    {
      var rowLen := rowLength;
      TimesMono(height, y + 1, rowLen);
      ghost var cur := PixelRow(data, rowLen, y);
      ghost var prev := PriorRow(data, rowLen, y);
      sum := 0;
      var x := 0;
      while x < rowLen
        invariant 0 <= x <= rowLen
        invariant sum == Cost(tag, cur, prev, ForwardDistance, x)
      {
        var val := Residue(tag, y, x);
        sum := sum + Abs(val);
        x := x + 1;
      }
    }

    /** The value `_filterX` computes for byte x of row y: the pixel byte
        less the prediction from the byte four to the left, the byte above
        and the byte above that, each 0 outside the image. */
    method Residue(tag: FilterTag, y: nat, x: nat) returns (val: int)
      requires Valid() && y < height && x < rowLength
      ensures Times(y, rowLength) + rowLength <= |data|
      ensures val == Residual(tag, PixelRow(data, rowLength, y), PriorRow(data, rowLength, y), x, ForwardDistance)
    {
      var rowLen := rowLength;
      TimesMono(height, y + 1, rowLen);
      var rowStart := Times(y, rowLen);
      RowBytes(data, rowLen, y, x);
      if x >= 4 {
        RowBytes(data, rowLen, y, x - 4);
      }
      var left := if x >= 4 then data[rowStart + x - 4] else 0;
      var up := if y > 0 then data[rowStart - rowLen + x] else 0;
      var upLeft := if x >= 4 && y > 0 then data[rowStart - rowLen + x - 4] else 0;
      val := data[rowStart + x] as int - Predict(tag, left, up, upLeft) as int;
    }

    /** `_filterX(pxData, y, rawData)`: writes the tag and then the residuals
        of row y, each modulo 256, at `y * (rowLength + 1)`; nothing else in
        `rawData` changes. */
    method WriteLine(tag: FilterTag, y: nat, rawData: array<byte>)
      requires Valid() && y < height && rawData.Length == Times(height, rowLength + 1)
      modifies rawData
      ensures Times(y, rowLength) + rowLength <= |data|
      ensures Times(y, rowLength + 1) + rowLength + 1 <= rawData.Length
      ensures var rowLen := rowLength;
        var at := Times(y, rowLen + 1);
        rawData[..] == old(rawData[..])[..at]
                       + FilteredRow(tag, PixelRow(data, rowLen, y), PriorRow(data, rowLen, y), ForwardDistance)
                       + old(rawData[..])[at + (rowLen + 1)..]
    {
      var rowLen := rowLength;
      TimesMono(height, y + 1, rowLen);
      TimesMono(height, y + 1, rowLen + 1);
      var at := Times(y, rowLen + 1);
      ghost var before := rawData[..];
      ghost var row := FilteredRow(tag, PixelRow(data, rowLen, y), PriorRow(data, rowLen, y), ForwardDistance);
      assert before == before[..at] + row[..0] + before[at + 0..];
      StoreByte(rawData, at, 0, tag, before, row);
      ghost var cur := PixelRow(data, rowLen, y);
      ghost var prev := PriorRow(data, rowLen, y);
      forall x | 0 <= x < rowLen
        ensures row[x + 1] == ToUint8(Residual(tag, cur, prev, x, ForwardDistance))
      {
        FilteredRowByte(tag, cur, prev, ForwardDistance, x);
      }
      WriteResiduals(tag, y, rawData, at, before, row, cur, prev);
      assert row[..rowLen + 1] == row;
    }

    /** The loop of `_filterX(pxData, y, rawData)` after the tag: the
        residual of each pixel byte, modulo 256, goes after the bytes
        already written. `cur` and `prev` are rows y and y - 1. */
    method WriteResiduals(tag: FilterTag, y: nat, rawData: array<byte>, at: nat,
                          ghost before: seq<byte>, ghost row: seq<byte>, ghost cur: seq<byte>, ghost prev: seq<byte>)
      requires Valid() && y < height && |row| == rowLength + 1 && at + |row| <= |before| == rawData.Length
      requires Times(y, rowLength) + rowLength <= |data|
      requires cur == PixelRow(data, rowLength, y) && prev == PriorRow(data, rowLength, y)
      requires forall x {:trigger Residual(tag, cur, prev, x, ForwardDistance)} ::
        0 <= x < rowLength ==> row[x + 1] == ToUint8(Residual(tag, cur, prev, x, ForwardDistance))
      requires rawData[..] == before[..at] + row[..0 + 1] + before[at + (0 + 1)..]
      modifies rawData
      ensures rawData[..] == before[..at] + row[..rowLength + 1] + before[at + (rowLength + 1)..]
    {
      var x := 0;
      while x < rowLength
        invariant 0 <= x <= rowLength
        invariant rawData[..] == before[..at] + row[..x + 1] + before[at + (x + 1)..]
      {
        assert row[x + 1] == ToUint8(Residual(tag, cur, prev, x, ForwardDistance));
        WriteResidual(tag, y, x, rawData, at, before, row, cur, prev);
        x := x + 1;
      }
    }

    /** One iteration of that loop: the residual of byte x goes to
        `at + 1 + x`. */
    method WriteResidual(tag: FilterTag, y: nat, x: nat, rawData: array<byte>, at: nat,
                         ghost before: seq<byte>, ghost row: seq<byte>, ghost cur: seq<byte>, ghost prev: seq<byte>)
      requires Valid() && y < height && x < rowLength && |row| == rowLength + 1 && at + |row| <= |before| == rawData.Length
      requires Times(y, rowLength) + rowLength <= |data|
      requires cur == PixelRow(data, rowLength, y) && prev == PriorRow(data, rowLength, y)
      requires row[x + 1] == ToUint8(Residual(tag, cur, prev, x, ForwardDistance))
      requires rawData[..] == before[..at] + row[..x + 1] + before[at + (x + 1)..]
      modifies rawData
      ensures rawData[..] == before[..at] + row[..x + 1 + 1] + before[at + (x + 1 + 1)..]
    {
      var val := Residue(tag, y, x);
      StoreByte(rawData, at, x + 1, ToUint8(val), before, row);
    }

    /** One store of `_filterX(pxData, y, rawData)`: byte k of the row
        that starts at `at`, after the k bytes already written. */
    static method StoreByte(rawData: array<byte>, at: nat, k: nat, b: byte, ghost before: seq<byte>, ghost row: seq<byte>)
      requires k < |row| && at + |row| <= |before| == rawData.Length && b == row[k]
      requires rawData[..] == before[..at] + row[..k] + before[at + k..]
      modifies rawData
      ensures rawData[..] == before[..at] + row[..k + 1] + before[at + (k + 1)..]
    {
      SpliceTake(before, at, row, k);
      ghost var current := rawData[..];
      rawData[at + k] := b;
      assert rawData[..] == current[at + k := row[k]];
    }

    /** The selection loop of `filter()` for row y: the first entry of
        `filterTypes` whose sum is strictly below every earlier one, starting
        from `min = Infinity` and `sel = 0`. */
    method SelectFilter(y: nat) returns (sel: FilterTag)
      requires Valid() && y < height
      ensures Times(y, rowLength) + rowLength <= |data|
      ensures sel == Choice(filterTypes, PixelRow(data, rowLength, y), PriorRow(data, rowLength, y), ForwardDistance)
    {
      var rowLen := rowLength;
      TimesMono(height, y + 1, rowLen);
      ghost var cur := PixelRow(data, rowLen, y);
      ghost var prev := PriorRow(data, rowLen, y);
      var min: Option<nat> := None;
      sel := FilterNone;
      var i := 0;
      while i < |filterTypes|
        invariant 0 <= i <= |filterTypes|
        invariant (sel, min) == SelectPrefix(filterTypes, cur, prev, ForwardDistance, i)
      {
        sel, min := ConsiderFilter(y, i, sel, min);
        i := i + 1;
      }
    }

    /** One iteration of that loop: entry i replaces the selection when its
        sum is strictly below the minimum so far. */
    method ConsiderFilter(y: nat, i: nat, sel: FilterTag, min: Option<nat>) returns (sel': FilterTag, min': Option<nat>)
      requires Valid() && y < height && i < |filterTypes| && Times(y, rowLength) + rowLength <= |data|
      requires (sel, min) == SelectPrefix(filterTypes, PixelRow(data, rowLength, y), PriorRow(data, rowLength, y), ForwardDistance, i)
      ensures (sel', min') == SelectPrefix(filterTypes, PixelRow(data, rowLength, y), PriorRow(data, rowLength, y), ForwardDistance, i + 1)
    {
      var sum := LineSum(filterTypes[i], y);
      SelectPrefixSucc(filterTypes, PixelRow(data, rowLength, y), PriorRow(data, rowLength, y), ForwardDistance, i, sum);
      sel', min' := sel, min;
      if min.None? || sum < min.value {
        sel' := filterTypes[i];
        min' := Some(sum);
      }
    }

    /** One iteration of `filter()`'s loop: choose the filter of row y and
        write the row; nothing else in `rawData` changes. */
    method FilterLine(y: nat, rawData: array<byte>) returns (ghost tag: FilterTag, ghost row: seq<byte>)
      requires Valid() && y < height && rawData.Length == Times(height, rowLength + 1)
      modifies rawData
      ensures Times(y + 1, rowLength) <= |data| && Times(y + 1, rowLength + 1) <= rawData.Length
      ensures tag == Choice(filterTypes, PixelRow(data, rowLength, y), PriorRow(data, rowLength, y), ForwardDistance)
      ensures row == FilteredRow(tag, PixelRow(data, rowLength, y), PriorRow(data, rowLength, y), ForwardDistance)
      ensures var at := Times(y, rowLength + 1);
        rawData[..] == old(rawData[..])[..at] + row + old(rawData[..])[at + (rowLength + 1)..]
    {
      var sel := SelectFilter(y);
      WriteLine(sel, y, rawData);
      TimesMono(height, y + 1, rowLength);
      TimesMono(height, y + 1, rowLength + 1);
      tag := sel;
      row := FilteredRow(tag, PixelRow(data, rowLength, y), PriorRow(data, rowLength, y), ForwardDistance);
    }

    /** One turn of `filter()`'s loop, as the loop sees it: the filtered
        prefix of `rawData` grows by row y. */
    method FilterStep(y: nat, rawData: array<byte>)
      requires Valid() && y < height && rawData.Length == Times(height, rowLength + 1)
      requires Times(y, rowLength + 1) <= rawData.Length && Times(y, rowLength) <= |data|
      requires rawData[..Times(y, rowLength + 1)] == FilterRows(data, rowLength, filterTypes, ForwardDistance, y)
      modifies rawData
      ensures Times(y + 1, rowLength + 1) <= rawData.Length && Times(y + 1, rowLength) <= |data|
      ensures rawData[..Times(y + 1, rowLength + 1)] == FilterRows(data, rowLength, filterTypes, ForwardDistance, y + 1)
    {
      ghost var before := rawData[..];
      ghost var tag, row := FilterLine(y, rawData);
      FilterRowsSucc(data, rowLength, filterTypes, ForwardDistance, y, tag, row, before, rawData[..]);
    }

    /** `filter()`: a fresh zero-filled buffer of `(width * Bpp + 1) * height`
        bytes, each row the tag of its chosen filter and the residuals. */
    method Filter() returns (rawData: array<byte>)
      requires Valid()
      ensures fresh(rawData) && rawData.Length == Times(height, rowLength + 1)
      ensures rawData[..] == FilterRows(data, rowLength, filterTypes, ForwardDistance, height)
    {
      rawData := new byte[RawLength(rowLength, height)](_ => 0);
      var y := 0;
      while y < height
        invariant 0 <= y <= height
        invariant Times(y, rowLength + 1) <= rawData.Length && Times(y, rowLength) <= |data|
        invariant rawData[..Times(y, rowLength + 1)] == FilterRows(data, rowLength, filterTypes, ForwardDistance, y)
      {
        FilterStep(y, rawData);
        y := y + 1;
      }
      assert rawData[..] == rawData[..Times(height, rowLength + 1)];
    }
  }

  /** The size of `filter()`'s buffer, `(rowLength + 1) * height`. */
  function RawLength(rowLength: nat, height: nat): (r: nat)
    ensures r == Times(height, rowLength + 1)
  {
    TimesIsProduct(height, rowLength + 1);
    (rowLength + 1) * height
  }
}
