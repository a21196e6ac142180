/** Chunk-set validation and metadata dispatch (src/parser/parser.ts). The
    inflate step is a parameter, and the three bitmap decoders, which are
    not part of this model, are recorded as the calls `parseChunks` makes. */
module Parser {
  import opened Bytes
  import opened Wrappers
  import opened Errors
  import opened DataViews
  import opened Utils
  import opened Colors
  import opened Chunks
  import opened IHDR
  import opened Palettes
  import opened ParserUtils
  import Constants
  import DecodeFilter

  /** The type codes the parser selects by. */
  function IdatCode(): u32 { Constants.ChunkType.IDAT.Code() }
  function PlteCode(): u32 { Constants.ChunkType.PLTE.Code() }
  function TrnsCode(): u32 { Constants.ChunkType.tRNS.Code() }
  function SpltCode(): u32 { Constants.ChunkType.sPLT.Code() }

  /** A chunk of this type is present. */
  predicate Has(chunks: seq<Chunk>, code: u32)
  {
    |GetChunksByType(chunks, code)| > 0
  }

  /** The streaming inflater: given the IDAT payloads in order it yields the
      decompressed bytes, or its error message. */
  type Inflater = seq<byte> -> Result<seq<byte>, string>

  /** `decodeGreyscale(IHDR, data, withAlpha)`, `decodeTrueColor(..)` and
      `decodeIndexed(IHDR, data, palette)`: the decoder a result asks for,
      with its arguments. */
  datatype DecoderCall =
    | DecodeGreyscale(info: IhdrRecord, data: seq<byte>, withAlpha: bool)
    | DecodeTrueColor(info: IhdrRecord, data: seq<byte>, withAlpha: bool)
    | DecodeIndexed(info: IhdrRecord, data: seq<byte>, palette: Palette)

  /** ParsedChunksData; an absent property is None. */
  datatype ParsedChunksData = ParsedChunksData(
    chunks: seq<Chunk>,
    info: IhdrRecord,
    palette: Option<Palette>,
    suggestedPalettes: Option<seq<Palette>>,
    singleTransparentColor: Option<TransparentColor>,
    bitmap: DecoderCall)

  // ---------------------------------------------------------------------
  // The helpers

  /** `parsePalette(IHDR, chunks)`: for indexed colour only, the first PLTE
      chunk with the first tRNS chunk. */
  function ParsePalette(info: IhdrRecord, chunks: seq<Chunk>): (r: Option<Palette>)
    ensures r.Some? <==> info.colorType == IndexedColor && Has(chunks, PlteCode())
    ensures r.Some? ==> r.value == PltePalette(info.Header().bitDepth, GetFirstChunkByType(chunks, PlteCode()).value.data,
                                               DataOf(GetFirstChunkByType(chunks, TrnsCode())))
  {
    if info.colorType != IndexedColor then None
    else
      match GetFirstChunkByType(chunks, PlteCode())
      case None => None
      case Some(plte) =>
        var trns := GetFirstChunkByType(chunks, TrnsCode());
        Some(PltePalette(info.Header().bitDepth, plte.data, DataOf(trns)))
  }

  /** parsePalette as written: it passes `IHDR.bitDepth`, which the object
      readIHDR returns does not have, so the palette it builds has no
      colours. It is present in the same cases as ParsePalette's. */
  function ParsePaletteAsWritten(info: IhdrRecord, chunks: seq<Chunk>): (r: Option<Palette>)
    ensures r.Some? <==> ParsePalette(info, chunks).Some?
    ensures r.Some? ==> r.value.GetColorsCount() == 0 && r.value.name == ParsePalette(info, chunks).value.name
  {
    if info.colorType != IndexedColor then None
    else
      match GetFirstChunkByType(chunks, PlteCode())
      case None => None
      case Some(plte) => Some(PltePaletteOfUndefinedDepth())
  }

  /** The discrepancy: an indexed image whose first PLTE chunk holds one
      RGB triple has a one-colour palette under ParsePalette, and none as
      written. */
  lemma ParsePaletteAsWrittenLosesColors(info: IhdrRecord, chunks: seq<Chunk>)
    requires info.colorType == IndexedColor && Has(chunks, PlteCode())
    requires |GetFirstChunkByType(chunks, PlteCode()).value.data| == 3
    ensures ParsePalette(info, chunks).value.GetColorsCount() == 4
    ensures ParsePaletteAsWritten(info, chunks).value.GetColorsCount() == 0
  {
    var colors := PlteColorCount(info.Header().bitDepth, 3);
    assert colors == 1;
  }

  /** `parseSingleTransparentColor(IHDR, chunks)`: for greyscale one
      big-endian u16 at byte 0 of the first tRNS chunk, for truecolour
      three at bytes 0, 2 and 4; undefined for the other colour types or
      without tRNS. A short payload throws. */
  function SingleTransparentColor(info: IhdrRecord, chunks: seq<Chunk>): (r: Result<Option<TransparentColor>, Error>)
    ensures info.colorType !in {GreyScale, TrueColor} ==> r == Success(None)
    ensures !Has(chunks, TrnsCode()) ==> r == Success(None)
    ensures r.Failure? ==> r.error == RangeError
  {
    if info.colorType == IndexedColor then Success(None)
    else
      match GetFirstChunkByType(chunks, TrnsCode())
      case None => Success(None)
      case Some(trns) =>
        if info.colorType == GreyScale then
          var grey :- GetUint16(trns.data, 0);
          Success(Some(Color1D(grey)))
        else if info.colorType == TrueColor then
          var red :- GetUint16(trns.data, 0);
          var green :- GetUint16(trns.data, 2);
          var blue :- GetUint16(trns.data, 4);
          Success(Some(Color3D(red, green, blue)))
        else Success(None)
  }

  /** The palettes of the sPLT chunks in order; the first that throws stops
      the loop. */
  function SpltPalettes(splts: seq<Chunk>): (r: Result<seq<Palette>, Error>)
    ensures r.Success? ==> |r.value| == |splts|
    ensures r.Failure? ==> r.error == RangeError || r.error == AssertionError
  {
    if splts == [] then Success([])
    else
      var before :- SpltPalettes(splts[..|splts| - 1]);
      var p :- SpltPalette(splts[|splts| - 1].data);
      Success(before + [p])
  }

  /** The PLTE palette parseSuggestedPalettes starts with: non-indexed images
      only, without tRNS. */
  function PltePalettes(info: IhdrRecord, chunks: seq<Chunk>): (r: seq<Palette>)
    ensures |r| == 1 <==> info.colorType != IndexedColor && Has(chunks, PlteCode())
    ensures |r| <= 1
  {
    if info.colorType != IndexedColor && Has(chunks, PlteCode()) then
      [PltePalette(info.Header().bitDepth, GetFirstChunkByType(chunks, PlteCode()).value.data, None)]
    else []
  }

  /** `parseSuggestedPalettes(IHDR, chunks)`: undefined for an empty list. */
  function SuggestedPalettes(info: IhdrRecord, chunks: seq<Chunk>): (r: Result<Option<seq<Palette>>, Error>)
    ensures r.Success? <==> SpltPalettes(GetChunksByType(chunks, SpltCode())).Success?
    ensures r.Failure? ==> r.error == RangeError || r.error == AssertionError
    ensures r.Success? ==> (r.value.None? <==> |PltePalettes(info, chunks)| == 0 && !Has(chunks, SpltCode()))
    ensures r.Success? && r.value.Some? ==>
      && |r.value.value| == |PltePalettes(info, chunks)| + |GetChunksByType(chunks, SpltCode())|
      && (info.colorType == IndexedColor ==> r.value.value == SpltPalettes(GetChunksByType(chunks, SpltCode())).value)
  {
    var fromSplt :- SpltPalettes(GetChunksByType(chunks, SpltCode()));
    var palettes := PltePalettes(info, chunks) + fromSplt;
    Success(if |palettes| > 0 then Some(palettes) else None)
  }

  /** The concatenated payloads the inflater receives, in order. */
  function Payloads(chunks: seq<Chunk>): seq<byte>
  {
    if chunks == [] then [] else Payloads(chunks[..|chunks| - 1]) + chunks[|chunks| - 1].data
  }

  /** `parseData(IHDR, chunks, palette)`: inflate the IDAT payloads, throw
      the inflater's message on error, then undo the scanline filters. */
  function ParseData(info: IhdrRecord, chunks: seq<Chunk>, inflate: Inflater): (r: Result<seq<byte>, Error>)
    ensures inflate(Payloads(GetChunksByType(chunks, IdatCode()))).Failure? ==>
            r == Failure(InflateError(inflate(Payloads(GetChunksByType(chunks, IdatCode()))).error))
    ensures inflate(Payloads(GetChunksByType(chunks, IdatCode()))).Success? ==>
            r == DecodeFilter.Unfilter(inflate(Payloads(GetChunksByType(chunks, IdatCode()))).value, info)
  {
    match inflate(Payloads(GetChunksByType(chunks, IdatCode())))
    case Failure(message) => Failure(InflateError(message))
    case Success(raw) => DecodeFilter.Unfilter(raw, info)
  }

  // ---------------------------------------------------------------------
  // parseChunks

  /** What parseChunks has computed when it reaches the colour-type switch. */
  datatype Prepared = Prepared(
    info: IhdrRecord,
    palette: Option<Palette>,
    suggestedPalettes: Option<seq<Palette>>,
    singleTransparentColor: Option<TransparentColor>,
    data: seq<byte>)

  /** The steps before the switch, in the source's order: the IDAT check,
      readIHDR of the first chunk, the palette, the suggested palettes, the
      transparent colour and the image data. */
  function Prepare(chunks: seq<Chunk>, inflate: Inflater): (r: Result<Prepared, Error>)
    ensures !Has(chunks, IdatCode()) ==> r == Failure(IdatMissing)
    ensures r.Success? ==> IsColorType(r.value.info.colorType)
    ensures r.Success? ==> r.value.palette == ParsePalette(r.value.info, chunks)
    ensures r.Success? ==> |chunks| > 0 && ReadIHDR(chunks[0].data).Success? && r.value.info == ReadIHDR(chunks[0].data).value
    ensures Has(chunks, IdatCode()) && r.Failure? ==> r.error != IdatMissing
  {
    var idats := GetChunksByType(chunks, IdatCode());
    :- AssertT(Bool(|idats| > 0), IdatMissing);
    var info :- ReadIHDR(chunks[0].data);
    var palette := ParsePalette(info, chunks);
    var suggestedPalettes :- SuggestedPalettes(info, chunks);
    var singleTransparentColor :- SingleTransparentColor(info, chunks);
    var data :- ParseData(info, chunks, inflate);
    Success(Prepared(info, palette, suggestedPalettes, singleTransparentColor, data))
  }

  /** The colour-type switch: each branch checks which of PLTE and tRNS may
      appear, then names its decoder. */
  function Dispatch(chunks: seq<Chunk>, p: Prepared): (r: Result<ParsedChunksData, Error>)
    requires IsColorType(p.info.colorType) && p.palette == ParsePalette(p.info, chunks)
    ensures r.Success? <==> ChunksAllowed(p.info.colorType, Has(chunks, PlteCode()), Has(chunks, TrnsCode()))
    ensures var c := p.info.colorType;
      && (c in {GreyScale, GreyScaleWithAlpha} && Has(chunks, PlteCode()) ==> r == Failure(PlteNotAllowed(c)))
      && (c == IndexedColor && !Has(chunks, PlteCode()) ==> r == Failure(PlteMissing(c)))
      && (c == GreyScaleWithAlpha && !Has(chunks, PlteCode()) && Has(chunks, TrnsCode()) ==> r == Failure(TrnsNotAllowed(c)))
      && (c == TrueColorWithAlpha && Has(chunks, TrnsCode()) ==> r == Failure(TrnsNotAllowed(c)))
    ensures r.Success? ==> r.value.chunks == chunks && r.value.info == p.info
                           && r.value.suggestedPalettes == p.suggestedPalettes && r.value.bitmap.data == p.data
    ensures r.Success? ==> (r.value.bitmap.DecodeIndexed? <==> p.info.colorType == IndexedColor)
                           && (r.value.bitmap.DecodeGreyscale? <==> p.info.colorType in {GreyScale, GreyScaleWithAlpha})
                           && (!r.value.bitmap.DecodeIndexed? ==>
                                 (r.value.bitmap.withAlpha <==> p.info.colorType in {GreyScaleWithAlpha, TrueColorWithAlpha}))
    ensures r.Success? && p.info.colorType == IndexedColor ==> r.value.palette.Some? && r.value.bitmap.palette == r.value.palette.value
  {
    var c := p.info.colorType;
    if c == GreyScale then
      :- AssertT(Bool(|GetChunksByType(chunks, PlteCode())| == 0), PlteNotAllowed(c));
      Success(ParsedChunksData(chunks, p.info, None, p.suggestedPalettes, p.singleTransparentColor,
                               DecodeGreyscale(p.info, p.data, false)))
    else if c == TrueColor then
      Success(ParsedChunksData(chunks, p.info, p.palette, p.suggestedPalettes, p.singleTransparentColor,
                               DecodeTrueColor(p.info, p.data, false)))
    else if c == IndexedColor then
      :- AssertT(Bool(p.palette.Some?), PlteMissing(c));
      Success(ParsedChunksData(chunks, p.info, p.palette, p.suggestedPalettes, p.singleTransparentColor,
                               DecodeIndexed(p.info, p.data, p.palette.value)))
    else if c == GreyScaleWithAlpha then
      :- AssertT(Bool(|GetChunksByType(chunks, PlteCode())| == 0), PlteNotAllowed(c));
      :- AssertT(Bool(|GetChunksByType(chunks, TrnsCode())| == 0), TrnsNotAllowed(c));
      Success(ParsedChunksData(chunks, p.info, None, p.suggestedPalettes, None,
                               DecodeGreyscale(p.info, p.data, true)))
    else
      :- AssertT(Bool(|GetChunksByType(chunks, TrnsCode())| == 0), TrnsNotAllowed(c));
      Success(ParsedChunksData(chunks, p.info, p.palette, p.suggestedPalettes, None,
                               DecodeTrueColor(p.info, p.data, true)))
  }

  /** Which of PLTE and tRNS each colour type admits, as parseChunks checks
      it: no PLTE for greyscale, a PLTE for indexed colour, and no tRNS for
      the two types with an alpha channel. */
  predicate ChunksAllowed(colorType: int, plte: bool, trns: bool)
  {
    && (colorType == GreyScale ==> !plte)
    && (colorType == IndexedColor ==> plte)
    && (colorType == GreyScaleWithAlpha ==> !plte && !trns)
    && (colorType == TrueColorWithAlpha ==> !trns)
  }

  /** `parseChunks(chunks)`. The final `impossible error` is unreachable: a
      colour type outside the five has already made the de-filter throw. */
  function ParseChunks(chunks: seq<Chunk>, inflate: Inflater): (r: Result<ParsedChunksData, Error>)
    ensures r.Success? ==> r.value.chunks == chunks && IsColorType(r.value.info.colorType)
    ensures r == Failure(IdatMissing) <==> !Has(chunks, IdatCode())
  {
    var p :- Prepare(chunks, inflate);
    Dispatch(chunks, p)
  }

  /** `parseSuggestedPalettes(IHDR, chunks)`. */
  method ParseSuggestedPalettes(info: IhdrRecord, chunks: seq<Chunk>) returns (r: Result<Option<seq<Palette>>, Error>)
    ensures r == SuggestedPalettes(info, chunks)
  {
    var palettes: seq<Palette> := [];
    if info.colorType != IndexedColor {
      var plte := GetFirstChunkByType(chunks, PlteCode());
      if plte.Some? {
        var p := FromPLTE(info.Header().bitDepth, plte.value, None);
        palettes := palettes + [p];
      }
    }
    assert palettes == PltePalettes(info, chunks);
    var pushed := PushSpltPalettes(palettes, GetChunksByType(chunks, SpltCode()));
    ghost var fromSplt := SpltPalettes(GetChunksByType(chunks, SpltCode()));
    if pushed.Failure? {
      assert SuggestedPalettes(info, chunks) == Failure(fromSplt.error);
      return Failure(pushed.error);
    }
    palettes := pushed.value;
    assert palettes == PltePalettes(info, chunks) + fromSplt.value;
    r := Success(if |palettes| > 0 then Some(palettes) else None);
  }

  /** The `for (const sPLT of ..)` loop pushing one palette per chunk. */
  method PushSpltPalettes(start: seq<Palette>, splts: seq<Chunk>) returns (r: Result<seq<Palette>, Error>)
    ensures SpltPalettes(splts).Failure? ==> r == Failure(SpltPalettes(splts).error)
    ensures SpltPalettes(splts).Success? ==> r == Success(start + SpltPalettes(splts).value)
  {
    var palettes := start;
    for i := 0 to |splts|
      invariant SpltPalettes(splts[..i]).Success?
      invariant palettes == start + SpltPalettes(splts[..i]).value
    {
      var p := FromSPLT(splts[i]);
      assert splts[..i + 1][..i] == splts[..i];
      if p.Failure? {
        SpltPalettesFailureSticks(splts, i + 1);
        return Failure(p.error);
      }
      palettes := palettes + [p.value];
    }
    assert splts[..|splts|] == splts;
    r := Success(palettes);
  }

  /** The first failing sPLT chunk decides the error of the whole list. */
  lemma {:induction false} SpltPalettesFailureSticks(splts: seq<Chunk>, k: nat)
    requires k <= |splts| && SpltPalettes(splts[..k]).Failure?
    ensures SpltPalettes(splts) == SpltPalettes(splts[..k])
    decreases |splts|
  {
    if k < |splts| {
      var init := splts[..|splts| - 1];
      assert init[..k] == splts[..k];
      SpltPalettesFailureSticks(init, k);
    } else {
      assert splts[..k] == splts;
    }
  }

  /** sPLT chunks decode independently: the list succeeds exactly when each
      chunk does, and palette i is the palette of chunk i. */
  lemma SpltPalettesEach(splts: seq<Chunk>)
    ensures SpltPalettes(splts).Success? <==> forall i :: 0 <= i < |splts| ==> SpltPalette(splts[i].data).Success?
    ensures SpltPalettes(splts).Success? ==>
      forall i :: 0 <= i < |splts| ==> SpltPalettes(splts).value[i] == SpltPalette(splts[i].data).value
  {
    if forall i :: 0 <= i < |splts| ==> SpltPalette(splts[i].data).Success? {
      SpltPalettesAllSucceed(splts);
    }
    if SpltPalettes(splts).Success? {
      forall i | 0 <= i < |splts|
        ensures SpltPalette(splts[i].data) == Success(SpltPalettes(splts).value[i])
      {
        SpltPalettesAt(splts, i);
      }
    }
  }

  lemma {:induction false} SpltPalettesAt(splts: seq<Chunk>, i: nat)
    requires i < |splts| && SpltPalettes(splts).Success?
    ensures SpltPalette(splts[i].data) == Success(SpltPalettes(splts).value[i])
    decreases |splts|
  {
    var n := |splts| - 1;
    var init := splts[..n];
    var before := SpltPalettes(init);
    var last := SpltPalette(splts[n].data);
    assert before.Success? && last.Success?;
    assert SpltPalettes(splts).value == before.value + [last.value];
    if i < n {
      assert init[i] == splts[i];
      SpltPalettesAt(init, i);
    }
  }

  lemma {:induction false} SpltPalettesAllSucceed(splts: seq<Chunk>)
    requires forall i :: 0 <= i < |splts| ==> SpltPalette(splts[i].data).Success?
    ensures SpltPalettes(splts).Success?
    decreases |splts|
  {
    if splts != [] {
      var init := splts[..|splts| - 1];
      forall i | 0 <= i < |init|
        ensures SpltPalette(init[i].data).Success?
      {
        assert init[i] == splts[i];
      }
      SpltPalettesAllSucceed(init);
    }
  }

  /** The error of the list is the error of its first failing chunk. */
  lemma SpltPalettesFirstError(splts: seq<Chunk>, k: nat)
    requires k < |splts| && SpltPalette(splts[k].data).Failure?
    requires forall i :: 0 <= i < k ==> SpltPalette(splts[i].data).Success?
    ensures SpltPalettes(splts) == Failure(SpltPalette(splts[k].data).error)
  {
    var prefix := splts[..k + 1];
    assert prefix[..k] == splts[..k];
    assert forall i :: 0 <= i < k ==> splts[..k][i] == splts[i];
    SpltPalettesEach(splts[..k]);
    assert prefix[k] == splts[k];
    SpltPalettesFailureSticks(splts, k + 1);
  }

  /** The inflater's input is the payloads concatenated: splitting the chunk
      list splits it. */
  lemma {:induction false} PayloadsAppend(a: seq<Chunk>, b: seq<Chunk>)
    ensures Payloads(a + b) == Payloads(a) + Payloads(b)
    decreases |b|
  {
    if b == [] {
      assert a + b == a;
    } else {
      var init := b[..|b| - 1];
      assert (a + b)[..|a + b| - 1] == a + init;
      PayloadsAppend(a, init);
    }
  }

  /** A greyscale image's transparent colour is the u16 at byte 0 of the
      first tRNS chunk; a payload shorter than that throws. */
  lemma TransparentGrey(info: IhdrRecord, chunks: seq<Chunk>)
    requires info.colorType == GreyScale && Has(chunks, TrnsCode())
    ensures var d := GetFirstChunkByType(chunks, TrnsCode()).value.data;
      && (SingleTransparentColor(info, chunks).Success? <==> |d| >= 2)
      && (|d| >= 2 ==> SingleTransparentColor(info, chunks) == Success(Some(Color1D(U16At(d, 0)))))
  {
  }

  /** A truecolour image's transparent colour is the three u16 at bytes 0,
      2 and 4 of the first tRNS chunk; a payload shorter than six bytes
      throws. */
  lemma TransparentTrueColor(info: IhdrRecord, chunks: seq<Chunk>)
    requires info.colorType == TrueColor && Has(chunks, TrnsCode())
    ensures var d := GetFirstChunkByType(chunks, TrnsCode()).value.data;
      && (SingleTransparentColor(info, chunks).Success? <==> |d| >= 6)
      && (|d| >= 6 ==> SingleTransparentColor(info, chunks) == Success(Some(Color3D(U16At(d, 0), U16At(d, 2), U16At(d, 4)))))
  {
  }

  /** parseChunks succeeds exactly when there is an IDAT chunk, the first
      chunk holds a header of a known colour type, the suggested palettes,
      the transparent colour and the image data are read without a throw,
      and the PLTE and tRNS chunks present are those the colour type
      admits. */
  lemma ParseChunksSucceeds(chunks: seq<Chunk>, inflate: Inflater)
    ensures ParseChunks(chunks, inflate).Success? <==>
      && Has(chunks, IdatCode()) && |chunks| > 0 && ReadIHDR(chunks[0].data).Success?
      && var info := ReadIHDR(chunks[0].data).value;
         && IsColorType(info.colorType)
         && SuggestedPalettes(info, chunks).Success?
         && SingleTransparentColor(info, chunks).Success?
         && ParseData(info, chunks, inflate).Success?
         && ChunksAllowed(info.colorType, Has(chunks, PlteCode()), Has(chunks, TrnsCode()))
  {
    if Has(chunks, IdatCode()) && |chunks| > 0 && ReadIHDR(chunks[0].data).Success? {
      var info := ReadIHDR(chunks[0].data).value;
      if !IsColorType(info.colorType) && SuggestedPalettes(info, chunks).Success? && SingleTransparentColor(info, chunks).Success? {
        assert ParseData(info, chunks, inflate).Failure?;
      }
    }
  }

  /** What a successful parseChunks returns: the header read from the first
      chunk, the suggested palettes, the transparent colour for the two
      types that keep it, the palette for indexed colour only, and the
      de-filtered data for the decoder. */
  lemma ParseChunksResult(chunks: seq<Chunk>, inflate: Inflater)
    requires ParseChunks(chunks, inflate).Success?
    ensures |chunks| > 0 && ReadIHDR(chunks[0].data).Success?
    ensures var r := ParseChunks(chunks, inflate).value;
      var info := ReadIHDR(chunks[0].data).value;
      && r.info == info
      && r.suggestedPalettes == SuggestedPalettes(info, chunks).value
      && r.bitmap.data == ParseData(info, chunks, inflate).value
      && (info.colorType in {GreyScale, TrueColor, IndexedColor} ==> r.singleTransparentColor == SingleTransparentColor(info, chunks).value)
      && (info.colorType !in {GreyScale, TrueColor} ==> r.singleTransparentColor == None)
      && (r.palette.Some? <==> info.colorType == IndexedColor)
      && (r.palette.Some? ==> r.palette == ParsePalette(info, chunks))
  {
  }

  /** A header whose colour type is none of the five: once the steps before
      the image data succeed, the de-filter's error is what parseChunks
      throws. */
  lemma UnknownColorTypeThrows(chunks: seq<Chunk>, inflate: Inflater)
    requires Has(chunks, IdatCode()) && |chunks| > 0 && ReadIHDR(chunks[0].data).Success?
    requires var info := ReadIHDR(chunks[0].data).value;
      && !IsColorType(info.colorType)
      && SuggestedPalettes(info, chunks).Success?
      && inflate(Payloads(GetChunksByType(chunks, IdatCode()))).Success?
    ensures ParseChunks(chunks, inflate) == Failure(UnknownColorType(ReadIHDR(chunks[0].data).value.colorType))
  {
  }
}
