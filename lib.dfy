/** The chunk-stream reader and the image object (src/lib.ts): the signature
    check, the chunk reader with its CRC test, the walk from IHDR to IEND,
    and the getters of PNGImage. The file is a byte sequence starting at
    index 0. */
module Lib {
  import opened Bytes
  import opened Wrappers
  import opened Errors
  import opened DataViews
  import opened Chunks
  import opened Crc
  import opened IHDR
  import opened Palettes
  import opened ImageProps
  import opened Parser
  import Constants

  /** The type codes the walker compares against, as literals so that the
      walk's proofs do not unfold the table of chunk types; CodesAgree ties
      them to that table. */
  function IhdrCode(): u32 { 0x49484452 }
  function IendCode(): u32 { 0x49454e44 }

  lemma CodesAgree()
    ensures IhdrCode() == Constants.ChunkType.IHDR.Code()
    ensures IendCode() == Constants.ChunkType.IEND.Code()
  {
  }

  // ---------------------------------------------------------------------
  // checkSignature

  /** The signature loop from position k on: the first position that cannot
      be read throws a RangeError, the first that differs from the signature
      throws the signature error. */
  function SignatureFrom(data: seq<byte>, k: nat): Outcome<Error>
    requires k <= 8
    decreases 8 - k
  {
    if k == 8 then Pass
    else if k >= |data| then Fail(RangeError)
    else if data[k] != Constants.Signature[k] then Fail(SignatureError)
    else SignatureFrom(data, k + 1)
  }

  /** `checkSignature(dataView)`: the file passes exactly when it starts with
      the eight signature bytes; a file that is a proper prefix of the
      signature runs out (RangeError), any other file differs somewhere. */
  function SignatureCheck(data: seq<byte>): (r: Outcome<Error>)
    ensures r.Pass? <==> |data| >= 8 && data[..8] == Constants.Signature
    ensures r == Fail(RangeError) <==> |data| < 8 && data == Constants.Signature[..|data|]
    ensures r.Fail? ==> r.error == RangeError || r.error == SignatureError
  {
    SignatureFromMeaning(data, 0);
    SignatureFrom(data, 0)
  }

  lemma {:induction false} SignatureFromMeaning(data: seq<byte>, k: nat)
    requires k <= 8 && k <= |data|
    ensures SignatureFrom(data, k).Pass? <==> |data| >= 8 && data[k..8] == Constants.Signature[k..]
    ensures SignatureFrom(data, k) == Fail(RangeError) <==> |data| < 8 && data[k..] == Constants.Signature[k..|data|]
    ensures SignatureFrom(data, k).Fail? ==> SignatureFrom(data, k).error == RangeError || SignatureFrom(data, k).error == SignatureError
    decreases 8 - k
  {
    var sig := Constants.Signature;
    if k < 8 && k < |data| {
      var m := if |data| < 8 then |data| else 8;
      ConsSlice(data, k, m);
      ConsSlice(sig, k, m);
      if |data| < 8 {
        assert data[k..] == data[k..m];
      }
      assert sig[k..] == sig[k..8];
      if data[k] == sig[k] {
        SignatureFromMeaning(data, k + 1);
        if |data| < 8 {
          assert data[k + 1..] == data[k + 1..m];
        }
      }
    }
  }

  lemma ConsSlice(s: seq<byte>, i: nat, j: nat)
    requires i < j <= |s|
    ensures s[i..j] == [s[i]] + s[i + 1..j]
  {
  }

  /** The `for` loop of checkSignature over the first eight bytes. */
  method CheckSignature(data: seq<byte>) returns (r: Outcome<Error>)
    ensures r == SignatureCheck(data)
  {
    for offset := 0 to 8
      invariant offset <= |data|
      invariant SignatureFrom(data, offset) == SignatureFrom(data, 0)
    {
      var b := GetUint8(data, offset);
      if b.Failure? {
        return Fail(b.error);
      }
      if b.value != Constants.Signature[offset] {
        return Fail(SignatureError);
      }
    }
    r := Pass;
  }

  // ---------------------------------------------------------------------
  // readChunk

  /** The CRC readChunk computes: over the type code and the `length`
      payload bytes that follow it. */
  function ComputedCrc(view: seq<byte>, length: nat): u32
    requires 8 + length <= |view|
  {
    Unsigned(Crc32Value(view[4..8 + length]))
  }

  /** The three property flags: bit 0x20 of type bytes 0, 1 and 3. */
  function FlagsOf(code: seq<byte>): Flags
    requires |code| == 4
  {
    Flags(Constants.PropertyBit(code[0]), Constants.PropertyBit(code[1]), Constants.PropertyBit(code[3]))
  }

  /** `readChunk(dataView)` over the bytes `view` from the chunk's start to
      the end of the file: length at 0, type at 4, payload at 8 and the
      stored CRC after the payload. A CRC that differs from the stored one
      throws an error naming the chunk and both values; a read past the end
      of the file throws a RangeError. */
  function ChunkOf(view: seq<byte>): (r: Result<Chunk, Error>)
    ensures r.Success? <==>
      |view| >= 8 && 12 + U32At(view, 0) <= |view| && ComputedCrc(view, U32At(view, 0)) == U32At(view, 8 + U32At(view, 0))
    ensures r.Success? ==>
      && r.value.chunkType == U32At(view, 4) && r.value.name == Chars(view[4..8])
      && r.value.data == view[8..8 + U32At(view, 0)] && r.value.flags == FlagsOf(view[4..8])
    ensures r.Failure? && |view| >= 8 && 12 + U32At(view, 0) <= |view| ==>
      r == Failure(CrcError(Chars(view[4..8]), ComputedCrc(view, U32At(view, 0)), U32At(view, 8 + U32At(view, 0))))
    ensures r.Failure? ==> r.error.RangeError? || r.error.CrcError?
  {
    var length :- GetUint32(view, 0);
    var chunkType :- GetUint32(view, 4);
    var name := Chars(view[4..8]);
    if 8 + length > |view| then Failure(RangeError)
    else
      var crc := ComputedCrc(view, length);
      var stored :- GetUint32(view, 8 + length);
      if crc != stored then Failure(CrcError(name, crc, stored))
      else Success(Chunk(chunkType, name, view[8..8 + length], FlagsOf(view[4..8])))
  }

  /** The reader itself: the CRC loop runs over the view. */
  method ReadChunk(view: seq<byte>) returns (r: Result<Chunk, Error>)
    ensures r == ChunkOf(view)
  {
    var byteLength := GetUint32(view, 0);
    if byteLength.Failure? {
      return Failure(byteLength.error);
    }
    var chunkType := GetUint32(view, 4);
    if chunkType.Failure? {
      return Failure(chunkType.error);
    }
    var name := Chars(view[4..8]);
    var length: nat := byteLength.value;
    var crc := Crc32(view, 4, 4 + length);
    if crc.Failure? {
      return Failure(crc.error);
    }
    var stored := GetUint32(view, 8 + length);
    if stored.Failure? {
      return Failure(stored.error);
    }
    if crc.value != stored.value {
      return Failure(CrcError(name, crc.value, stored.value));
    }
    r := Success(Chunk(chunkType.value, name, view[8..8 + length], FlagsOf(view[4..8])));
  }

  /** The bytes of a well-formed chunk, section 5.3 of the PNG specification:
      the payload length, the type code, the payload and the CRC of type and
      payload, all integers big-endian. */
  function ChunkBytes(chunkType: u32, payload: seq<byte>): (r: seq<byte>)
    requires |payload| < 0x1_0000_0000
    ensures |r| == 12 + |payload|
  {
    U32RoundTrip(chunkType);
    U32RoundTrip(|payload|);
    var body := Be32(chunkType) + payload;
    U32RoundTrip(Unsigned(Crc32Value(body)));
    Be32(|payload|) + body + Be32(Unsigned(Crc32Value(body)))
  }

  /** readChunk reads back what ChunkBytes lays out, whatever follows it. */
  lemma ReadChunkBytes(chunkType: u32, payload: seq<byte>, rest: seq<byte>)
    requires |payload| < 0x1_0000_0000
    ensures ChunkOf(ChunkBytes(chunkType, payload) + rest)
            == Success(Chunk(chunkType, Chars(Be32(chunkType)), payload, FlagsOf(Be32(chunkType))))
  {
    var body := Be32(chunkType) + payload;
    var crc := Unsigned(Crc32Value(body));
    U32RoundTrip(chunkType);
    U32RoundTrip(|payload|);
    U32RoundTrip(crc);
    ChunkOfLayout(Be32(|payload|), Be32(chunkType), payload, Be32(crc), rest);
  }

  /** A stored CRC other than the computed one is reported with both. */
  lemma CorruptedCrc(chunkType: u32, payload: seq<byte>, stored: u32, rest: seq<byte>)
    requires |payload| < 0x1_0000_0000
    requires stored != Unsigned(Crc32Value(Be32(chunkType) + payload))
    ensures ChunkOf(Be32(|payload|) + (Be32(chunkType) + payload) + Be32(stored) + rest)
            == Failure(CrcError(Chars(Be32(chunkType)), Unsigned(Crc32Value(Be32(chunkType) + payload)), stored))
  {
    U32RoundTrip(chunkType);
    U32RoundTrip(|payload|);
    U32RoundTrip(stored);
    ChunkOfLayout(Be32(|payload|), Be32(chunkType), payload, Be32(stored), rest);
  }

  /** readChunk on four length bytes, four type bytes, the payload, four
      CRC bytes and whatever follows. */
  lemma ChunkOfLayout(lengthBytes: seq<byte>, code: seq<byte>, payload: seq<byte>, crcBytes: seq<byte>, rest: seq<byte>)
    requires |lengthBytes| == 4 && |code| == 4 && |crcBytes| == 4
    requires U32At(lengthBytes, 0) == |payload|
    ensures var crc := Unsigned(Crc32Value(code + payload));
      ChunkOf(lengthBytes + (code + payload) + crcBytes + rest)
      == if U32At(crcBytes, 0) == crc then Success(Chunk(U32At(code, 0), Chars(code), payload, FlagsOf(code)))
         else Failure(CrcError(Chars(code), crc, U32At(crcBytes, 0)))
  {
    var view := lengthBytes + (code + payload) + crcBytes + rest;
    var n := |payload|;
    assert view[0..4] == lengthBytes;
    assert view[4..8] == code;
    assert view[8..8 + n] == payload;
    assert view[4..8 + n] == code + payload;
    assert view[8 + n..12 + n] == crcBytes;
    U32AtSlice(view, 0, lengthBytes);
    U32AtSlice(view, 4, code);
    U32AtSlice(view, 8 + n, crcBytes);
  }

  lemma U32AtSlice(s: seq<byte>, off: nat, t: seq<byte>)
    requires off + 4 <= |s| && |t| == 4 && s[off..off + 4] == t
    ensures U32At(s, off) == U32At(t, 0)
  {
    assert s[off] == t[0] && s[off + 1] == t[1] && s[off + 2] == t[2] && s[off + 3] == t[3];
  }

  // ---------------------------------------------------------------------
  // The chunk walk of the constructor
  //
  // The walk is stated for any reader that keeps its chunks inside the
  // bytes it was given, and instantiated with readChunk (ChunkOf): the
  // facts about the walk's shape and layout hold for every such reader.

  type Reader = seq<byte> -> Result<Chunk, Error>

  /** A reader whose chunks fit in what it read: twelve framing bytes and
      the payload. */
  ghost predicate Framed(read: Reader)
  {
    forall view :: read(view).Success? ==> |read(view).value.data| + 12 <= |view|
  }

  lemma ChunkOfFramed()
    ensures Framed(ChunkOf)
  {
    forall view | ChunkOf(view).Success?
      ensures |ChunkOf(view).value.data| + 12 <= |view|
    {
      var n: nat := U32At(view, 0);
      assert |view[8..8 + n]| == n;
    }
  }

  /** Where the chunk read at `offset` ends: past its twelve framing bytes
      and its payload. */
  function NextOffset(read: Reader, data: seq<byte>, offset: nat): (next: nat)
    requires Framed(read) && offset <= |data| && read(data[offset..]).Success?
    ensures offset < next <= |data|
  {
    offset + |read(data[offset..]).value.data| + 12
  }

  /** The walk from `offset`: read a chunk, advance past it, insist that the
      first chunk is IHDR, and stop after IEND. */
  function ChunksFrom(read: Reader, data: seq<byte>, offset: nat, first: bool): (r: Result<seq<Chunk>, Error>)
    requires Framed(read) && offset <= |data|
    ensures r.Success? ==> |r.value| > 0
    decreases |data| - offset
  {
    var chunk :- read(data[offset..]);
    var next := NextOffset(read, data, offset);
    if first && chunk.chunkType != IhdrCode() then Failure(FirstChunkNotIhdr)
    else if chunk.chunkType == IendCode() then Success([chunk])
    else
      var rest :- ChunksFrom(read, data, next, false);
      Success([chunk] + rest)
  }

  /** The walk with readChunk. */
  function Walk(data: seq<byte>, offset: nat, first: bool): Result<seq<Chunk>, Error>
    requires offset <= |data|
  {
    ChunkOfFramed();
    ChunksFrom(ChunkOf, data, offset, first)
  }

  /** The chunks already pushed in front of what the rest of the walk gives. */
  function Prepend(chunks: seq<Chunk>, r: Result<seq<Chunk>, Error>): (p: Result<seq<Chunk>, Error>)
    ensures r.Failure? ==> p == r
    ensures r.Success? ==> p.Success? && |p.value| == |chunks| + |r.value|
  {
    if r.Success? then Success(chunks + r.value) else r
  }

  /** One step of the walk. */
  lemma WalkStep(read: Reader, data: seq<byte>, offset: nat, first: bool)
    requires Framed(read) && offset <= |data|
    ensures read(data[offset..]).Failure? ==> ChunksFrom(read, data, offset, first) == Failure(read(data[offset..]).error)
    ensures read(data[offset..]).Success? ==>
      var chunk := read(data[offset..]).value;
      ChunksFrom(read, data, offset, first)
      == if first && chunk.chunkType != IhdrCode() then Failure(FirstChunkNotIhdr)
         else if chunk.chunkType == IendCode() then Success([chunk])
         else Prepend([chunk], ChunksFrom(read, data, NextOffset(read, data, offset), false))
  {
  }

  /** The chunk list of a file: the signature, then the walk from byte 8. */
  function FileChunks(data: seq<byte>): Result<seq<Chunk>, Error>
  {
    var signature := SignatureCheck(data);
    if signature.Fail? then Failure(signature.error) else Walk(data, 8, true)
  }

  /** The signature check and the `while (true)` loop of the constructor. */
  method ReadChunks(data: seq<byte>) returns (r: Result<seq<Chunk>, Error>)
    ensures r == FileChunks(data)
  {
    var signature := CheckSignature(data);
    if signature.Fail? {
      return Failure(signature.error);
    }
    ChunkOfFramed();
    var chunks: seq<Chunk> := [];
    var offset := |Constants.Signature|;
    assert Prepend(chunks, Walk(data, offset, true)) == Walk(data, offset, true) by {
      if Walk(data, offset, true).Success? {
        assert chunks + Walk(data, offset, true).value == Walk(data, offset, true).value;
      }
    }
    while true
      invariant offset <= |data|
      invariant FileChunks(data) == Prepend(chunks, ChunksFrom(ChunkOf, data, offset, chunks == []))
      decreases |data| - offset
    {
      WalkStep(ChunkOf, data, offset, chunks == []);
      var read := ReadChunk(data[offset..]);
      if read.Failure? {
        return Failure(read.error);
      }
      var chunk := read.value;
      offset := NextOffset(ChunkOf, data, offset);
      if chunks == [] && chunk.chunkType != IhdrCode() {
        return Failure(FirstChunkNotIhdr);
      }
      if chunk.chunkType == IendCode() {
        return Success(chunks + [chunk]);
      }
      PrependTwice(chunks, chunk, ChunksFrom(ChunkOf, data, offset, false));
      chunks := chunks + [chunk];
    }
  }

  lemma PrependTwice(chunks: seq<Chunk>, chunk: Chunk, r: Result<seq<Chunk>, Error>)
    ensures Prepend(chunks, Prepend([chunk], r)) == Prepend(chunks + [chunk], r)
  {
    if r.Success? {
      assert chunks + ([chunk] + r.value) == (chunks + [chunk]) + r.value;
    }
  }

  // ---------------------------------------------------------------------
  // What the walk produces

  /** A walk that succeeds starts with IHDR when it starts the file, and
      ends with its only IEND chunk. */
  lemma {:induction false} WalkShape(read: Reader, data: seq<byte>, offset: nat, first: bool)
    requires Framed(read) && offset <= |data| && ChunksFrom(read, data, offset, first).Success?
    ensures var cs := ChunksFrom(read, data, offset, first).value;
      && (first ==> cs[0].chunkType == IhdrCode())
      && cs[|cs| - 1].chunkType == IendCode()
      && forall i :: 0 <= i < |cs| - 1 ==> cs[i].chunkType != IendCode()
    decreases |data| - offset
  {
    WalkStep(read, data, offset, first);
    var chunk := read(data[offset..]).value;
    if chunk.chunkType != IendCode() {
      var next := NextOffset(read, data, offset);
      WalkShape(read, data, next, false);
      var rest := ChunksFrom(read, data, next, false).value;
      var cs := ChunksFrom(read, data, offset, first).value;
      assert cs == [chunk] + rest;
      assert forall i :: 1 <= i < |cs| ==> cs[i] == rest[i - 1];
    }
  }

  /** The framing bytes and payloads of a list of chunks. */
  function Span(cs: seq<Chunk>): nat
  {
    if cs == [] then 0 else Span(cs[..|cs| - 1]) + |cs[|cs| - 1].data| + 12
  }

  /** Chunk i of a successful walk is the chunk read at the walk's start
      plus the lengths of the chunks before it: the chunks lie back to back
      in file order. */
  lemma {:induction false} WalkLayout(read: Reader, data: seq<byte>, offset: nat, first: bool, i: nat)
    requires Framed(read) && offset <= |data| && ChunksFrom(read, data, offset, first).Success?
    requires i < |ChunksFrom(read, data, offset, first).value|
    ensures var cs := ChunksFrom(read, data, offset, first).value;
      offset + Span(cs[..i]) <= |data| && read(data[offset + Span(cs[..i])..]) == Success(cs[i])
    decreases |data| - offset
  {
    var cs := ChunksFrom(read, data, offset, first).value;
    WalkHead(read, data, offset, first);
    if i == 0 {
      assert cs[..0] == [];
      var p := offset + Span(cs[..0]);
      assert p == offset;
      SameRead(read, data, p, offset, Success(cs[0]));
    } else {
      WalkCons(read, data, offset, first);
      var next := NextOffset(read, data, offset);
      var rest := ChunksFrom(read, data, next, false).value;
      WalkLayout(read, data, next, false, i - 1);
      LayoutStep(read, data, offset, next, cs, rest, i);
    }
  }

  /** A successful walk starts with the chunk read at its offset. */
  lemma WalkHead(read: Reader, data: seq<byte>, offset: nat, first: bool)
    requires Framed(read) && offset <= |data| && ChunksFrom(read, data, offset, first).Success?
    ensures read(data[offset..]) == Success(ChunksFrom(read, data, offset, first).value[0])
  {
    WalkStep(read, data, offset, first);
  }

  /** A successful walk of more than one chunk is its first chunk followed
      by the successful walk from where that chunk ends. */
  lemma WalkCons(read: Reader, data: seq<byte>, offset: nat, first: bool)
    requires Framed(read) && offset <= |data| && ChunksFrom(read, data, offset, first).Success?
    requires |ChunksFrom(read, data, offset, first).value| > 1
    ensures read(data[offset..]).Success?
    ensures ChunksFrom(read, data, NextOffset(read, data, offset), false).Success?
    ensures ChunksFrom(read, data, offset, first).value
            == [read(data[offset..]).value] + ChunksFrom(read, data, NextOffset(read, data, offset), false).value
  {
    WalkStep(read, data, offset, first);
  }

  /** The layout of chunk i follows from that of chunk i - 1 of the rest. */
  lemma LayoutStep(read: Reader, data: seq<byte>, offset: nat, next: nat, cs: seq<Chunk>, rest: seq<Chunk>, i: nat)
    requires 0 < i < |cs| && cs == [cs[0]] + rest && next == offset + |cs[0].data| + 12
    requires next + Span(rest[..i - 1]) <= |data| && read(data[next + Span(rest[..i - 1])..]) == Success(rest[i - 1])
    ensures offset + Span(cs[..i]) <= |data| && read(data[offset + Span(cs[..i])..]) == Success(cs[i])
  {
    SpanCons(cs[0], rest[..i - 1]);
    assert cs[..i] == [cs[0]] + rest[..i - 1];
    var p := offset + Span(cs[..i]);
    var q := next + Span(rest[..i - 1]);
    assert p == q;
    SameRead(read, data, p, q, Success(rest[i - 1]));
    assert cs[i] == rest[i - 1];
  }

  lemma SameRead(read: Reader, data: seq<byte>, p: nat, q: nat, r: Result<Chunk, Error>)
    requires p == q <= |data| && read(data[q..]) == r
    ensures read(data[p..]) == r
  {
  }

  lemma {:induction false} SpanCons(c: Chunk, cs: seq<Chunk>)
    ensures Span([c] + cs) == |c.data| + 12 + Span(cs)
    decreases |cs|
  {
    if cs != [] {
      var init := cs[..|cs| - 1];
      assert ([c] + cs)[..|[c] + cs| - 1] == [c] + init;
      SpanCons(c, init);
    }
  }

  /** A failing walk fails with the reader's error or because the first
      chunk is not IHDR. */
  lemma {:induction false} WalkErrors(read: Reader, data: seq<byte>, offset: nat, first: bool)
    requires Framed(read) && offset <= |data| && ChunksFrom(read, data, offset, first).Failure?
    requires forall view :: read(view).Failure? ==> read(view).error.RangeError? || read(view).error.CrcError?
    ensures var e := ChunksFrom(read, data, offset, first).error;
      e.RangeError? || e.CrcError? || (first && e == FirstChunkNotIhdr)
    decreases |data| - offset
  {
    WalkStep(read, data, offset, first);
    var r := read(data[offset..]);
    if r.Success? && !(first && r.value.chunkType != IhdrCode()) && r.value.chunkType != IendCode() {
      WalkErrors(read, data, NextOffset(read, data, offset), false);
    }
  }

  /** The ways reading a file's chunks fails: a bad signature, a read past
      the end (which is also how a file without IEND ends), a CRC mismatch,
      or a first chunk other than IHDR. */
  lemma FileErrors(data: seq<byte>)
    requires FileChunks(data).Failure?
    ensures var e := FileChunks(data).error;
      e == SignatureError || e == RangeError || e.CrcError? || e == FirstChunkNotIhdr
  {
    if SignatureCheck(data).Pass? {
      ChunkOfFramed();
      WalkErrors(ChunkOf, data, 8, true);
    }
  }

  /** A payload whose length fits the 32-bit length field. */
  type Payload = s: seq<byte> | |s| < 0x1_0000_0000

  /** A chunk as a file lays it out: its type code and payload. */
  datatype RawChunk = RawChunk(chunkType: u32, payload: Payload)

  /** How a chunk is laid out in bytes, and what record is read from it. */
  type Layout = RawChunk -> seq<byte>
  type Decoder = RawChunk -> Chunk

  /** The bytes of one chunk in the file: length, type, payload, CRC. */
  function Laid(raw: RawChunk): (r: seq<byte>)
    ensures |r| == |raw.payload| + 12
  {
    ChunkBytes(raw.chunkType, raw.payload)
  }

  /** The chunk record the reader builds for a laid-out chunk. */
  function Decoded(raw: RawChunk): Chunk
  {
    Chunk(raw.chunkType, Chars(Be32(raw.chunkType)), raw.payload, FlagsOf(Be32(raw.chunkType)))
  }

  /** Chunks laid out by `lay`, back to back. */
  function Concat(lay: Layout, raws: seq<RawChunk>): seq<byte>
  {
    if raws == [] then [] else lay(raws[0]) + Concat(lay, raws[1..])
  }

  /** The bytes of the chunks back to back, as a file holds them. */
  function Encode(raws: seq<RawChunk>): seq<byte>
  {
    Concat(Laid, raws)
  }

  /** What a record builder makes of laid-out chunks, in order. */
  function Records(decode: Decoder, raws: seq<RawChunk>): (cs: seq<Chunk>)
    ensures |cs| == |raws|
    ensures forall i :: 0 <= i < |raws| ==> cs[i] == decode(raws[i])
  {
    if raws == [] then [] else [decode(raws[0])] + Records(decode, raws[1..])
  }

  /** A reader that reads every chunk laid out by `lay` back as `decode`
      builds its record, whatever follows it, and fails with a RangeError on
      no bytes at all; the layout adds 12 bytes to the payload and the record
      keeps the type and the payload. readChunk is one, with Laid and
      Decoded (ChunkOfReadsBack). */
  ghost predicate ReadsBack(read: Reader, lay: Layout, decode: Decoder)
  {
    && read([]) == Failure(RangeError)
    && (forall raw :: |lay(raw)| == |raw.payload| + 12)
    && (forall raw :: decode(raw).chunkType == raw.chunkType && decode(raw).data == raw.payload)
    && forall raw, after :: read(lay(raw) + after) == Success(decode(raw))
  }

  lemma ChunkOfReadsBack()
    ensures ReadsBack(ChunkOf, Laid, Decoded)
  {
    forall raw, after ensures ChunkOf(Laid(raw) + after) == Success(Decoded(raw)) {
      ReadChunkBytes(raw.chunkType, raw.payload, after);
    }
  }

  /** The layout of a non-empty list: the first chunk's bytes, then the
      others'. */
  lemma ConcatCons(lay: Layout, raws: seq<RawChunk>, rest: seq<byte>)
    requires |raws| > 0
    ensures Concat(lay, raws) + rest == lay(raws[0]) + (Concat(lay, raws[1..]) + rest)
  {
  }

  /** The first chunk of a layout is read back with its type and its
      payload. */
  lemma EncodedFirst(read: Reader, lay: Layout, decode: Decoder, data: seq<byte>, offset: nat, raws: seq<RawChunk>, rest: seq<byte>)
    requires ReadsBack(read, lay, decode)
    requires |raws| > 0 && offset <= |data| && data[offset..] == Concat(lay, raws) + rest
    ensures read(data[offset..]) == Success(decode(raws[0]))
    ensures decode(raws[0]).chunkType == raws[0].chunkType && decode(raws[0]).data == raws[0].payload
  {
    ConcatCons(lay, raws, rest);
    assert read(lay(raws[0]) + (Concat(lay, raws[1..]) + rest)) == Success(decode(raws[0]));
  }

  /** Where the first chunk of a layout ends the layout of the others
      begins. */
  lemma EncodedLayout(read: Reader, lay: Layout, decode: Decoder, data: seq<byte>, offset: nat, raws: seq<RawChunk>, rest: seq<byte>)
    requires ReadsBack(read, lay, decode)
    requires |raws| > 0 && offset <= |data| && data[offset..] == Concat(lay, raws) + rest
    ensures var next := offset + |raws[0].payload| + 12;
      next <= |data| && data[next..] == Concat(lay, raws[1..]) + rest
  {
    ConcatCons(lay, raws, rest);
    DropSplit(data, offset, lay(raws[0]), Concat(lay, raws[1..]) + rest);
  }

  /** Past the first part of what follows `offset` lies the second. */
  lemma DropSplit(data: seq<byte>, offset: nat, head: seq<byte>, after: seq<byte>)
    requires offset <= |data| && data[offset..] == head + after
    ensures data[offset + |head|..] == after
  {
    assert data[offset + |head|..] == data[offset..][|head|..];
  }

  /** One step of the walk from the chunk read at `offset`. */
  lemma WalkReadBy(read: Reader, data: seq<byte>, offset: nat, first: bool, chunk: Chunk)
    requires Framed(read) && offset <= |data| && read(data[offset..]) == Success(chunk)
    ensures ChunksFrom(read, data, offset, first)
            == if first && chunk.chunkType != IhdrCode() then Failure(FirstChunkNotIhdr)
               else if chunk.chunkType == IendCode() then Success([chunk])
               else Prepend([chunk], ChunksFrom(read, data, offset + |chunk.data| + 12, false))
  {
    WalkStep(read, data, offset, first);
  }

  /** A chunk that neither ends the walk nor fails it is put in front of
      the chunks walked after it. */
  lemma WalkOn(read: Reader, data: seq<byte>, offset: nat, first: bool, chunk: Chunk, after: seq<Chunk>)
    requires Framed(read) && offset <= |data| && read(data[offset..]) == Success(chunk)
    requires !(first && chunk.chunkType != IhdrCode()) && chunk.chunkType != IendCode()
    requires ChunksFrom(read, data, offset + |chunk.data| + 12, false) == Success(after)
    ensures ChunksFrom(read, data, offset, first) == Success([chunk] + after)
  {
    WalkReadBy(read, data, offset, first, chunk);
  }

  /** Chunks with IEND last and nowhere before are walked back one for
      one, whatever follows IEND. */
  lemma {:induction false} WalkEncodedBy(read: Reader, lay: Layout, decode: Decoder, data: seq<byte>, offset: nat, raws: seq<RawChunk>, rest: seq<byte>, first: bool)
    requires Framed(read) && ReadsBack(read, lay, decode)
    requires |raws| > 0 && offset <= |data| && data[offset..] == Concat(lay, raws) + rest
    requires first ==> raws[0].chunkType == IhdrCode()
    requires raws[|raws| - 1].chunkType == IendCode()
    requires forall i :: 0 <= i < |raws| - 1 ==> raws[i].chunkType != IendCode()
    ensures ChunksFrom(read, data, offset, first) == Success(Records(decode, raws))
    decreases |raws|
  {
    var chunk := decode(raws[0]);
    EncodedFirst(read, lay, decode, data, offset, raws, rest);
    if |raws| > 1 {
      EncodedLayout(read, lay, decode, data, offset, raws, rest);
      var tail := raws[1..];
      IendOnlyLast(raws);
      WalkEncodedBy(read, lay, decode, data, offset + |raws[0].payload| + 12, tail, rest, false);
      WalkOn(read, data, offset, first, chunk, Records(decode, tail));
      assert Records(decode, raws) == [chunk] + Records(decode, tail);
    } else {
      WalkReadBy(read, data, offset, first, chunk);
      assert Records(decode, raws) == [chunk];
    }
  }

  /** IEND last and nowhere before holds of the chunks after the first. */
  lemma IendOnlyLast(raws: seq<RawChunk>)
    requires |raws| > 1 && raws[|raws| - 1].chunkType == IendCode()
    requires forall i :: 0 <= i < |raws| - 1 ==> raws[i].chunkType != IendCode()
    ensures var tail := raws[1..];
      && tail[|tail| - 1].chunkType == IendCode()
      && forall i :: 0 <= i < |tail| - 1 ==> tail[i].chunkType != IendCode()
  {
    var tail := raws[1..];
    forall i | 0 <= i < |tail| - 1 ensures tail[i].chunkType != IendCode() { assert tail[i] == raws[i + 1]; }
  }

  /** Chunks without IEND run off the end of the file: the walk fails as
      the reader does on no bytes. */
  lemma {:induction false} WalkWithoutIendBy(read: Reader, lay: Layout, decode: Decoder, data: seq<byte>, offset: nat, raws: seq<RawChunk>, first: bool)
    requires Framed(read) && ReadsBack(read, lay, decode)
    requires offset <= |data| && data[offset..] == Concat(lay, raws)
    requires first && |raws| > 0 ==> raws[0].chunkType == IhdrCode()
    requires forall i :: 0 <= i < |raws| ==> raws[i].chunkType != IendCode()
    ensures ChunksFrom(read, data, offset, first) == Failure(RangeError)
    decreases |raws|
  {
    if raws == [] {
      WalkStep(read, data, offset, first);
    } else {
      assert data[offset..] == Concat(lay, raws) + [];
      EncodedFirst(read, lay, decode, data, offset, raws, []);
      EncodedLayout(read, lay, decode, data, offset, raws, []);
      var tail := raws[1..];
      assert Concat(lay, tail) + [] == Concat(lay, tail);
      forall i | 0 <= i < |tail| ensures tail[i].chunkType != IendCode() { assert tail[i] == raws[i + 1]; }
      WalkWithoutIendBy(read, lay, decode, data, offset + |raws[0].payload| + 12, tail, false);
      WalkReadBy(read, data, offset, first, decode(raws[0]));
    }
  }

  /** Past a good signature the chunk list is the walk from byte 8. */
  lemma SignedFile(data: seq<byte>)
    requires |data| >= 8 && data[..8] == Constants.Signature
    ensures FileChunks(data) == Walk(data, 8, true)
  {
  }

  /** The round trip of the walk: a file of the signature and chunks with
      IHDR first, IEND last and nowhere before, followed by anything, reads
      back as those chunks. */
  lemma WalkEncoded(data: seq<byte>, raws: seq<RawChunk>, rest: seq<byte>)
    requires |raws| > 0 && raws[0].chunkType == IhdrCode()
    requires raws[|raws| - 1].chunkType == IendCode()
    requires forall i :: 0 <= i < |raws| - 1 ==> raws[i].chunkType != IendCode()
    requires |data| >= 8 && data[..8] == Constants.Signature && data[8..] == Encode(raws) + rest
    ensures FileChunks(data) == Success(Records(Decoded, raws))
  {
    ChunkOfFramed();
    ChunkOfReadsBack();
    WalkEncodedBy(ChunkOf, Laid, Decoded, data, 8, raws, rest, true);
    SignedFile(data);
  }

  /** A file of the signature and IHDR-led chunks without IEND fails with
      a RangeError. */
  lemma WalkWithoutIend(data: seq<byte>, raws: seq<RawChunk>)
    requires |raws| > 0 ==> raws[0].chunkType == IhdrCode()
    requires forall i :: 0 <= i < |raws| ==> raws[i].chunkType != IendCode()
    requires |data| >= 8 && data[..8] == Constants.Signature && data[8..] == Encode(raws)
    ensures FileChunks(data) == Failure(RangeError)
  {
    ChunkOfFramed();
    ChunkOfReadsBack();
    WalkWithoutIendBy(ChunkOf, Laid, Decoded, data, 8, raws, true);
    SignedFile(data);
  }

  /** A first chunk other than IHDR is rejected once it has been read. */
  lemma FirstNotIhdr(data: seq<byte>, raws: seq<RawChunk>, rest: seq<byte>)
    requires |raws| > 0 && raws[0].chunkType != IhdrCode()
    requires |data| >= 8 && data[..8] == Constants.Signature && data[8..] == Encode(raws) + rest
    ensures FileChunks(data) == Failure(FirstChunkNotIhdr)
  {
    ChunkOfFramed();
    ChunkOfReadsBack();
    EncodedFirst(ChunkOf, Laid, Decoded, data, 8, raws, rest);
    WalkReadBy(ChunkOf, data, 8, true, Decoded(raws[0]));
    SignedFile(data);
  }

  // ---------------------------------------------------------------------
  // PNGImage

  /** What the constructor computes: the chunk list, then parseChunks. */
  function Decode(data: seq<byte>, inflate: Inflater): Result<ParsedChunksData, Error>
  {
    var chunks :- FileChunks(data);
    ParseChunks(chunks, inflate)
  }

  class PNGImage {
    const parsed: ParsedChunksData

    constructor (parsed: ParsedChunksData)
      ensures this.parsed == parsed
    {
      this.parsed := parsed;
    }

    /** `fromPNGDataStream(data)`: the private constructor's work, which
        throws or yields an image holding the parse result. */
    static method FromPNGDataStream(data: seq<byte>, inflate: Inflater) returns (r: Result<PNGImage, Error>)
      ensures Decode(data, inflate).Failure? ==> r == Failure(Decode(data, inflate).error)
      ensures Decode(data, inflate).Success? ==> r.Success? && r.value.parsed == Decode(data, inflate).value
    {
      var chunks := ReadChunks(data);
      if chunks.Failure? {
        return Failure(chunks.error);
      }
      var parsed := ParseChunks(chunks.value, inflate);
      if parsed.Failure? {
        return Failure(parsed.error);
      }
      var image := new PNGImage(parsed.value);
      r := Success(image);
    }

    /** The `width` and `height` getters. */
    function Width(): u32
    {
      parsed.info.width
    }

    function Height(): u32
    {
      parsed.info.height
    }

    /** The `bitDepth` getter as written: the parse result's header has no
        `bitDepth` field (readIHDR names it `depth`), so it is undefined. */
    function BitDepthAsWritten(): (r: Option<int>)
      ensures r == None
    {
      None
    }

    /** The `sampleDepth` getter as written: for indexed colour it reads a
        `sampleDepth` property the palette does not have, otherwise the
        header's missing `bitDepth`; undefined either way. */
    function SampleDepthAsWritten(): (r: Option<int>)
      ensures r == None
    {
      if parsed.info.colorType == IndexedColor then None else BitDepthAsWritten()
    }

    /** The getters as intended: the header's `depth`, and for indexed colour
        the palette's own sample depth. */
    function BitDepth(): int
    {
      parsed.info.depth
    }

    function SampleDepth(): (r: int)
      ensures parsed.info.colorType != IndexedColor ==> r == parsed.info.depth
      ensures parsed.info.colorType == IndexedColor && parsed.palette.Some? ==> r == parsed.palette.value.GetSampleDepth()
    {
      if parsed.info.colorType == IndexedColor && parsed.palette.Some? then parsed.palette.value.GetSampleDepth()
      else BitDepth()
    }

    /** The `channelsMap` getter: Y, YA, RGB and RGBA for the colour types
        0, 4, 2 and 6; for indexed colour it reads a `channelsMap` property
        the palette does not have, which is undefined. */
    function Channels(): (r: Option<ChannelsMap>)
      ensures r.None? <==> !(parsed.info.colorType in {GreyScale, GreyScaleWithAlpha, TrueColor, TrueColorWithAlpha})
      ensures r.Some? ==> (r.value.HasAlpha() <==> parsed.info.colorType in {GreyScaleWithAlpha, TrueColorWithAlpha})
      ensures r.Some? ==> (r.value.ColorCount() == 3 <==> parsed.info.colorType in {TrueColor, TrueColorWithAlpha})
    {
      var c := parsed.info.colorType;
      if c == GreyScale then Some(Y)
      else if c == GreyScaleWithAlpha then Some(YA)
      else if c == TrueColor then Some(RGB)
      else if c == TrueColorWithAlpha then Some(RGBA)
      else None
    }

    /** The `channelsMap` getter as intended: for indexed colour the layout
        of the palette's colours, which getColor returns as r, g, b and a. */
    function ChannelsIntended(): (r: Option<ChannelsMap>)
      ensures r.None? <==> !IsColorType(parsed.info.colorType)
      ensures parsed.info.colorType != IndexedColor ==> r == Channels()
      ensures parsed.info.colorType == IndexedColor ==> r.Some? && r.value.Length() == 4 && r.value.HasAlpha()
    {
      if parsed.info.colorType == IndexedColor then Some(RGBA) else Channels()
    }
  }

  /** The discrepancy of the channelsMap getter: for an indexed-colour image
      it reads the palette's missing `channelsMap` and is undefined, while
      the palette's colours have the four channels of RGBA. */
  lemma ChannelsUndefinedForIndexedImage(image: PNGImage)
    requires image.parsed.info.colorType == IndexedColor
    ensures image.Channels() == None
    ensures image.ChannelsIntended() == Some(RGBA)
  {
  }

  /** The discrepancy of the sampleDepth getter: an 8-bit truecolour image
      has sample depth 8, yet the getter as written yields undefined. */
  lemma SampleDepthUndefinedForDecodedImage(image: PNGImage)
    requires image.parsed.info.colorType == TrueColor && image.parsed.info.depth == 8
    ensures image.SampleDepthAsWritten() == None
    ensures image.SampleDepth() == 8
  {
  }

  /** The same for indexed colour: the getter reads the palette's missing
      `sampleDepth` property and yields undefined, where the palette's
      getSampleDepth() gives its depth. */
  lemma SampleDepthUndefinedForIndexedImage(image: PNGImage)
    requires image.parsed.info.colorType == IndexedColor && image.parsed.palette.Some?
    ensures image.SampleDepthAsWritten() == None
    ensures image.SampleDepth() == image.parsed.palette.value.GetSampleDepth()
  {
  }

  /** For a decoded file the corrected sampleDepth is the header's sample
      depth (8 for indexed colour, whose PLTE palette holds bytes), and the
      dimensions are the first four and next four bytes of the IHDR
      payload, the first chunk of the file. */
  lemma DecodedHeader(data: seq<byte>, inflate: Inflater, image: PNGImage)
    requires Decode(data, inflate).Success? && image.parsed == Decode(data, inflate).value
    ensures |image.parsed.chunks| > 0 && image.parsed.chunks[0].chunkType == IhdrCode()
    ensures |image.parsed.chunks[0].data| >= 13
    ensures Be32(image.Width()) == image.parsed.chunks[0].data[0..4]
    ensures Be32(image.Height()) == image.parsed.chunks[0].data[4..8]
    ensures image.SampleDepth() == image.parsed.info.SampleDepth()
  {
    var chunks := FileChunks(data).value;
    var parsed := image.parsed;
    assert ParseChunks(chunks, inflate) == Success(parsed);
    ChunkOfFramed();
    WalkShape(ChunkOf, data, 8, true);
    ParseChunksResult(chunks, inflate);
    var info := ReadIHDR(chunks[0].data).value;
    assert parsed.info == info && parsed.chunks == chunks;
    if info.colorType == IndexedColor {
      assert parsed.palette == ParsePalette(info, chunks);
      assert parsed.palette.value.kind.Uint8?;
      assert image.SampleDepth() == 8;
    } else {
      NoPaletteBit(info.colorType);
      assert image.SampleDepth() == info.depth;
    }
  }

  lemma NoPaletteBit(c: int)
    requires IsColorType(c) && c != IndexedColor
    ensures !HasPalette(c)
  {
  }
}
