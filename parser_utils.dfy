/** The chunk filters (src/parser/utils.ts). */
module ParserUtils {
  import opened Bytes
  import opened Wrappers
  import opened Chunks

  /** `getChunksByType(chunks, chunkType)`: `chunks.filter(c => c.chunkType === chunkType)`. */
  function GetChunksByType(chunks: seq<Chunk>, chunkType: u32): (r: seq<Chunk>)
    ensures |r| <= |chunks|
    ensures forall c :: c in r ==> c in chunks && c.chunkType == chunkType
    ensures forall c :: c in chunks && c.chunkType == chunkType ==> c in r
  {
    if chunks == [] then []
    else (if chunks[0].chunkType == chunkType then [chunks[0]] else []) + GetChunksByType(chunks[1..], chunkType)
  }

  /** The filter keeps file order: filtering a concatenation is the
      concatenation of the filtered parts. */
  lemma {:induction false} GetChunksByTypeAppend(a: seq<Chunk>, b: seq<Chunk>, chunkType: u32)
    ensures GetChunksByType(a + b, chunkType) == GetChunksByType(a, chunkType) + GetChunksByType(b, chunkType)
  {
    if a == [] {
      assert a + b == b;
    } else {
      assert (a + b)[1..] == a[1..] + b;
      GetChunksByTypeAppend(a[1..], b, chunkType);
    }
  }

  /** Every chunk of the type is kept as often as it occurs, and no other
      chunk is kept. */
  lemma {:induction false} GetChunksByTypeCounts(chunks: seq<Chunk>, chunkType: u32, c: Chunk)
    ensures multiset(GetChunksByType(chunks, chunkType))[c] == if c.chunkType == chunkType then multiset(chunks)[c] else 0
  {
    if chunks != [] {
      GetChunksByTypeCounts(chunks[1..], chunkType, c);
      assert chunks == [chunks[0]] + chunks[1..];
    }
  }

  /** `getFirstChunkByType(chunks, chunkType)`: the first element of the filter,
      undefined when it is empty. */
  function GetFirstChunkByType(chunks: seq<Chunk>, chunkType: u32): (r: Option<Chunk>)
    ensures r.None? <==> forall i :: 0 <= i < |chunks| ==> chunks[i].chunkType != chunkType
    ensures r.Some? ==> exists i :: 0 <= i < |chunks| && chunks[i] == r.value && r.value.chunkType == chunkType
                          && forall j :: 0 <= j < i ==> chunks[j].chunkType != chunkType
    ensures r.Some? <==> |GetChunksByType(chunks, chunkType)| > 0
    ensures r.Some? ==> r.value == GetChunksByType(chunks, chunkType)[0]
  {
    var byType := GetChunksByType(chunks, chunkType);
    FirstOfFilter(chunks, chunkType);
    if |byType| > 0 then Some(byType[0]) else None
  }

  /** The filter is empty exactly when no chunk has the type; otherwise its
      head is the earliest such chunk. */
  lemma {:induction false} FirstOfFilter(chunks: seq<Chunk>, chunkType: u32)
    ensures GetChunksByType(chunks, chunkType) == [] <==> forall i :: 0 <= i < |chunks| ==> chunks[i].chunkType != chunkType
    ensures GetChunksByType(chunks, chunkType) != [] ==>
      exists i :: 0 <= i < |chunks| && chunks[i] == GetChunksByType(chunks, chunkType)[0]
                  && chunks[i].chunkType == chunkType && forall j :: 0 <= j < i ==> chunks[j].chunkType != chunkType
  {
    if chunks != [] && chunks[0].chunkType != chunkType {
      FirstOfFilter(chunks[1..], chunkType);
      if GetChunksByType(chunks[1..], chunkType) != [] {
        var i :| 0 <= i < |chunks[1..]| && chunks[1..][i] == GetChunksByType(chunks[1..], chunkType)[0]
                 && chunks[1..][i].chunkType == chunkType && forall j :: 0 <= j < i ==> chunks[1..][j].chunkType != chunkType;
        assert chunks[i + 1] == GetChunksByType(chunks, chunkType)[0];
        assert forall j :: 0 <= j < i + 1 ==> chunks[j].chunkType != chunkType by {
          forall j | 0 <= j < i + 1 ensures chunks[j].chunkType != chunkType {
            if j > 0 { assert chunks[j] == chunks[1..][j - 1]; }
          }
        }
      } else {
        forall i | 0 <= i < |chunks| ensures chunks[i].chunkType != chunkType {
          if i > 0 { assert chunks[i] == chunks[1..][i - 1]; }
        }
      }
    } else if chunks != [] {
      assert chunks[0] == GetChunksByType(chunks, chunkType)[0];
    }
  }
}
