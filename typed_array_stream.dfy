/** A cursor over a typed array in the host's element order
    (src/utils/TypedArrayStream.ts). Reads past either end give `undefined`
    (None); stores past either end are dropped, as typed arrays do. */
module TypedArrayStreams {
  import opened Wrappers
  import opened DataViews

  /** The three element types the stream is used with. */
  datatype ElementKind = Uint8 | Uint8Clamped | Uint16
  {
    /** One more than the largest element value. */
    function Bound(): nat
    {
      if Uint16? then 0x1_0000 else 0x100
    }
  }

  predicate InRange(kind: ElementKind, v: int)
  {
    0 <= v < kind.Bound()
  }

  /** The value an element assignment stores for a JavaScript value: undefined
      becomes NaN and then 0, the plain arrays wrap, the clamped array clamps. */
  function Store(kind: ElementKind, v: Option<int>): (r: int)
    ensures InRange(kind, r)
    ensures v.Some? && InRange(kind, v.value) ==> r == v.value
    ensures v.None? ==> r == 0
    ensures v.Some? && kind.Uint8Clamped? && v.value < 0 ==> r == 0
    ensures v.Some? && kind.Uint8Clamped? && v.value > 0xff ==> r == 0xff
    ensures v.Some? && !kind.Uint8Clamped? ==> (r - v.value) % kind.Bound() == 0
  {
    match v
    case None => 0
    case Some(x) =>
      match kind
      case Uint8 => ToUint8(x)
      case Uint16 => ToUint16(x)
      case Uint8Clamped => if x < 0 then 0 else if x > 0xff then 0xff else x
  }

  class TypedArrayStream {
    const typedArray: array<int>
    const kind: ElementKind
    var offset: int

    /** Every element is a value of the element type. */
    ghost predicate Valid()
      reads this, typedArray
    {
      forall i :: 0 <= i < typedArray.Length ==> InRange(kind, typedArray[i])
    }

    constructor (typedArray: array<int>, kind: ElementKind)
      ensures this.typedArray == typedArray && this.kind == kind && offset == 0
    {
      this.typedArray := typedArray;
      this.kind := kind;
      offset := 0;
    }

    /** The element at the cursor, or undefined outside the array. */
    method Read() returns (v: Option<int>)
      modifies this
      ensures v == (if 0 <= old(offset) < typedArray.Length then Some(typedArray[old(offset)]) else None)
      ensures offset == old(offset) + 1
    {
      v := if 0 <= offset < typedArray.Length then Some(typedArray[offset]) else None;
      offset := offset + 1;
    }

    /** Stores at the cursor only (nothing outside the array), then advances. */
    method Write(v: Option<int>)
      requires Valid()
      modifies this, typedArray
      ensures Valid()
      ensures 0 <= old(offset) < typedArray.Length ==> typedArray[..] == old(typedArray[..])[old(offset) := Store(kind, v)]
      ensures !(0 <= old(offset) < typedArray.Length) ==> typedArray[..] == old(typedArray[..])
      ensures offset == old(offset) + 1
    {
      if 0 <= offset < typedArray.Length {
        typedArray[offset] := Store(kind, v);
      }
      offset := offset + 1;
    }

    method Skip(itemsCount: int)
      modifies this
      ensures offset == old(offset) + itemsCount
    {
      offset := offset + itemsCount;
    }

    method Rewind()
      modifies this
      ensures offset == 0
    {
      offset := 0;
    }
  }

  /** Writing values of the element type through a fresh stream, rewinding
      and reading as many back returns them, and leaves them in the array. */
  method WriteRewindRead(a: array<int>, kind: ElementKind, values: seq<int>) returns (readBack: seq<Option<int>>)
    requires forall i :: 0 <= i < a.Length ==> InRange(kind, a[i])
    requires forall i :: 0 <= i < |values| ==> InRange(kind, values[i])
    requires |values| <= a.Length
    modifies a
    ensures a[..|values|] == values && a[|values|..] == old(a[|values|..])
    ensures |readBack| == |values|
    ensures forall i :: 0 <= i < |values| ==> readBack[i] == Some(values[i])
  {
    var stream := new TypedArrayStream(a, kind);
    var k := 0;
    while k < |values|
      invariant 0 <= k <= |values| && stream.offset == k
      invariant stream.typedArray == a && stream.kind == kind && stream.Valid()
      invariant a[..k] == values[..k] && a[k..] == old(a[k..])
    {
      stream.Write(Some(values[k]));
      k := k + 1;
    }
    stream.Rewind();
    readBack := [];
    k := 0;
    while k < |values|
      invariant 0 <= k <= |values| && stream.offset == k
      invariant a[..|values|] == values && a[|values|..] == old(a[|values|..])
      invariant |readBack| == k
      invariant forall i :: 0 <= i < k ==> readBack[i] == Some(values[i])
    {
      var v := stream.Read();
      readBack := readBack + [v];
      k := k + 1;
    }
  }
}
