/** The assertion helpers and DataView readers shared by the decoder
    (src/utils.ts). */
module Utils {
  import opened Bytes
  import opened Wrappers
  import opened Errors
  import opened DataViews

  /** The JavaScript values the assertions compare. Numbers are integers
      (plus NaN); an object is known by its identity. */
  datatype JsValue = Undefined | Null | Bool(b: bool) | Num(n: int) | NaN | Str(s: string) | Obj(id: nat)

  /** ToBoolean. */
  predicate Truthy(v: JsValue)
  {
    match v
    case Undefined => false
    case Null => false
    case Bool(b) => b
    case Num(n) => n != 0
    case NaN => false
    case Str(s) => s != []
    case Obj(_) => true
  }

  /** `===`: NaN equals nothing, objects are equal only to themselves. */
  predicate StrictEquals(a: JsValue, b: JsValue)
  {
    !a.NaN? && a == b
  }

  /** `assert(...args)`: fewer than one argument always fails, one argument
      fails when it is falsy, two fail when they differ (`!==`), three or
      more never fail. */
  function Assert(args: seq<JsValue>): (r: Outcome<Error>)
    ensures |args| == 0 ==> r.Fail?
    ensures |args| == 1 ==> (r.Fail? <==> !Truthy(args[0]))
    ensures |args| == 2 ==> (r.Fail? <==> (args[0].NaN? || args[0] != args[1]))
    ensures |args| >= 3 ==> r.Pass?
    ensures r.Fail? ==> r.error == AssertionError
  {
    if |args| == 0 then Fail(AssertionError)
    else if |args| == 1 then (if !Truthy(args[0]) then Fail(AssertionError) else Pass)
    else if |args| == 2 then (if !StrictEquals(args[0], args[1]) then Fail(AssertionError) else Pass)
    else Pass
  }

  /** `assertT(value, message)`: throws exactly on a falsy value. The thrown
      error is given as the Error constructor that carries its message. */
  function AssertT(value: JsValue, failure: Error): (r: Outcome<Error>)
    ensures r.Fail? <==> !Truthy(value)
    ensures r.Fail? ==> r.error == failure
  {
    if !Truthy(value) then Fail(failure) else Pass
  }

  /** No zero byte in `s`. */
  predicate NoNul(s: seq<byte>)
  {
    forall k :: 0 <= k < |s| ==> s[k] != 0
  }

  /** The text the NUL-terminated readers return from offset `off`: the
      characters of the bytes up to the first zero byte, or a RangeError
      when the bytes run out first (TextAtMeaning). */
  function TextAt(data: seq<byte>, off: int): (r: Result<string, Error>)
    decreases |data| - off
  {
    if off < 0 || off >= |data| then Failure(RangeError)
    else if data[off] == 0 then Success([])
    else Prepend([data[off] as char], TextAt(data, off + 1))
  }

  lemma {:induction false} TextAtMeaning(data: seq<byte>, off: int)
    ensures var r := TextAt(data, off);
      && (r.Success? ==> 0 <= off && off + |r.value| < |data| && data[off + |r.value|] == 0
                         && NoNul(data[off..off + |r.value|])
                         && r.value == Chars(data[off..off + |r.value|]))
      && (r.Failure? ==> r.error == RangeError && (off < 0 || forall j :: off <= j < |data| ==> data[j] != 0))
    decreases |data| - off
  {
    if 0 <= off < |data| && data[off] != 0 {
      TextAtMeaning(data, off + 1);
      match TextAt(data, off + 1)
      case Success(t) =>
        var rest := data[off + 1..off + 1 + |t|];
        assert data[off..off + 1 + |t|] == [data[off]] + rest;
        assert Chars([data[off]] + rest) == [data[off] as char] + Chars(rest);
      case Failure(e) =>
    }
  }

  /** The offset the readers' `offset++` loop ends at: one past the zero
      byte, or one past the first offset that could not be read
      (TextEndMeaning). */
  function TextEnd(data: seq<byte>, off: int): (r: int)
    decreases |data| - off
  {
    if off < 0 || off >= |data| || data[off] == 0 then off + 1
    else TextEnd(data, off + 1)
  }

  lemma {:induction false} TextEndMeaning(data: seq<byte>, off: int)
    ensures TextAt(data, off).Success? ==> TextEnd(data, off) == off + |TextAt(data, off).value| + 1
    ensures TextAt(data, off).Failure? ==> TextEnd(data, off) == (if off < 0 then off else if off < |data| then |data| else off) + 1
    decreases |data| - off
  {
    if 0 <= off < |data| && data[off] != 0 {
      TextEndMeaning(data, off + 1);
    }
  }

  /** `t` in front of a successful text. */
  function Prepend(t: string, r: Result<string, Error>): Result<string, Error>
  {
    if r.Success? then Success(t + r.value) else r
  }

  /** `readText(dataView, offset)`. */
  method ReadText(data: seq<byte>, offset: int) returns (r: Result<string, Error>)
    ensures r == TextAt(data, offset)
  {
    var end;
    r, end := ScanText(data, offset);
  }

  /** The loop the three NUL-terminated readers share: `getUint8(offset++)`
      until it returns zero or throws, collecting the characters. */
  method ScanText(data: seq<byte>, offset: int) returns (r: Result<string, Error>, end: int)
    ensures r == TextAt(data, offset)
    ensures end == TextEnd(data, offset)
  {
    var text: string := [];
    var off := offset;
    var ch := GetUint8(data, off);
    off := off + 1;
    PrependNothing(TextAt(data, offset));
    while ch.Success? && ch.value != 0
      invariant ch.Success? ==> 0 < off <= |data| && ch.value == data[off - 1]
      invariant ch.Failure? ==> !(0 <= off - 1 < |data|) && ch.error == RangeError
      invariant TextAt(data, offset) == Prepend(text, TextAt(data, off - 1))
      invariant TextEnd(data, offset) == TextEnd(data, off - 1)
      decreases |data| - off
    {
      TextStep(data, off - 1);
      PrependTwice(text, ch.value as char, TextAt(data, off));
      text := text + [ch.value as char];
      ch := GetUint8(data, off);
      off := off + 1;
    }
    end := off;
    TextStop(data, off - 1);
    if ch.Failure? {
      return Failure(ch.error), end;
    }
    assert text + [] == text;
    r := Success(text);
  }

  /** Prepend of no characters. */
  lemma PrependNothing(r: Result<string, Error>)
    ensures Prepend([], r) == r
  {
    if r.Success? {
      assert [] + r.value == r.value;
    }
  }

  /** Prepend in two steps is Prepend of both parts. */
  lemma PrependTwice(t: string, c: char, r: Result<string, Error>)
    ensures Prepend(t, Prepend([c], r)) == Prepend(t + [c], r)
  {
    if r.Success? {
      assert t + ([c] + r.value) == t + [c] + r.value;
    }
  }

  /** A non-zero byte: its character, then the text after it. */
  lemma TextStep(data: seq<byte>, off: int)
    requires 0 <= off < |data| && data[off] != 0
    ensures TextAt(data, off) == Prepend([data[off] as char], TextAt(data, off + 1))
    ensures TextEnd(data, off) == TextEnd(data, off + 1)
  {
  }

  /** Where the loop stops: no byte (RangeError) or a zero byte (no more
      text), the end one past it. */
  lemma TextStop(data: seq<byte>, off: int)
    requires !(0 <= off < |data|) || data[off] == 0
    ensures TextAt(data, off) == if 0 <= off < |data| then Success([]) else Failure(RangeError)
    ensures TextEnd(data, off) == off + 1
  {
  }

  /** `getUint(dataView, offset, bits)`: an unsupported width fails before
      any read. */
  function GetUint(data: seq<byte>, off: int, bits: int): (r: Result<int, Error>)
    ensures bits !in {8, 16, 32} ==> r == Failure(UnsupportedBits(bits))
    ensures bits in {8, 16, 32} ==> (r.Success? <==> 0 <= off && off + bits / 8 <= |data|)
    ensures r.Failure? ==> r.error == if bits in {8, 16, 32} then RangeError else UnsupportedBits(bits)
    ensures r.Success? && bits == 8 ==> r.value == data[off]
    ensures r.Success? && bits == 16 ==> r.value == U16At(data, off)
    ensures r.Success? && bits == 32 ==> r.value == U32At(data, off)
  {
    match bits
    case 8 => var v :- GetUint8(data, off); Success(v)
    case 16 => var v :- GetUint16(data, off); Success(v)
    case 32 => var v :- GetUint32(data, off); Success(v)
    case _ => Failure(UnsupportedBits(bits))
  }
}
