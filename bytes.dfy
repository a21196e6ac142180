/** Unsigned integers of fixed width and the big-endian byte layout used by
    DataView (getUint16/getUint32, setUint16/setUint32) and by the IHDR helpers. */
module Bytes {

  type byte = x: int | 0 <= x < 0x100
  type u16 = x: int | 0 <= x < 0x1_0000
  type u32 = x: int | 0 <= x < 0x1_0000_0000

  function Pow2(n: nat): (r: nat)
    ensures r >= 1
  {
    if n == 0 then 1 else 2 * Pow2(n - 1)
  }

  /** Powers of two multiply by adding exponents. */
  lemma {:induction false} Pow2Add(a: nat, b: nat)
    ensures Pow2(a + b) == Pow2(a) * Pow2(b)
  {
    if a > 0 {
      Pow2Add(a - 1, b);
      assert Pow2(a + b) == 2 * Pow2(a - 1 + b);
    }
  }

  /** 2^d at the PNG bit depths 1, 2, 4, 8 and 16. */
  lemma DepthPowers()
    ensures Pow2(1) == 2 && Pow2(2) == 4 && Pow2(4) == 16 && Pow2(8) == 256 && Pow2(16) == 65536
  {
    assert Pow2(2) == 4;
    Pow2Add(2, 2);
    Pow2Add(4, 4);
    Pow2Add(8, 8);
  }

  /** DataView.getUint16: the big-endian value of the two bytes at `off`. */
  function U16At(s: seq<byte>, off: nat): u16
    requires off + 2 <= |s|
  {
    s[off] as int * 0x100 + s[off + 1]
  }

  /** DataView.getUint32: the big-endian value of the four bytes at `off`. */
  function U32At(s: seq<byte>, off: nat): u32
    requires off + 4 <= |s|
  {
    s[off] as int * 0x100_0000 + s[off + 1] as int * 0x1_0000 + s[off + 2] as int * 0x100 + s[off + 3]
  }

  /** The two bytes setUint16 stores for `v`, most significant first. */
  function Be16(v: u16): seq<byte>
  {
    [v / 0x100, v % 0x100]
  }

  /** The four bytes setUint32 stores for `v`, most significant first. */
  function Be32(v: u32): seq<byte>
  {
    [v / 0x100_0000, (v / 0x1_0000) % 0x100, (v / 0x100) % 0x100, v % 0x100]
  }

  /** String.fromCharCode applied to each byte. */
  function Chars(s: seq<byte>): (r: string)
    ensures |r| == |s|
    ensures forall i :: 0 <= i < |s| ==> r[i] as int == s[i]
  {
    seq(|s|, i requires 0 <= i < |s| => s[i] as char)
  }

  lemma {:induction false} U16RoundTrip(v: u16)
    ensures |Be16(v)| == 2 && U16At(Be16(v), 0) == v
  {
    var q, r := v / 0x100, v % 0x100;
    assert v == q * 0x100 + r;
  }

  lemma {:induction false} U16Bytes(s: seq<byte>, off: nat)
    requires off + 2 <= |s|
    ensures Be16(U16At(s, off)) == s[off..off + 2]
  {
    var v := U16At(s, off);
    DivModUnique(v, 0x100, s[off], s[off + 1]);
  }

  lemma {:induction false} U32RoundTrip(v: u32)
    ensures |Be32(v)| == 4 && U32At(Be32(v), 0) == v
  {
    var b := Be32(v);
    var a := v / 0x100;
    var c := a / 0x100;
    assert v == a * 0x100 + b[3];
    assert a == c * 0x100 + b[2];
    assert c == b[0] as int * 0x100 + b[1] by {
      assert c == v / 0x1_0000 by { DivDiv(v, 0x100, 0x100); }
      assert c / 0x100 == v / 0x100_0000 by { DivDiv(v, 0x1_0000, 0x100); }
    }
  }

  lemma {:induction false} U32Bytes(s: seq<byte>, off: nat)
    requires off + 4 <= |s|
    ensures Be32(U32At(s, off)) == s[off..off + 4]
  {
    var v := U32At(s, off);
    var a: int := s[off] as int * 0x1_0000 + s[off + 1] as int * 0x100 + s[off + 2];
    var c: int := s[off] as int * 0x100 + s[off + 1];
    assert v == a * 0x100 + s[off + 3];
    DivModUnique(v, 0x100, a, s[off + 3]);
    DivModUnique(a, 0x100, c, s[off + 2]);
    DivModUnique(c, 0x100, s[off], s[off + 1]);
    DivDiv(v, 0x100, 0x100);
    DivDiv(v, 0x1_0000, 0x100);
  }

  /** `a * b` as repeated addition: offsets into flattened rows and pixels
      are reasoned about through this function, without nonlinear arithmetic. */
  function Times(a: nat, b: nat): (r: nat)
    ensures a > 0 ==> r >= b
    decreases a
  {
    if a == 0 then 0 else Times(a - 1, b) + b
  }

  lemma {:induction false} TimesIsProduct(a: nat, b: nat)
    ensures Times(a, b) == a * b
    decreases a
  {
    if a > 0 {
      TimesIsProduct(a - 1, b);
      assert (a - 1) * b + b == a * b;
    }
  }

  lemma {:induction false} TimesMono(a: nat, c: nat, b: nat)
    requires c <= a
    ensures Times(c, b) <= Times(a, b)
    decreases a
  {
    if c < a {
      TimesMono(a - 1, c, b);
    }
  }

  lemma DivModUnique(v: int, d: int, q: int, r: int)
    requires d > 0 && 0 <= r < d && v == q * d + r
    ensures v / d == q && v % d == r
  {
    var q', r' := v / d, v % d;
    assert (q - q') * d == r' - r;
    if q > q' {
      assert (q - q') * d >= d by { MulMono(q - q', 1, d); }
    } else if q < q' {
      assert (q' - q) * d >= d by { MulMono(q' - q, 1, d); }
    }
  }

  /** Slot 4i + c of a four-slot-per-item array belongs to item i, at
      position c. */
  lemma QuarterOf(i: nat, c: nat)
    requires c < 4
    ensures (4 * i + c) / 4 == i && (4 * i + c) % 4 == c
  {
  }

  lemma MulMono(a: int, b: int, d: int)
    requires a >= b && d >= 0
    ensures a * d >= b * d
  {
  }

  lemma DivDiv(v: nat, a: nat, b: nat)
    requires a > 0 && b > 0
    ensures v / a / b == v / (a * b)
  {
    var q := v / a / b;
    var r1 := v % a;
    var r2 := (v / a) % b;
    assert v == (q * b + r2) * a + r1;
    assert v == q * (a * b) + (r2 * a + r1);
    assert r2 * a + r1 < a * b by {
      assert r2 * a <= (b - 1) * a;
    }
    DivModUnique(v, a * b, q, r2 * a + r1);
  }
}
