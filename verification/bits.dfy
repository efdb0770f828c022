/** Bit-level helpers of the demo server: packing a list of flags into one
    register word (element 0 is the least significant bit), the flags rendered
    as a string of '0'/'1' characters, and Python's `format(value, '016b')`
    rendering of a register value. */
module Bits {

  function Pow2(i: nat): (p: nat)
    ensures p >= 1
  {
    if i == 0 then 1 else 2 * Pow2(i - 1)
  }

  /** Python truthiness of a list element. */
  predicate Truthy(x: int) {
    x != 0
  }

  /** Whether bit `i` of `v` is set; bit 0 is the least significant. */
  predicate TestBit(v: nat, i: nat)
    decreases i
  {
    if i == 0 then v % 2 == 1 else TestBit(v / 2, i - 1)
  }

  /** No bit at or above the width of a value is set. */
  lemma {:induction false} TestBitAboveWidth(v: nat, i: nat)
    requires v < Pow2(i)
    ensures !TestBit(v, i)
  {
    if i > 0 {
      TestBitAboveWidth(v / 2, i - 1);
    }
  }

  /** The flags packed into one number, element 0 in the least significant bit. */
  function PackedValue(list: seq<int>): (v: nat)
    ensures v < Pow2(|list|)
  {
    PackedFrom(list, 0)
  }

  /** The flags from index `j` on, packed with element j in bit 0. */
  function PackedFrom(list: seq<int>, j: nat): (v: nat)
    requires j <= |list|
    ensures v < Pow2(|list| - j)
    decreases |list| - j
  {
    if j == |list| then 0
    else (if Truthy(list[j]) then 1 else 0) + 2 * PackedFrom(list, j + 1)
  }

  /** Bit i of the packed value is set exactly when element i is truthy. */
  lemma PackedValueBits(list: seq<int>, i: nat)
    ensures TestBit(PackedValue(list), i) <==> i < |list| && Truthy(list[i])
  {
    PackedFromBits(list, 0, i);
  }

  lemma {:induction false} PackedFromBits(list: seq<int>, j: nat, i: nat)
    requires j <= |list|
    ensures TestBit(PackedFrom(list, j), i) <==> j + i < |list| && Truthy(list[j + i])
    decreases i
  {
    if j == |list| {
      TestBitAboveWidth(0, i);
    } else if i > 0 {
      PackedFromBits(list, j + 1, i - 1);
    }
  }

  /** Appending one flag adds its weight at the next bit position. */
  lemma PackedValueAppend(s: seq<int>, x: int)
    ensures PackedValue(s + [x]) == PackedValue(s) + (if Truthy(x) then Pow2(|s|) else 0)
  {
    PackedFromAppend(s, x, 0);
  }

  lemma {:induction false} PackedFromAppend(s: seq<int>, x: int, j: nat)
    requires j <= |s|
    ensures PackedFrom(s + [x], j) == PackedFrom(s, j) + (if Truthy(x) then Pow2(|s| - j) else 0)
    decreases |s| - j
  {
    if j < |s| {
      assert (s + [x])[j] == s[j];
      PackedFromAppend(s, x, j + 1);
    } else {
      assert (s + [x])[j] == x;
    }
  }

  /** The server's packing: the sum of 2^i over the positions i holding a
      truthy element. */
  method PackBits(list: seq<int>) returns (v: nat)
    ensures v == PackedValue(list)
    ensures forall i: nat :: TestBit(v, i) <==> i < |list| && Truthy(list[i])
    ensures v < Pow2(|list|)
  {
    v := 0;
    var i := 0;
    while i < |list|
      invariant 0 <= i <= |list|
      invariant v == PackedValue(list[..i])
    {
      assert list[..i + 1] == list[..i] + [list[i]];
      PackedValueAppend(list[..i], list[i]);
      if Truthy(list[i]) {
        v := v + Pow2(i);
      }
      i := i + 1;
    }
    assert list[..i] == list;
    forall j: nat
      ensures TestBit(v, j) <==> j < |list| && Truthy(list[j])
    {
      PackedValueBits(list, j);
    }
  }

  function Digit(b: bool): char {
    if b then '1' else '0'
  }

  /** The flags as a string of bits, element 0 first. */
  function BitString(list: seq<int>): (s: string)
    ensures |s| == |list|
  {
    if |list| == 0 then "" else [Digit(Truthy(list[0]))] + BitString(list[1..])
  }

  /** Character i of the bit string is '1' when element i is truthy and '0'
      otherwise. */
  lemma {:induction false} BitStringChars(list: seq<int>, i: nat)
    requires i < |list|
    ensures BitString(list)[i] == Digit(Truthy(list[i]))
  {
    if i > 0 {
      BitStringChars(list[1..], i - 1);
    }
  }

  /** The bit string reads the packed value least significant bit first. */
  lemma BitStringReadsPackedValue(list: seq<int>, i: nat)
    requires i < |list|
    ensures BitString(list)[i] == '1' <==> TestBit(PackedValue(list), i)
  {
    BitStringChars(list, i);
    PackedValueBits(list, i);
  }

  /** Base-2 digits of `v`, most significant first, without leading zeros
      ("0" for zero). */
  function Binary(v: nat): (s: string)
    ensures 1 <= |s|
    ensures forall k :: 0 <= k < |s| ==> s[k] == '0' || s[k] == '1'
    decreases v
  {
    if v < 2 then [Digit(v == 1)] else Binary(v / 2) + [Digit(v % 2 == 1)]
  }

  /** Reads a string of base-2 digits, most significant first. */
  function ParseBinary(s: string): nat {
    if |s| == 0 then 0
    else 2 * ParseBinary(s[..|s| - 1]) + (if s[|s| - 1] == '1' then 1 else 0)
  }

  lemma {:induction false} BinaryRoundTrip(v: nat)
    ensures ParseBinary(Binary(v)) == v
    decreases v
  {
    if v >= 2 {
      var s := Binary(v);
      assert s[..|s| - 1] == Binary(v / 2);
      BinaryRoundTrip(v / 2);
    }
  }

  /** The digit count of `v` is the least n with v < 2^n (at least one digit). */
  lemma {:induction false} BinaryLength(v: nat, n: nat)
    ensures v < Pow2(|Binary(v)|)
    ensures 1 <= n && v < Pow2(n) ==> |Binary(v)| <= n
    ensures v >= Pow2(n) ==> |Binary(v)| > n
    decreases v
  {
    if v >= 2 {
      if n >= 1 {
        BinaryLength(v / 2, n - 1);
      } else {
        BinaryLength(v / 2, 0);
      }
    }
  }

  /** Digit k from the right of the rendering is bit k of the value. */
  lemma {:induction false} BinaryDigits(v: nat, k: nat)
    requires k < |Binary(v)|
    ensures Binary(v)[|Binary(v)| - 1 - k] == Digit(TestBit(v, k))
    decreases v
  {
    if v >= 2 && k > 0 {
      BinaryDigits(v / 2, k - 1);
    }
  }

  function Zeros(n: nat): (s: string)
    ensures |s| == n && forall k :: 0 <= k < n ==> s[k] == '0'
  {
    if n == 0 then "" else "0" + Zeros(n - 1)
  }

  /** Leading zeros do not change the value read. */
  lemma {:induction false} ParseBinaryZeros(n: nat, s: string)
    ensures ParseBinary(Zeros(n) + s) == ParseBinary(s)
    decreases |s|
  {
    if |s| == 0 {
      ParseBinaryAllZeros(n);
      assert Zeros(n) + s == Zeros(n);
    } else {
      var t := Zeros(n) + s;
      assert t[..|t| - 1] == Zeros(n) + s[..|s| - 1];
      ParseBinaryZeros(n, s[..|s| - 1]);
    }
  }

  lemma {:induction false} ParseBinaryAllZeros(n: nat)
    ensures ParseBinary(Zeros(n)) == 0
  {
    if n > 0 {
      var z := Zeros(n);
      assert z[..|z| - 1] == Zeros(n - 1);
      ParseBinaryAllZeros(n - 1);
    }
  }

  /** A string of base-2 digits only. */
  predicate IsBinary(s: string) {
    forall k :: 0 <= k < |s| ==> s[k] == '0' || s[k] == '1'
  }

  /** The rendering of a positive value starts with a 1 digit. */
  lemma {:induction false} BinaryLeadingOne(v: nat)
    requires v >= 1
    ensures Binary(v)[0] == '1'
    decreases v
  {
    if v >= 2 {
      BinaryLeadingOne(v / 2);
      assert Binary(v)[0] == Binary(v / 2)[0];
    }
  }

  /** Zero padding keeps a string of base-2 digits one. */
  lemma PaddedBinary(b: string, width: nat)
    requires IsBinary(b)
    ensures IsBinary(PadZeros(b, width))
  {
    if |b| < width {
      var z := Zeros(width - |b|);
      assert PadZeros(b, width) == z + b;
      forall k | 0 <= k < |z + b|
        ensures (z + b)[k] == '0' || (z + b)[k] == '1'
      {
        if k >= |z| {
          assert (z + b)[k] == b[k - |z|];
        }
      }
    }
  }

  /** Left-pads with '0' up to `width` characters; longer strings are kept. */
  function PadZeros(s: string, width: nat): (p: string)
    ensures |p| == if |s| < width then width else |s|
  {
    if |s| < width then Zeros(width - |s|) + s else s
  }

  /** Python's `format(v, '016b')`: base-2 digits zero-padded to at least 16
      characters, the sign counting towards the width for a negative value. */
  function Format016b(v: int): (s: string)
    ensures |s| >= 16
    ensures 0 <= v < 0x1_0000 ==> |s| == 16
    ensures v >= 0x1_0000 ==> |s| > 16
    ensures v >= 0 ==> IsBinary(s)
    ensures v < 0 ==> s[0] == '-' && IsBinary(s[1..])
    ensures |s| > 16 ==> s[if v < 0 then 1 else 0] == '1'
  {
    if v >= 0 then
      Pow2Sixteen();
      BinaryLength(v, 16);
      PaddedBinary(Binary(v), 16);
      if v >= 1 then BinaryLeadingOne(v); PadZeros(Binary(v), 16) else PadZeros(Binary(v), 16)
    else
      PaddedBinary(Binary(-v), 15);
      BinaryLeadingOne(-v);
      var p := PadZeros(Binary(-v), 15);
      assert ("-" + p)[1..] == p;
      "-" + p
  }

  /** Reads back a `format(v, '016b')` rendering. */
  function ParseFormatted(s: string): int {
    if |s| > 0 && s[0] == '-' then 0 - ParseBinary(s[1..]) else ParseBinary(s)
  }

  /** The rendering loses nothing: reading it back gives the value. */
  lemma FormatRoundTrip(v: int)
    ensures ParseFormatted(Format016b(v)) == v
  {
    if v >= 0 {
      var p := PadZeros(Binary(v), 16);
      assert Format016b(v) == p;
      PaddedRoundTrip(v, 16);
      assert p[0] == '0' || p[0] == '1';
    } else {
      var p := PadZeros(Binary(-v), 15);
      assert Format016b(v) == "-" + p;
      PaddedRoundTrip(-v, 15);
      assert ("-" + p)[1..] == p;
    }
  }

  lemma PaddedRoundTrip(m: nat, width: nat)
    ensures ParseBinary(PadZeros(Binary(m), width)) == m
  {
    var b := Binary(m);
    BinaryRoundTrip(m);
    if |b| < width {
      assert PadZeros(b, width) == Zeros(width - |b|) + b;
      ParseBinaryZeros(width - |b|, b);
    } else {
      assert PadZeros(b, width) == b;
    }
  }

  /** For a 16-bit value, character 15 - i of the rendering is bit i. */
  lemma {:induction false} FormattedDigits(v: nat, i: nat)
    requires v < 0x1_0000 && i < 16
    ensures Format016b(v)[15 - i] == Digit(TestBit(v, i))
  {
    Pow2Sixteen();
    BinaryLength(v, 16);
    assert Format016b(v) == PadZeros(Binary(v), 16);
    if i < |Binary(v)| {
      PaddedDigit(v, i);
    } else {
      PaddingDigit(v, i);
    }
  }

  lemma {:induction false} PaddedDigit(v: nat, i: nat)
    requires i < |Binary(v)| <= 16
    ensures PadZeros(Binary(v), 16)[15 - i] == Digit(TestBit(v, i))
  {
    var b := Binary(v);
    var z := Zeros(16 - |b|);
    if |b| < 16 {
      assert PadZeros(b, 16) == z + b;
      assert (z + b)[15 - i] == b[|b| - 1 - i];
    }
    BinaryDigits(v, i);
  }

  lemma {:induction false} PaddingDigit(v: nat, i: nat)
    requires |Binary(v)| <= i < 16
    ensures PadZeros(Binary(v), 16)[15 - i] == Digit(TestBit(v, i))
  {
    var b := Binary(v);
    var z := Zeros(16 - |b|);
    assert PadZeros(b, 16) == z + b;
    assert (z + b)[15 - i] == z[15 - i] == '0';
    BinaryLength(v, 0);
    Pow2Monotone(|b|, i);
    TestBitAboveWidth(v, i);
  }

  lemma Pow2Sixteen()
    ensures Pow2(16) == 0x1_0000
  {
    assert Pow2(4) == 16;
    assert Pow2(8) == 256;
    assert Pow2(12) == 4096;
  }

  lemma {:induction false} Pow2Monotone(a: nat, b: nat)
    requires a <= b
    ensures Pow2(a) <= Pow2(b)
    decreases b
  {
    if a < b {
      Pow2Monotone(a, b - 1);
    }
  }

  /** The two renderings of a sixteen-flag list agree in opposite orders: the
      bit string reads the flags least significant bit first, and the
      rendering of the packed word reads them most significant bit first. */
  lemma RenderingsAgree(list: seq<int>, i: nat)
    requires |list| == 16 && i < 16
    ensures Format016b(PackedValue(list))[15 - i] == BitString(list)[i]
  {
    Pow2Sixteen();
    FormattedDigits(PackedValue(list), i);
    PackedValueBits(list, i);
    BitStringChars(list, i);
  }
}
