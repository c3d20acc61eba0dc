/** Fixed-width integers as they sit in a byte stream: little-endian, two's
    complement, and the 32-bit wrap-around of a C `int`. */
module Binary {

  /** One byte of the stream. */
  type byte = b: int | 0 <= b < 256

  /** 256 to the power n: how many values n bytes can hold. */
  function Pow256(n: nat): (r: nat)
    ensures r >= 1
  {
    if n == 0 then 1 else 256 * Pow256(n - 1)
  }

  lemma Pow256Values()
    ensures Pow256(2) == 0x1_0000
    ensures Pow256(4) == 0x1_0000_0000
  {
  }

  /** The unsigned value of s, least significant byte first. */
  function Unsigned(s: seq<byte>): (r: nat)
    ensures r < Pow256(|s|)
  {
    if s == [] then 0 else s[0] + 256 * Unsigned(s[1..])
  }

  /** The width-byte little-endian representation of n. */
  function Encode(n: nat, width: nat): (s: seq<byte>)
    requires n < Pow256(width)
    ensures |s| == width
  {
    if width == 0 then [] else [n % 256] + Encode(n / 256, width - 1)
  }

  lemma {:induction false} UnsignedEncode(n: nat, width: nat)
    requires n < Pow256(width)
    ensures Unsigned(Encode(n, width)) == n
  {
    if width > 0 {
      var tail := Encode(n / 256, width - 1);
      assert Encode(n, width)[1..] == tail;
      UnsignedEncode(n / 256, width - 1);
    }
  }

  lemma {:induction false} EncodeUnsigned(s: seq<byte>)
    ensures Encode(Unsigned(s), |s|) == s
  {
    if s != [] {
      var u := Unsigned(s);
      assert u % 256 == s[0] && u / 256 == Unsigned(s[1..]);
      EncodeUnsigned(s[1..]);
      assert s == [s[0]] + s[1..];
    }
  }

  /** Half the values of width bytes: the bound of the signed range. */
  function Half(width: nat): (h: int)
    requires width > 0
    ensures h > 0 && 2 * h == Pow256(width)
  {
    128 * Pow256(width - 1)
  }

  /** x is representable as a width-byte two's-complement integer. */
  predicate FitsSigned(x: int, width: nat)
  {
    width > 0 && -Half(width) <= x < Half(width)
  }

  /** A C `int` on the hosts the model assumes (32 bits). */
  predicate IsInt32(x: int)
  {
    -0x8000_0000 <= x < 0x8000_0000
  }

  /** A C `short` (16 bits). */
  predicate IsInt16(x: int)
  {
    -0x8000 <= x < 0x8000
  }

  /** The two's-complement value of s: the one value of the signed range
      that is either the unsigned reading or that reading less 256^|s|. */
  function Signed(s: seq<byte>): (r: int)
    requires |s| > 0
    ensures FitsSigned(r, |s|)
    ensures r == Unsigned(s) || r == Unsigned(s) - Pow256(|s|)
    ensures r < 0 <==> Unsigned(s) >= Half(|s|)
  {
    var u := Unsigned(s);
    if u < Half(|s|) then u else u - Pow256(|s|)
  }

  /** The width-byte two's-complement representation of x. */
  function EncodeSigned(x: int, width: nat): (s: seq<byte>)
    requires FitsSigned(x, width)
    ensures |s| == width
  {
    Encode(if x >= 0 then x else x + Pow256(width), width)
  }

  lemma SignedEncodeSigned(x: int, width: nat)
    requires FitsSigned(x, width)
    ensures Signed(EncodeSigned(x, width)) == x
  {
    UnsignedEncode(if x >= 0 then x else x + Pow256(width), width);
  }

  lemma EncodeSignedSigned(s: seq<byte>)
    requires |s| > 0
    ensures EncodeSigned(Signed(s), |s|) == s
  {
    EncodeUnsigned(s);
  }

  /** The values a 4-byte signed field can hold are exactly the `int`s. */
  lemma Int32IsFourBytes(x: int)
    ensures IsInt32(x) <==> exists s: seq<byte> :: |s| == 4 && Signed(s) == x
  {
    Pow256Values();
    if IsInt32(x) {
      SignedEncodeSigned(x, 4);
      var s := EncodeSigned(x, 4);
      assert |s| == 4 && Signed(s) == x;
    }
  }

  /** The values a 2-byte signed field can hold are exactly the `short`s. */
  lemma Int16IsTwoBytes(x: int)
    ensures IsInt16(x) <==> exists s: seq<byte> :: |s| == 2 && Signed(s) == x
  {
    Pow256Values();
    if IsInt16(x) {
      SignedEncodeSigned(x, 2);
      var s := EncodeSigned(x, 2);
      assert |s| == 2 && Signed(s) == x;
    }
  }

  /** The value a signed integer takes when converted to C's 64-bit `size_t`:
      the one value below 2^64 congruent to it modulo 2^64. */
  function SizeT(x: int): (r: nat)
    ensures r < 0x1_0000_0000_0000_0000
    ensures (x - r) % 0x1_0000_0000_0000_0000 == 0
  {
    x % 0x1_0000_0000_0000_0000
  }

  /** The value a C `int` takes when x is converted to it: the one 32-bit
      value congruent to x modulo 2^32. */
  function Wrap32(x: int): (r: int)
    ensures IsInt32(r)
    ensures (x - r) % 0x1_0000_0000 == 0
    ensures IsInt32(x) ==> r == x
    ensures 0x8000_0000 <= x < 0x1_8000_0000 ==> r == x - 0x1_0000_0000
  {
    (x + 0x8000_0000) % 0x1_0000_0000 - 0x8000_0000
  }

  /** A slice of a slice is a slice. */
  lemma SubSlice(s: seq<byte>, from: nat, to: nat, lo: nat, hi: nat)
    requires from <= to <= |s| && lo <= hi <= to - from
    ensures s[from..to][lo..hi] == s[from + lo..from + hi]
  {
    assert forall k | 0 <= k < hi - lo :: s[from..to][lo..hi][k] == s[from + lo + k];
  }
}
