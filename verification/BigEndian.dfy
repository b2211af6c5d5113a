/** Big-endian integers, zero padding and Python slicing on byte strings. */
module BigEndian {
  import opened ByteStrings

  const TWO_64 := 0x1_0000_0000_0000_0000

  function IntToBigEndian(n: nat): Bytes {
    if n == 0 then [] else IntToBigEndian(n / 256) + [n % 256]
  }

  function BigEndianToInt(b: Bytes): nat {
    if b == [] then 0 else 256 * BigEndianToInt(b[..|b| - 1]) + b[|b| - 1]
  }

  lemma {:induction false} BigEndianRoundTrip(n: nat)
    ensures BigEndianToInt(IntToBigEndian(n)) == n
  {
    if n != 0 {
      BigEndianRoundTrip(n / 256);
      var b := IntToBigEndian(n);
      assert b[..|b| - 1] == IntToBigEndian(n / 256);
    }
  }

  /** Python's slicing, which clips its bounds. */
  function Slice<T>(b: seq<T>, i: nat, j: nat): seq<T> {
    var hi := if j <= |b| then j else |b|;
    var lo := if i <= hi then i else hi;
    b[lo..hi]
  }

  /** Number of bytes of the big-endian form. */
  function ByteLength(n: nat): nat {
    if n == 0 then 0 else 1 + ByteLength(n / 256)
  }

  lemma {:induction false} ByteLengthIsLength(n: nat)
    ensures |IntToBigEndian(n)| == ByteLength(n)
  {
    if n != 0 { ByteLengthIsLength(n / 256); }
  }

  function Pow256(k: nat): (p: nat)
    ensures p > 0
  {
    if k == 0 then 1 else 256 * Pow256(k - 1)
  }

  /** A number below 256^k has at most k bytes, and k bytes hold a number below 256^k. */
  lemma {:induction false} ByteLengthBound(n: nat, k: nat)
    requires n < Pow256(k)
    ensures ByteLength(n) <= k
  {
    if n != 0 {
      ByteLengthBound(n / 256, k - 1);
    }
  }

  lemma {:induction false} BigEndianBound(b: Bytes)
    ensures BigEndianToInt(b) < Pow256(|b|)
  {
    if b != [] { BigEndianBound(b[..|b| - 1]); }
  }

  lemma ByteLength64(n: nat)
    requires n < TWO_64
    ensures ByteLength(n) <= 8
    ensures n > 0 ==> ByteLength(n) >= 1
  {
    assert Pow256(8) == TWO_64;
    ByteLengthBound(n, 8);
  }

  function Zeros(n: nat): (z: Bytes)
    ensures |z| == n && forall i :: 0 <= i < n ==> z[i] == 0
  {
    if n == 0 then [] else Zeros(n - 1) + [0]
  }

  /** Left padding with zero bytes to at least l bytes. */
  function ZPad(x: Bytes, l: nat): (p: Bytes)
    ensures |p| == if |x| <= l then l else |x|
  {
    if |x| <= l then Zeros(l - |x|) + x else x
  }

  lemma {:induction false} LeadingZeros(n: nat, b: Bytes)
    ensures BigEndianToInt(Zeros(n) + b) == BigEndianToInt(b)
  {
    var z := Zeros(n) + b;
    if b == [] {
      assert z == Zeros(n);
      if n > 0 {
        assert z[..|z| - 1] == Zeros(n - 1) + b;
        LeadingZeros(n - 1, b);
      }
    } else {
      assert z[..|z| - 1] == Zeros(n) + b[..|b| - 1];
      LeadingZeros(n, b[..|b| - 1]);
    }
  }

  lemma ZPadRoundTrip(n: nat, l: nat)
    requires n < Pow256(l)
    ensures |ZPad(IntToBigEndian(n), l)| == l
    ensures BigEndianToInt(ZPad(IntToBigEndian(n), l)) == n
  {
    ByteLengthBound(n, l);
    ByteLengthIsLength(n);
    BigEndianRoundTrip(n);
    LeadingZeros(l - ByteLength(n), IntToBigEndian(n));
  }

  function Ceil32(x: nat): (c: nat)
    ensures c % 32 == 0 && x <= c < x + 32
  {
    if x % 32 == 0 then x else x + 32 - x % 32
  }
}
