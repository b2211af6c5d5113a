/** The 256-bit words of the EVM and their arithmetic. */
module Words {
  import opened ByteStrings
  import opened BigEndian
  import opened IntMath

  const TT256 := 0x1_0000000000000000_0000000000000000_0000000000000000_0000000000000000
  const TT255 := 0x8000000000000000_0000000000000000_0000000000000000_0000000000000000
  const TT160 := 0x1_0000000000_0000000000_0000000000_0000000000

  type Word = x: int | 0 <= x < TT256

  type Address = x: int | 0 <= x < TT160

  /** `& TT256M1` on a Python integer. */
  function Mask(x: int): Word { x % TT256 }

  function ToSigned(i: Word): int {
    if i < TT255 then i else i - TT256
  }

  function Abs(x: int): nat { if x < 0 then -x else x }

  // ---- division ----

  lemma DivBelow(a: nat, b: nat)
    requires b > 0
    ensures a / b <= a
  {
    MulGrows(a / b, b);
  }

  lemma MulGrows(q: nat, b: nat)
    requires b > 0
    ensures q <= q * b
  {
    assert q * b == q * (b - 1) + q;
    assert q * (b - 1) >= 0;
  }

  function Div(a: Word, b: Word): Word {
    if b == 0 then 0 else DivBelow(a, b); a / b
  }

  function Mod(a: Word, b: Word): Word {
    if b == 0 then 0 else a % b
  }

  function SDiv(a: Word, b: Word): Word {
    var s0, s1 := ToSigned(a), ToSigned(b);
    if s1 == 0 then 0 else Mask((Abs(s0) / Abs(s1)) * (if (s0 < 0) != (s1 < 0) then -1 else 1))
  }

  function SMod(a: Word, b: Word): Word {
    var s0, s1 := ToSigned(a), ToSigned(b);
    if s1 == 0 then 0 else Mask((Abs(s0) % Abs(s1)) * (if s0 < 0 then -1 else 1))
  }

  function ModBelow(x: nat, m: Word): Word {
    if m == 0 then 0 else x % m
  }

  function Power(b: nat, e: nat): nat {
    if e == 0 then 1 else b * Power(b, e - 1)
  }

  // ---- bits ----

  function Pow2(k: nat): (p: nat)
    ensures p > 0
  {
    if k == 0 then 1 else 2 * Pow2(k - 1)
  }

  lemma {:induction false} Pow2Is256(k: nat)
    ensures Pow2(8 * k) == Pow256(k)
  {
    if k > 0 {
      Pow2Is256(k - 1);
      var j := 8 * k;
      assert Pow2(j) == 2 * Pow2(j - 1) && Pow2(j - 1) == 2 * Pow2(j - 2) && Pow2(j - 2) == 2 * Pow2(j - 3);
      assert Pow2(j - 3) == 2 * Pow2(j - 4) && Pow2(j - 4) == 2 * Pow2(j - 5) && Pow2(j - 5) == 2 * Pow2(j - 6);
      assert Pow2(j - 6) == 2 * Pow2(j - 7) && Pow2(j - 7) == 2 * Pow2(j - 8);
    }
  }

  lemma Pow256Of32()
    ensures Pow256(32) == TT256
  {
    Pow256Sum(8, 8);
    Pow256Sum(16, 16);
    assert Pow256(8) == TWO_64;
  }

  lemma {:induction false} Pow256Sum(j: nat, k: nat)
    ensures Pow256(j + k) == Pow256(j) * Pow256(k)
  {
    if k > 0 { Pow256Sum(j, k - 1); }
  }

  lemma Pow2Of256()
    ensures Pow2(256) == TT256
  {
    Pow2Is256(32);
    Pow256Of32();
  }

  function And(a: nat, b: nat): (r: nat)
    ensures r <= a && r <= b
  {
    if a == 0 || b == 0 then 0 else (if a % 2 == 1 && b % 2 == 1 then 1 else 0) + 2 * And(a / 2, b / 2)
  }

  function Or(a: nat, b: nat): nat {
    if a == 0 then b else if b == 0 then a
    else (if a % 2 == 1 || b % 2 == 1 then 1 else 0) + 2 * Or(a / 2, b / 2)
  }

  function Xor(a: nat, b: nat): nat {
    if a == 0 then b else if b == 0 then a
    else (if a % 2 != b % 2 then 1 else 0) + 2 * Xor(a / 2, b / 2)
  }

  lemma {:induction false} BitsBelow(a: nat, b: nat, k: nat)
    requires a < Pow2(k) && b < Pow2(k)
    ensures Or(a, b) < Pow2(k) && Xor(a, b) < Pow2(k)
  {
    if a != 0 && b != 0 {
      BitsBelow(a / 2, b / 2, k - 1);
    }
  }

  function OrWord(a: Word, b: Word): Word {
    Pow2Of256();
    BitsBelow(a, b, 256);
    Or(a, b)
  }

  function XorWord(a: Word, b: Word): Word {
    Pow2Of256();
    BitsBelow(a, b, 256);
    Xor(a, b)
  }

  lemma {:induction false} Pow2Increasing(j: nat, k: nat)
    requires j <= k
    ensures Pow2(j) <= Pow2(k)
  {
    if j < k { Pow2Increasing(j, k - 1); }
  }

  /** Copies bit `testbit` into all higher bits. */
  function SignExtend(s0: Word, s1: Word): Word {
    if s0 <= 31 then
      var bit := Pow2(8 * s0 + 7);
      Pow2Increasing(8 * s0 + 7, 256);
      Pow2Of256();
      if (s1 / bit) % 2 == 1 then s1 % bit + (TT256 - bit) else s1 % bit
    else s1
  }

  function ByteAt(s0: Word, s1: Word): Word {
    if s0 >= 32 then 0 else (s1 / Pow256(31 - s0)) % 256
  }

  function Bool(b: bool): Word { if b then 1 else 0 }

  /** Up to 32 bytes read as a word. */
  function WordOf(b: Bytes): Word
    requires |b| <= 32
  {
    BigEndianBound(b);
    Pow256Increasing(|b|, 32);
    Pow256Of32();
    BigEndianToInt(b)
  }

  lemma {:induction false} Pow256Increasing(j: nat, k: nat)
    requires j <= k
    ensures Pow256(j) <= Pow256(k)
  {
    if j < k { Pow256Increasing(j, k - 1); }
  }

  function EncodeInt32(v: Word): (b: Bytes)
    ensures |b| == 32
  {
    Pow256Of32();
    ZPadRoundTrip(v, 32);
    ZPad(IntToBigEndian(v), 32)
  }

  /** What MSTORE writes, MLOAD reads. */
  lemma WordRoundTrip(v: Word)
    ensures WordOf(EncodeInt32(v)) == v
  {
    Pow256Of32();
    ZPadRoundTrip(v, 32);
  }

  // ---- what the operations mean ----

  lemma SignedMask(z: int)
    requires -TT255 <= z < TT255
    ensures ToSigned(Mask(z)) == z
  {
    DivModUnique(z, TT256, if z < 0 then -1 else 0, if z < 0 then z + TT256 else z);
  }

  lemma OppositeProduct(a: int, b: int)
    ensures (-a) * b == -(a * b) && a * (-b) == -(a * b) && (-a) * (-b) == a * b
  {
  }

  lemma Quotients(n: nat, d: nat)
    requires d > 0
    ensures n == (n / d) * d + n % d && 0 <= n / d <= n && n % d < d && (n / d == n ==> n == 0 || d == 1)
  {
    DivBelow(n, d);
    if d > 1 && n > 0 && n / d == n { MulMonotone(n, 2, d); }
  }

  /** SDIV and SMOD divide with truncation toward zero: quotient times divisor plus remainder is the dividend, and the
      remainder is smaller than the divisor and has the dividend's sign. The one exception is the quotient 2^255. */
  lemma SignedDivision(a: Word, b: Word)
    requires b != 0
    ensures var x, y, q, r := ToSigned(a), ToSigned(b), ToSigned(SDiv(a, b)), ToSigned(SMod(a, b));
            && (x == q * y + r <==> !(a == TT255 && b == TT256 - 1))
            && Abs(r) < Abs(y) && (r < 0 ==> x < 0) && (r > 0 ==> x > 0)
  {
    var x, y := ToSigned(a), ToSigned(b);
    var k, m := Abs(x) / Abs(y), Abs(x) % Abs(y);
    Quotients(Abs(x), Abs(y));
    var q, r := if (x < 0) != (y < 0) then -k else k, if x < 0 then -m else m;
    SignedMask(r);
    SignedQuotient(x, y, k, m);
    assert SMod(a, b) == Mask(r) && SDiv(a, b) == Mask(q) by { OppositeProduct(k, 1); OppositeProduct(m, 1); }
    hide SDiv, SMod, Mask;
    if q < TT255 {
      SignedMask(q);
    }
  }

  lemma SignedQuotient(x: int, y: int, k: int, m: int)
    requires k >= 0 && m >= 0 && Abs(x) == k * Abs(y) + m && (k == Abs(x) ==> x == 0 || Abs(y) == 1) && k <= Abs(x) <= TT255
    ensures x == (if (x < 0) != (y < 0) then -k else k) * y + if x < 0 then -m else m
    ensures k == TT255 ==> Abs(x) == TT255 && Abs(y) == 1
  {
    OppositeProduct(k, Abs(y));
  }

  /** The lowest bits of a number: the remainder, and one bit more. */
  lemma OneBitMore(v: nat, bit: nat)
    requires bit > 0
    ensures v % (2 * bit) == v % bit + (if (v / bit) % 2 == 1 then bit else 0) && 0 <= v % bit < bit
  {
    var q, c := v / bit, v % bit;
    var h, o := q / 2, q % 2;
    assert v == bit * q + c && bit * q == bit * (2 * h + o);
    OddHalf(bit, h, o);
    DivModUnique(v, 2 * bit, h, o * bit + c);
  }

  /** SIGNEXTEND reads the lowest bytes as a two's complement number. */
  lemma SignExtendMeaning(k: Word, v: Word)
    requires k <= 31
    ensures var low, top := v % Pow2(8 * k + 8), Pow2(8 * k + 7);
            ToSigned(SignExtend(k, v)) == if low < top then low else low - 2 * top
  {
    var bit := Pow2(8 * k + 7);
    assert Pow2(8 * k + 8) == 2 * bit;
    OneBitMore(v, bit);
    assert bit <= TT255 by {
      Pow2Increasing(8 * k + 7, 255);
      Pow2Of256();
    }
    hide Pow2;
    assert SignExtend(k, v) == if (v / bit) % 2 == 1 then v % bit + (TT256 - bit) else v % bit;
    hide SignExtend;
  }

  lemma OddHalf(bit: nat, h: int, o: int)
    requires 0 <= o <= 1
    ensures bit * (2 * h + o) == 2 * bit * h + o * bit && 0 <= o * bit <= bit
  {
  }

  /** The bitwise operations, by what their results add up to. */
  lemma {:induction false} BitsAddUp(a: nat, b: nat)
    ensures And(a, b) + Or(a, b) == a + b
    ensures And(a, b) + Xor(a, b) == Or(a, b)
  {
    if a != 0 && b != 0 { BitsAddUp(a / 2, b / 2); }
  }

  lemma {:induction false} DigitOf(b: Bytes, i: nat)
    requires i < |b|
    ensures (BigEndianToInt(b) / Pow256(|b| - 1 - i)) % 256 == b[i]
    decreases |b|
  {
    var n := |b| - 1;
    if i < n {
      var p := Pow256(n - 1 - i);
      assert Pow256(n - i) == 256 * p;
      var x, y := BigEndianToInt(b), BigEndianToInt(b[..n]);
      assert x == 256 * y + b[n];
      DigitOf(b[..n], i);
      hide Pow256, BigEndianToInt;
      NestedQuotient(x, y, b[n], p);
    }
  }

  lemma NestedQuotient(x: nat, y: nat, c: nat, p: nat)
    requires x == 256 * y + c && c < 256 && p > 0
    ensures x / (256 * p) == y / p
  {
    var q, r := y / p, y % p;
    assert y == p * q + r && 256 * (p * q) == (256 * p) * q;
    DivModUnique(x, 256 * p, q, 256 * r + c);
  }

  /** BYTE picks the byte that MSTORE puts at that place. */
  lemma ByteOfWord(i: Word, v: Word)
    requires i < 32
    ensures EncodeInt32(v)[i] == ByteAt(i, v)
  {
    Pow256Of32();
    ZPadRoundTrip(v, 32);
    DigitOf(EncodeInt32(v), i);
  }
}
