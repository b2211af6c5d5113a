/** The byte-string compression of ethereum/compress.py. */
module Compression {
  import opened ByteStrings
  import opened BigEndian
  import opened Words

  const ESCAPE: Byte := 0xfe

  /** The hash of the empty string. */
  function NullSha3(): (h: Bytes)
    ensures |h| == 32
  {
    EncodeInt32(0xc5d2460186f7233c927e7db2dcc703c0e500b653ca82273b7bfad8045d85a470)
  }

  /** `int_to_bytes` of a single byte. The library behind it writes 0 as one zero byte or as no byte at all;
      `keepsZero` says which. */
  function IntToBytes(b: Byte, keepsZero: bool): Bytes {
    if b == 0 && !keepsZero then [] else [b]
  }

  /** Length of the run of zeros that one escape stands for. */
  function ZeroRun(data: Bytes, p: nat, keepsZero: bool): (n: nat)
    requires 2 <= p <= 255 && p <= |data|
    ensures p <= n <= 255 && n <= |data|
    decreases 255 - p
  {
    if p < 255 && p < |data| && IntToBytes(data[p], keepsZero) == [0] then ZeroRun(data, p + 1, keepsZero) else p
  }

  lemma {:induction false} ZeroRunIsZeros(data: Bytes, p: nat, keepsZero: bool)
    requires 2 <= p <= 255 && p <= |data| && data[..p] == Zeros(p)
    ensures data[..ZeroRun(data, p, keepsZero)] == Zeros(ZeroRun(data, p, keepsZero))
    decreases 255 - p
  {
    if p < 255 && p < |data| && IntToBytes(data[p], keepsZero) == [0] {
      assert data[..p + 1] == data[..p] + [0];
      ZeroRunIsZeros(data, p + 1, keepsZero);
    }
  }

  function Compress(data: Bytes, keepsZero: bool): Bytes
    decreases |data|
  {
    if data == [] then []
    else if data[0] == ESCAPE then [ESCAPE, 0] + Compress(data[1..], keepsZero)
    else if Slice(data, 0, 32) == NullSha3() then [ESCAPE, 1] + Compress(data[32..], keepsZero)
    else if Slice(data, 0, 2) == [0, 0] then
      var p := ZeroRun(data, 2, keepsZero);
      [ESCAPE, p] + Compress(data[p..], keepsZero)
    else IntToBytes(data[0], keepsZero) + Compress(data[1..], keepsZero)
  }

  /** What the two bytes of an escape stand for. */
  function Expand(p: Byte): Bytes {
    if p == 0 then [ESCAPE] else if p == 1 then NullSha3() else Zeros(p)
  }

  /** None stands for the exception on a trailing escape byte. */
  function Decompress(data: Bytes): Option<Bytes> {
    if data == [] then Some([])
    else if data[0] != ESCAPE then
      match Decompress(data[1..])
      case None => None
      case Some(o) => Some([data[0]] + o)
    else if |data| == 1 then None
    else
      match Decompress(data[2..])
      case None => None
      case Some(o) => Some(Expand(data[1]) + o)
  }

  // ---- the loops ----

  method CompressBytes(data: Bytes, keepsZero: bool) returns (o: Bytes)
    ensures o == Compress(data, keepsZero)
  {
    hide Compress, NullSha3, IntToBytes, ZeroRun;
    o := [];
    var i := 0;
    assert data[0..] == data;
    while i < |data|
      invariant i <= |data| && Continues(Compress(data, keepsZero), o, Compress(data[i..], keepsZero))
    {
      CompressStep(data, i, keepsZero);
      ghost var all := Compress(data, keepsZero);
      if IntToBytes(data[i], keepsZero) == [ESCAPE] {
        Append(all, o, [ESCAPE, 0], Compress(data[i + 1..], keepsZero));
        o := o + [ESCAPE, 0];
      } else if Slice(data, i, i + 32) == NullSha3() {
        Append(all, o, [ESCAPE, 1], Compress(data[i + 32..], keepsZero));
        o := o + [ESCAPE, 1];
        i := i + 31;
      } else if Slice(data, i, i + 2) == [0, 0] {
        var p := 2;
        while p < 255 && i + p < |data| && IntToBytes(data[i + p], keepsZero) == [0]
          invariant 2 <= p <= 255 && i + p <= |data|
          invariant ZeroRun(data[i..], p, keepsZero) == ZeroRun(data[i..], 2, keepsZero)
        {
          RunStep(data[i..], p, keepsZero);
          p := p + 1;
        }
        RunStep(data[i..], p, keepsZero);
        Append(all, o, [ESCAPE, p], Compress(data[i + p..], keepsZero));
        o := o + [ESCAPE, p];
        i := i + p - 1;
      } else {
        Append(all, o, IntToBytes(data[i], keepsZero), Compress(data[i + 1..], keepsZero));
        o := o + IntToBytes(data[i], keepsZero);
      }
      i := i + 1;
    }
    CompressEnd(data, keepsZero);
  }

  /** Output so far and output to come. */
  ghost predicate Continues(all: Bytes, o: Bytes, rest: Bytes) {
    all == o + rest
  }

  lemma Append(all: Bytes, o: Bytes, x: Bytes, rest: Bytes)
    ensures Continues(all, o, x + rest) ==> Continues(all, o + x, rest)
  {
    assert o + (x + rest) == (o + x) + rest;
  }

  lemma RunStep(d: Bytes, p: nat, keepsZero: bool)
    requires 2 <= p <= 255 && p <= |d|
    ensures ZeroRun(d, p, keepsZero) == if p < 255 && p < |d| && IntToBytes(d[p], keepsZero) == [0] then ZeroRun(d, p + 1, keepsZero) else p
  {
  }

  lemma CompressStep(data: Bytes, i: nat, keepsZero: bool)
    requires i < |data|
    ensures var rest := Compress(data[i..], keepsZero);
            if IntToBytes(data[i], keepsZero) == [ESCAPE] then rest == [ESCAPE, 0] + Compress(data[i + 1..], keepsZero)
            else if Slice(data, i, i + 32) == NullSha3() then
              i + 32 <= |data| && rest == [ESCAPE, 1] + Compress(data[i + 32..], keepsZero)
            else if Slice(data, i, i + 2) == [0, 0] then
              i + 2 <= |data| && ZeroRun(data[i..], 2, keepsZero) <= |data| - i
              && rest == [ESCAPE, ZeroRun(data[i..], 2, keepsZero)] + Compress(data[i + ZeroRun(data[i..], 2, keepsZero)..], keepsZero)
            else rest == IntToBytes(data[i], keepsZero) + Compress(data[i + 1..], keepsZero)
  {
    hide NullSha3, ZeroRun;
    var d := data[i..];
    assert d[1..] == data[i + 1..];
    assert Slice(d, 0, 32) == Slice(data, i, i + 32) && Slice(d, 0, 2) == Slice(data, i, i + 2);
    if |d| >= 32 { assert d[32..] == data[i + 32..]; }
    if |d| >= 2 { assert d[ZeroRun(d, 2, keepsZero)..] == data[i + ZeroRun(d, 2, keepsZero)..]; }
  }

  lemma CompressEnd(data: Bytes, keepsZero: bool)
    ensures Compress(data[|data|..], keepsZero) == []
    ensures forall all: Bytes, o: Bytes :: Continues(all, o, []) ==> all == o
  {
  }

  method DecompressBytes(data: Bytes) returns (r: Option<Bytes>)
    ensures r == Decompress(data)
  {
    hide Expand;
    var o: Bytes := [];
    var i := 0;
    assert data[0..] == data;
    PrependNothing(o, Decompress(data));
    while i < |data|
      invariant i <= |data|
      invariant Decompress(data) == Prepend(o, Decompress(data[i..]))
    {
      ghost var d := data[i..];
      assert d[1..] == data[i + 1..];
      if data[i] == ESCAPE {
        if i == |data| - 1 {
          return None;
        }
        assert d[2..] == data[i + 2..];
        ExpandForm(data[i + 1]);
        PrependTwice(o, Expand(data[i + 1]), Decompress(data[i + 2..]));
        if data[i + 1] == 0 {
          o := o + [ESCAPE];
        } else if data[i + 1] == 1 {
          o := o + NullSha3();
        } else {
          o := o + Zeros(data[i + 1]);
        }
        i := i + 1;
      } else {
        PrependTwice(o, [data[i]], Decompress(data[i + 1..]));
        o := o + [data[i]];
      }
      i := i + 1;
    }
    PrependNothing(o, Decompress(data[i..]));
    return Some(o);
  }

  function Prepend(o: Bytes, r: Option<Bytes>): Option<Bytes> {
    if r.Some? then Some(o + r.value) else None
  }

  lemma PrependNothing(o: Bytes, r: Option<Bytes>)
    ensures Prepend([], r) == r && Prepend(o, Some([])) == Some(o)
  {
    assert o + [] == o;
    if r.Some? { assert [] + r.value == r.value; }
  }

  lemma PrependTwice(o: Bytes, x: Bytes, r: Option<Bytes>)
    ensures Prepend(o, Prepend(x, r)) == Prepend(o + x, r)
  {
    if r.Some? { assert o + (x + r.value) == (o + x) + r.value; }
  }

  lemma ExpandForm(p: Byte)
    ensures Expand(p) == if p == 0 then [ESCAPE] else if p == 1 then NullSha3() else Zeros(p)
  {
  }

  // ---- round trip ----

  /** Every zero byte outside a null hash comes in pairs. */
  predicate PairedZeros(data: Bytes)
    decreases |data|
  {
    if data == [] then true
    else if data[0] == ESCAPE then PairedZeros(data[1..])
    else if Slice(data, 0, 32) == NullSha3() then PairedZeros(data[32..])
    else if Slice(data, 0, 2) == [0, 0] then PairedZeros(data[2..])
    else data[0] != 0 && PairedZeros(data[1..])
  }

  lemma EmptyBack()
    ensures Decompress([]) == Some([])
  {
  }

  lemma EscapeBack(p: Byte, rest: Bytes)
    ensures Decompress([ESCAPE, p] + rest) == Prepend(Expand(p), Decompress(rest))
  {
    assert ([ESCAPE, p] + rest)[2..] == rest;
  }

  lemma ByteBack(b: Byte, rest: Bytes)
    requires b != ESCAPE
    ensures Decompress([b] + rest) == Prepend([b], Decompress(rest))
  {
    assert ([b] + rest)[1..] == rest;
  }

  /** The first token of a non-empty string: how many bytes it covers, what is written for it, what that expands to. */
  lemma {:induction false} RoundTripLength(data: Bytes, keepsZero: bool)
    ensures var r := Decompress(Compress(data, keepsZero));
            && r.Some? && |r.value| <= |data|
            && (|r.value| == |data| <==> keepsZero || PairedZeros(data))
            && (|r.value| == |data| ==> r.value == data)
    decreases |data|
  {
    hide NullSha3, ZeroRun, Decompress, Zeros;
    if data == [] {
      EmptyBack();
    } else if data[0] == ESCAPE {
      RoundTripLength(data[1..], keepsZero);
      EscapeBack(0, Compress(data[1..], keepsZero));
      assert data == [ESCAPE] + data[1..];
    } else if Slice(data, 0, 32) == NullSha3() {
      RoundTripLength(data[32..], keepsZero);
      EscapeBack(1, Compress(data[32..], keepsZero));
      assert data == NullSha3() + data[32..];
    } else if Slice(data, 0, 2) == [0, 0] {
      var p := ZeroRun(data, 2, keepsZero);
      RoundTripLength(data[p..], keepsZero);
      EscapeBack(p, Compress(data[p..], keepsZero));
      TwoZeros(data);
      ZeroRunIsZeros(data, 2, keepsZero);
      assert data == Zeros(p) + data[p..];
      if !keepsZero { ShortRun(data); }
    } else {
      RoundTripLength(data[1..], keepsZero);
      assert data == [data[0]] + data[1..];
      if data[0] == 0 && !keepsZero {
        assert IntToBytes(0, false) + Compress(data[1..], keepsZero) == Compress(data[1..], keepsZero);
      } else {
        ByteBack(data[0], Compress(data[1..], keepsZero));
      }
    }
  }

  lemma TwoZeros(data: Bytes)
    requires Slice(data, 0, 2) == [0, 0]
    ensures |data| >= 2 && data[..2] == Zeros(2)
  {
    assert data[..2] == [0, 0] && Zeros(2) == [0, 0];
  }

  lemma ShortRun(data: Bytes)
    requires |data| >= 2
    ensures ZeroRun(data, 2, false) == 2
  {
  }

  /** Decompressing undoes compressing on every byte string when a zero byte is written as itself; when it is written as
      nothing, exactly on the strings whose zeros come in pairs. */
  lemma RoundTrip(data: Bytes, keepsZero: bool)
    ensures Decompress(Compress(data, keepsZero)) == Some(data) <==> keepsZero || PairedZeros(data)
  {
    RoundTripLength(data, keepsZero);
  }

  /** A single zero byte is lost when it is written as nothing. */
  lemma LoneZeroLost()
    ensures Decompress(Compress([0], false)) == Some([])
  {
    assert Slice([0], 0, 32) == [0] && Slice([0], 0, 2) == [0];
    assert Compress([0], false) == [] + Compress([], false);
  }
}
