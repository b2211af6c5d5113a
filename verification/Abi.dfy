/** The contract ABI of ethereum/abi.py: values, arrays and argument lists. */
module Abi {
  import opened ByteStrings
  import opened BigEndian
  import opened Words
  import opened IntMath

  /** `bytes` and `string` without a size are DynBytes. */
  datatype Base = UInt(bits: nat) | SInt(bits: nat) | Bool | FixedBytes(size: nat) | HashOf(size: nat) | DynBytes

  datatype Dim = Fixed(n: nat) | Dyn

  /** A base type and its array dimensions, the outermost last. */
  datatype Typ = Typ(base: Base, dims: seq<Dim>)

  datatype Val = Num(n: int) | Flag(b: bool) | Str(s: Bytes) | Arr(items: seq<Val>)

  /** The conditions on suffixes. */
  predicate ValidBase(b: Base) {
    match b
    case UInt(bits) => 8 <= bits <= 256 && bits % 8 == 0
    case SInt(bits) => 8 <= bits <= 256 && bits % 8 == 0
    case FixedBytes(n) => n <= 32
    case HashOf(n) => 1 <= n <= 32
    case _ => true
  }

  /** Encoded as one value: byte strings without a size are, whatever their dimensions. */
  predicate Single(t: Typ) {
    t.dims == [] || t.base.DynBytes?
  }

  /** All arrays have static elements: only the outermost dimension may be open. */
  predicate Flat(t: Typ) {
    ValidBase(t.base) && (Single(t) || forall i :: 0 <= i < |t.dims| - 1 ==> t.dims[i].Fixed?)
  }

  function Outer(t: Typ): Dim
    requires t.dims != []
  {
    t.dims[|t.dims| - 1]
  }

  function Element(t: Typ): Typ
    requires t.dims != []
  {
    Typ(t.base, t.dims[..|t.dims| - 1])
  }

  /** The encoded size; None for dynamic types. */
  function GetSize(t: Typ): Option<nat>
    decreases |t.dims|
  {
    if t.dims == [] then if t.base.DynBytes? then None else Some(32)
    else if Outer(t).Dyn? then None
    else
      match GetSize(Element(t))
      case None => None
      case Some(o) => Some(Outer(t).n * o)
  }

  /** A type of known size is flat. */
  lemma {:induction false} SizedIsFlat(t: Typ)
    requires ValidBase(t.base) && GetSize(t).Some?
    ensures Flat(t) && !t.base.DynBytes? && forall i :: 0 <= i < |t.dims| ==> t.dims[i].Fixed?
    decreases |t.dims|
  {
    if t.dims != [] {
      SizedIsFlat(Element(t));
      assert forall i :: 0 <= i < |t.dims| - 1 ==> t.dims[i] == Element(t).dims[i];
    }
  }

  lemma {:induction false} DynamicTypes(t: Typ)
    requires Flat(t)
    ensures GetSize(t).None? <==> (t.base.DynBytes? || (t.dims != [] && Outer(t).Dyn?))
    ensures !Single(t) ==> Flat(Element(t)) && GetSize(Element(t)).Some?
    decreases |t.dims|
  {
    if t.dims != [] {
      DynamicTypes(Element(t));
    }
  }

  // ---- single values ----

  function EncodeWord(i: nat): Option<Bytes> {
    if i < TT256 then Some(EncodeInt32(i)) else None
  }

  function RZPad(x: Bytes, l: nat): Bytes {
    if |x| <= l then x + Zeros(l - |x|) else x
  }

  /** None stands for every exception. */
  function EncodeSingle(b: Base, v: Val): Option<Bytes>
    requires ValidBase(b)
  {
    match (b, v)
    case (UInt(bits), Num(i)) => if 0 <= i < Pow2(bits) && i < TT256 then EncodeWord(i) else None
    case (SInt(bits), Num(i)) => if -(Pow2(bits - 1) as int) <= i < Pow2(bits - 1) then EncodeWord(i % TT256) else None
    case (Bool, Flag(x)) => EncodeWord(if x then 1 else 0)
    case (FixedBytes(n), Str(s)) => if |s| <= n then Some(RZPad(s, 32)) else None
    case (HashOf(n), Str(s)) => if |s| == n then Some(ZPad(s, 32)) else None
    case (DynBytes, Str(s)) => if |s| < TT256 then Some(EncodeInt32(|s|) + RZPad(s, Ceil32(|s|))) else None
    case _ => None
  }

  function DecodeSingle(b: Base, data: Bytes): Option<Val>
    requires ValidBase(b)
  {
    match b
    case UInt(bits) => Some(Num(BigEndianToInt(data) % Pow2(bits)))
    case SInt(bits) =>
      var o := BigEndianToInt(data) % Pow2(bits);
      Some(Num(if o >= Pow2(bits - 1) then o - Pow2(bits) else o))
    case Bool => if data == [] then None else Some(Flag(BigEndianToInt(data) != 0))
    case FixedBytes(n) => Some(Str(Slice(data, 0, n)))
    case HashOf(n) => Some(Str(Slice(data, 32 - n, |data|)))
    case DynBytes =>
      var l := BigEndianToInt(Slice(data, 0, 32));
      if |Slice(data, 32, |data|)| != Ceil32(l) then None else Some(Str(Slice(data, 32, 32 + l)))
  }

  // ---- arrays ----

  function EncodeItems(t: Typ, items: seq<Val>): Option<Bytes>
    requires ValidBase(t.base)
    decreases |t.dims|, 1, |items|
  {
    if items == [] then Some([])
    else
      var first := EncodeItems(t, items[..|items| - 1]);
      var last := Enc(t, items[|items| - 1]);
      if first.Some? && last.Some? then Some(first.value + last.value) else None
  }

  /** Offsets and encodings of dynamic elements; n is the number of all of them. */
  function HeadAndTail(t: Typ, items: seq<Val>, n: nat): Option<(Bytes, Bytes)>
    requires ValidBase(t.base)
    decreases |t.dims|, 1, |items|
  {
    if items == [] then Some(([], []))
    else
      var first := HeadAndTail(t, items[..|items| - 1], n);
      var last := Enc(t, items[|items| - 1]);
      if first.None? || last.None? then None
      else
        var offset := EncodeWord(32 * n + |first.value.1|);
        if offset.None? then None else Some((first.value.0 + offset.value, first.value.1 + last.value))
  }

  /** The elements of an array: one after the other, or behind their offsets. */
  function EncodeBody(t: Typ, items: seq<Val>): Option<Bytes>
    requires ValidBase(t.base)
    decreases |t.dims|, 2, 0
  {
    if GetSize(t).Some? then EncodeItems(t, items)
    else
      var ht := HeadAndTail(t, items, |items|);
      if ht.Some? then Some(ht.value.0 + ht.value.1) else None
  }

  /** An open array writes its length, a fixed one checks it. */
  function Header(d: Dim, count: nat): Option<Bytes> {
    match d
    case Dyn => EncodeWord(count)
    case Fixed(n) => if count == n then Some([]) else None
  }

  function Enc(t: Typ, v: Val): Option<Bytes>
    requires ValidBase(t.base)
    decreases |t.dims|, 0, 0
  {
    if Single(t) then EncodeSingle(t.base, v)
    else
      match v
      case Arr(items) =>
        var header, body := Header(Outer(t), |items|), EncodeBody(Element(t), items);
        if header.Some? && body.Some? then Some(header.value + body.value) else None
      case _ => None
  }

  /** The elements of an array laid out in steps of `size` from position `start`. */
  function DecodeItems(t: Typ, arg: Bytes, start: nat, size: nat, count: nat): Option<seq<Val>>
    requires ValidBase(t.base)
    decreases |t.dims|, 1, count
  {
    if count == 0 then Some([])
    else
      var first := DecodeItems(t, arg, start, size, count - 1);
      var last := Dec(t, Slice(arg, start + size * (count - 1), start + size * (count - 1) + size));
      if first.Some? && last.Some? then Some(first.value + [last.value]) else None
  }

  /** Where the data of a dynamic element starts; the last one ends with the data. */
  function ElementStart(arg: Bytes, count: nat, i: nat): nat {
    if i < count then BigEndianToInt(Slice(arg, 32 + 32 * i, 64 + 32 * i)) else |arg|
  }

  /** The first k of the dynamic elements. */
  function DecodeEach(t: Typ, arg: Bytes, count: nat, k: nat): Option<seq<Val>>
    requires ValidBase(t.base)
    decreases |t.dims|, 1, k
  {
    if k == 0 then Some([])
    else
      var first := DecodeEach(t, arg, count, k - 1);
      var last := Dec(t, Slice(arg, ElementStart(arg, count, k - 1), ElementStart(arg, count, k)));
      if first.Some? && last.Some? then Some(first.value + [last.value]) else None
  }

  /** A fixed array of dynamic elements is read like an open one. */
  function Dec(t: Typ, arg: Bytes): Option<Val>
    requires ValidBase(t.base)
    decreases |t.dims|, 0, 0
  {
    if Single(t) then DecodeSingle(t.base, arg)
    else
      var u, size, count := Element(t), GetSize(Element(t)), BigEndianToInt(Slice(arg, 0, 32));
      var items :=
        if size.None? then if |arg| < 32 + 32 * count then None else DecodeEach(u, arg, count, count)
        else if Outer(t).Dyn? then DecodeItems(u, arg, 32, size.value, count)
        else DecodeItems(u, arg, 0, size.value, Outer(t).n);
      if items.Some? then Some(Arr(items.value)) else None
  }

  // ---- what comes back ----

  /** A fixed-size byte string comes back filled up with zero bytes; everything else comes back as it was. */
  function Filled(t: Typ, v: Val): Val {
    match v
    case Str(s) => if t.base.FixedBytes? then Str(RZPad(s, t.base.size)) else v
    case Arr(items) => Arr(FilledAll(t, items))
    case _ => v
  }

  function FilledAll(t: Typ, items: seq<Val>): seq<Val> {
    if items == [] then [] else [Filled(t, items[0])] + FilledAll(t, items[1..])
  }

  /** Every fixed-size byte string has its full size. */
  predicate FullSize(t: Typ, v: Val) {
    match v
    case Str(s) => t.base.FixedBytes? ==> |s| >= t.base.size
    case Arr(items) => forall i :: 0 <= i < |items| ==> FullSize(t, items[i])
    case _ => true
  }

  lemma {:induction false} FilledFull(t: Typ, v: Val)
    ensures Filled(t, v) == v <==> FullSize(t, v)
    decreases v, 0
  {
    match v
    case Str(s) => if t.base.FixedBytes? && |s| <= t.base.size { assert |RZPad(s, t.base.size)| == t.base.size; }
    case Arr(items) => FilledAllFull(t, items, v);
    case _ =>
  }

  lemma {:induction false} FilledAllFull(t: Typ, items: seq<Val>, context: Val)
    requires forall i :: 0 <= i < |items| ==> items[i] < context
    ensures |FilledAll(t, items)| == |items|
    ensures FilledAll(t, items) == items <==> forall i :: 0 <= i < |items| ==> FullSize(t, items[i])
    decreases context, 0, |items|
  {
    if items != [] {
      FilledFull(t, items[0]);
      FilledAllFull(t, items[1..], context);
      assert items == [items[0]] + items[1..];
      assert forall i :: 0 < i < |items| ==> items[i] == items[1..][i - 1];
      assert (forall i :: 0 <= i < |items| ==> FullSize(t, items[i])) <==>
             FullSize(t, items[0]) && forall i :: 0 <= i < |items| - 1 ==> FullSize(t, items[1..][i]);
    }
  }

  lemma {:induction false} FilledSnoc(t: Typ, items: seq<Val>)
    requires items != []
    ensures FilledAll(t, items) == FilledAll(t, items[..|items| - 1]) + [Filled(t, items[|items| - 1])]
  {
    if |items| > 1 {
      FilledSnoc(t, items[1..]);
      assert items[1..][..|items| - 2] == items[..|items| - 1][1..];
    } else {
      assert items[1..] == [] && items[..0] == [];
    }
  }

  // ---- round trip of single values ----

  lemma Pow2Divides(k: nat)
    requires k <= 256
    ensures TT256 == Pow2(k) * Pow2(256 - k)
  {
    Pow2Of256();
    Pow2Sum(k, 256 - k);
  }

  lemma {:induction false} Pow2Sum(j: nat, k: nat)
    ensures Pow2(j + k) == Pow2(j) * Pow2(k)
  {
    if k > 0 { Pow2Sum(j, k - 1); }
  }

  /** Reducing modulo 2^256 first does not change the last k bits. */
  lemma LastBits(i: int, k: nat)
    requires k <= 256
    ensures (i % TT256) % Pow2(k) == i % Pow2(k)
  {
    hide Pow2;
    Pow2Divides(k);
    ModOfMod(i, Pow2(k), Pow2(256 - k), TT256);
  }

  lemma UIntRoundTrip(bits: nat, i: int)
    requires ValidBase(UInt(bits)) && EncodeSingle(UInt(bits), Num(i)).Some?
    ensures DecodeSingle(UInt(bits), EncodeSingle(UInt(bits), Num(i)).value) == Some(Num(i))
  {
    WordRoundTrip(i);
    DivModUnique(i, Pow2(bits), 0, i);
  }

  lemma SIntRoundTrip(bits: nat, i: int)
    requires ValidBase(SInt(bits)) && EncodeSingle(SInt(bits), Num(i)).Some?
    ensures DecodeSingle(SInt(bits), EncodeSingle(SInt(bits), Num(i)).value) == Some(Num(i))
  {
    hide Pow2, EncodeInt32, BigEndianToInt;
    WordRoundTrip(i % TT256);
    LastBits(i, bits);
    PowerStep(bits);
    SignedBack(i, Pow2(bits - 1), Pow2(bits));
  }

  lemma PowerStep(bits: nat)
    requires bits > 0
    ensures Pow2(bits) == 2 * Pow2(bits - 1)
  {
  }

  /** Two's complement of a number in range. */
  lemma SignedBack(i: int, h: nat, p: nat)
    requires p == 2 * h && h > 0 && -(h as int) <= i < h
    ensures (if i % p >= h then i % p - p else i % p) == i
  {
    if i >= 0 { DivModUnique(i, p, 0, i); } else { DivModUnique(i, p, -1, i + p); }
  }

  lemma FixedBytesRoundTrip(n: nat, s: Bytes)
    requires ValidBase(FixedBytes(n)) && |s| <= n
    ensures EncodeSingle(FixedBytes(n), Str(s)) == Some(RZPad(s, 32)) && |RZPad(s, 32)| == 32
    ensures DecodeSingle(FixedBytes(n), RZPad(s, 32)) == Some(Str(RZPad(s, n)))
  {
    assert Slice(RZPad(s, 32), 0, n) == RZPad(s, n);
  }

  lemma HashRoundTrip(n: nat, s: Bytes)
    requires ValidBase(HashOf(n)) && |s| == n
    ensures EncodeSingle(HashOf(n), Str(s)) == Some(ZPad(s, 32)) && |ZPad(s, 32)| == 32
    ensures DecodeSingle(HashOf(n), ZPad(s, 32)) == Some(Str(s))
  {
    assert Slice(ZPad(s, 32), 32 - n, 32) == s;
  }

  lemma DynBytesRoundTrip(s: Bytes)
    requires |s| < TT256
    ensures EncodeSingle(DynBytes, Str(s)) == Some(EncodeInt32(|s|) + RZPad(s, Ceil32(|s|)))
    ensures DecodeSingle(DynBytes, EncodeInt32(|s|) + RZPad(s, Ceil32(|s|))) == Some(Str(s))
  {
    hide EncodeInt32;
    var e := EncodeInt32(|s|) + RZPad(s, Ceil32(|s|));
    WordRoundTrip(|s|);
    assert Slice(e, 0, 32) == EncodeInt32(|s|);
    assert Slice(e, 32, |e|) == RZPad(s, Ceil32(|s|));
    assert Slice(e, 32, 32 + |s|) == s;
  }

  lemma SingleRoundTrip(b: Base, v: Val)
    requires ValidBase(b) && EncodeSingle(b, v).Some?
    ensures DecodeSingle(b, EncodeSingle(b, v).value) == Some(Filled(Typ(b, []), v))
    ensures !b.DynBytes? ==> |EncodeSingle(b, v).value| == 32
  {
    hide Pow2, EncodeInt32, RZPad, ZPad, Slice;
    match (b, v)
    case (UInt(bits), Num(i)) => UIntRoundTrip(bits, i);
    case (SInt(bits), Num(i)) => SIntRoundTrip(bits, i);
    case (Bool, Flag(x)) => WordRoundTrip(if x then 1 else 0);
    case (FixedBytes(n), Str(s)) => FixedBytesRoundTrip(n, s);
    case (HashOf(n), Str(s)) => HashRoundTrip(n, s);
    case (DynBytes, Str(s)) => DynBytesRoundTrip(s);
  }

  // ---- round trip of arrays ----

  lemma {:induction false} EncodedSize(t: Typ, v: Val)
    requires ValidBase(t.base) && Enc(t, v).Some? && GetSize(t).Some?
    ensures |Enc(t, v).value| == GetSize(t).value
    decreases |t.dims|, 0, 0
  {
    SizedIsFlat(t);
    if t.dims == [] {
      SingleRoundTrip(t.base, v);
    } else {
      ItemsSize(Element(t), v.items);
    }
  }

  lemma {:induction false} ItemsSize(t: Typ, items: seq<Val>)
    requires ValidBase(t.base) && EncodeItems(t, items).Some? && GetSize(t).Some?
    ensures |EncodeItems(t, items).value| == |items| * GetSize(t).value
    decreases |t.dims|, 1, |items|
  {
    hide Enc, GetSize;
    if items != [] {
      ItemsSize(t, items[..|items| - 1]);
      EncodedSize(t, items[|items| - 1]);
    }
  }

  lemma {:induction false} ItemsRoundTrip(t: Typ, pre: Bytes, items: seq<Val>, post: Bytes)
    requires Flat(t) && EncodeItems(t, items).Some? && GetSize(t).Some?
    ensures DecodeItems(t, pre + EncodeItems(t, items).value + post, |pre|, GetSize(t).value, |items|) == Some(FilledAll(t, items))
    decreases |t.dims|, 1, |items|
  {
    hide Enc, Dec, GetSize, Filled, Slice;
    if items != [] {
      var n := |items| - 1;
      var first, last := EncodeItems(t, items[..n]).value, Enc(t, items[n]).value;
      ItemsSize(t, items[..n]);
      EncodedSize(t, items[n]);
      ItemsRoundTrip(t, pre, items[..n], last + post);
      ValueRoundTrip(t, items[n]);
      FilledSnoc(t, items);
      var all := pre + EncodeItems(t, items).value + post;
      assert all == pre + first + (last + post);
      MiddleSlice(pre + first, last, post);
      assert all == (pre + first) + last + post;
      assert GetSize(t).value * n == n * GetSize(t).value;
    }
  }

  lemma MiddleSlice(a: Bytes, b: Bytes, c: Bytes)
    ensures Slice(a + b + c, |a|, |a| + |b|) == b
  {
  }

  /** A byte string without a size comes back whatever the dimensions of its type, and nothing else can be encoded for it. */
  lemma ByteStringsBack(t: Typ, v: Val)
    requires t.base.DynBytes?
    ensures Enc(t, v).Some? <==> v.Str? && |v.s| < TT256
    ensures Enc(t, v).Some? ==> Dec(t, Enc(t, v).value) == Some(v)
  {
    if Enc(t, v).Some? { SingleRoundTrip(t.base, v); }
  }

  /** A value without dynamic elements decodes to itself, fixed-size byte strings filled up. */
  lemma {:induction false} ValueRoundTrip(t: Typ, v: Val)
    requires Flat(t) && Enc(t, v).Some?
    ensures Dec(t, Enc(t, v).value) == Some(Filled(t, v))
    decreases |t.dims|, 0, 0
  {
    if Single(t) {
      SingleRoundTrip(t.base, v);
      SameBase(t, Typ(t.base, []), []);
      FilledBase(t, Typ(t.base, []), v, [v]);
    } else {
      DynamicTypes(t);
      var e := Enc(t, v).value;
      var body := EncodeItems(Element(t), v.items).value;
      SameBase(t, Element(t), v.items);
      if Outer(t).Dyn? {
        var head := EncodeInt32(|v.items|);
        WordRoundTrip(|v.items|);
        assert Slice(e, 0, 32) == head;
        ItemsRoundTrip(Element(t), head, v.items, []);
        assert e == head + body + [];
      } else {
        ItemsRoundTrip(Element(t), [], v.items, []);
        assert e == [] + body + [];
      }
    }
  }

  // ---- offsets of dynamic elements ----

  /** The offsets take a word each, and the first one is the length of all of them. */
  lemma {:induction false} OffsetsLen(t: Typ, items: seq<Val>, n: nat)
    requires ValidBase(t.base) && HeadAndTail(t, items, n).Some?
    ensures |HeadAndTail(t, items, n).value.0| == 32 * |items|
    ensures items != [] ==> 32 * n < TT256 && EncodeInt32(32 * n) <= HeadAndTail(t, items, n).value.0
    decreases |items|
  {
    hide Enc;
    if items != [] {
      OffsetsLen(t, items[..|items| - 1], n);
    }
  }

  /** One more element: its offset and its encoding. */
  lemma LastElement(t: Typ, items: seq<Val>, n: nat)
    requires ValidBase(t.base) && items != [] && HeadAndTail(t, items, n).Some?
    ensures var rest := HeadAndTail(t, items[..|items| - 1], n);
            && rest.Some? && Enc(t, items[|items| - 1]).Some? && 32 * n + |rest.value.1| < TT256
            && HeadAndTail(t, items, n).value.0 == rest.value.0 + EncodeInt32(32 * n + |rest.value.1|)
            && HeadAndTail(t, items, n).value.1 == rest.value.1 + Enc(t, items[|items| - 1]).value
  {
    hide Enc, EncodeInt32, EncodeItems, EncodeBody, EncodeSingle, GetSize;
    var init := items[..|items| - 1];
    assert HeadAndTail(t, init, n).Some? && Enc(t, items[|items| - 1]).Some?;
  }

  /** The offset of any element counts the encodings before it. */
  lemma {:induction false} OffsetAt(t: Typ, items: seq<Val>, n: nat, i: nat)
    requires ValidBase(t.base) && i < |items| && HeadAndTail(t, items, n).Some?
    ensures var rest := HeadAndTail(t, items[..i], n);
            && rest.Some? && 32 * n + |rest.value.1| < TT256
            && Slice(HeadAndTail(t, items, n).value.0, 32 * i, 32 * i + 32) == EncodeInt32(32 * n + |rest.value.1|)
            && |rest.value.1| <= |HeadAndTail(t, items, n).value.1|
    decreases |items|
  {
    hide Enc, EncodeInt32, HeadAndTail;
    var k := |items| - 1;
    LastElement(t, items, n);
    OffsetsLen(t, items[..k], n);
    var rest := HeadAndTail(t, items[..k], n).value;
    if i < k {
      OffsetAt(t, items[..k], n, i);
      assert items[..k][..i] == items[..i];
      var head := HeadAndTail(t, items, n).value.0;
      assert Slice(head, 32 * i, 32 * i + 32) == Slice(rest.0, 32 * i, 32 * i + 32);
    } else {
      assert HeadAndTail(t, items, n).value.0 == rest.0 + EncodeInt32(32 * n + |rest.1|) + [];
      MiddleSlice(rest.0, EncodeInt32(32 * n + |rest.1|), []);
    }
  }

  lemma {:induction false} SameBase(t: Typ, u: Typ, items: seq<Val>)
    requires t.base == u.base
    ensures FilledAll(t, items) == FilledAll(u, items)
    ensures Filled(t, Arr(items)) == Filled(u, Arr(items))
    decreases items, 0, |items|
  {
    if items != [] {
      FilledBase(t, u, items[0], items);
      SameBase(t, u, items[1..]);
    }
  }

  lemma {:induction false} FilledBase(t: Typ, u: Typ, v: Val, context: seq<Val>)
    requires t.base == u.base
    ensures Filled(t, v) == Filled(u, v)
    decreases v, 1, 0
  {
    if v.Arr? { SameBase(t, u, v.items); }
  }

  // ---- argument lists ----

  predicate AllValid(ts: seq<Typ>) {
    forall i :: 0 <= i < |ts| ==> ValidBase(ts[i].base)
  }

  /** Bytes an argument takes in the head: its size, or an offset. */
  function HeadSize(t: Typ): nat {
    match GetSize(t)
    case None => 32
    case Some(n) => n
  }

  /** Length of the head of the first k arguments. */
  function HeadLen(ts: seq<Typ>, k: nat): nat
    requires k <= |ts|
  {
    if k == 0 then 0 else HeadLen(ts, k - 1) + HeadSize(ts[k - 1])
  }

  /** The tail after the first k arguments: the encodings of the dynamic ones. */
  function Tail(ts: seq<Typ>, es: seq<Bytes>, k: nat): Bytes
    requires k <= |ts| == |es|
  {
    if k == 0 then []
    else if GetSize(ts[k - 1]).None? then Tail(ts, es, k - 1) + es[k - 1]
    else Tail(ts, es, k - 1)
  }

  /** The head after the first k arguments: static encodings and offsets; None when an offset needs more than a word. */
  function Head(ts: seq<Typ>, es: seq<Bytes>, k: nat): Option<Bytes>
    requires k <= |ts| == |es|
  {
    if k == 0 then Some([])
    else
      var h := Head(ts, es, k - 1);
      var item := if GetSize(ts[k - 1]).Some? then Some(es[k - 1])
                  else EncodeWord(HeadLen(ts, |ts|) + |Tail(ts, es, k - 1)|);
      if h.Some? && item.Some? then Some(h.value + item.value) else None
  }

  /** The encodings of the first k arguments. */
  function EncodeArgs(ts: seq<Typ>, vs: seq<Val>, k: nat): (r: Option<seq<Bytes>>)
    requires k <= |ts| == |vs| && AllValid(ts)
    ensures r.Some? ==> |r.value| == k
  {
    if k == 0 then Some([])
    else
      var first := EncodeArgs(ts, vs, k - 1);
      var last := Enc(ts[k - 1], vs[k - 1]);
      if first.Some? && last.Some? then Some(first.value + [last.value]) else None
  }

  function EncodeAbi(ts: seq<Typ>, vs: seq<Val>): Option<Bytes>
    requires |ts| == |vs| && AllValid(ts)
  {
    var es := EncodeArgs(ts, vs, |ts|);
    if es.None? then None
    else
      var head := Head(ts, es.value, |ts|);
      if head.None? then None else Some(head.value + Tail(ts, es.value, |ts|))
  }

  /** Where the tail data of the first dynamic argument from k on starts; the end of the data when there is none. */
  function StartPosition(ts: seq<Typ>, data: Bytes, k: nat): nat
    requires k <= |ts|
    decreases |ts| - k
  {
    if k == |ts| then |data|
    else if GetSize(ts[k]).None? then BigEndianToInt(Slice(data, HeadLen(ts, k), HeadLen(ts, k) + 32))
    else StartPosition(ts, data, k + 1)
  }

  /** The data of one argument. */
  function ArgData(ts: seq<Typ>, data: Bytes, k: nat): Bytes
    requires k < |ts|
  {
    match GetSize(ts[k])
    case None => Slice(data, StartPosition(ts, data, k), StartPosition(ts, data, k + 1))
    case Some(n) => Slice(data, HeadLen(ts, k), HeadLen(ts, k) + n)
  }

  function DecodeArgs(ts: seq<Typ>, data: Bytes, k: nat): Option<seq<Val>>
    requires k <= |ts| && AllValid(ts)
  {
    if k == 0 then Some([])
    else
      var first := DecodeArgs(ts, data, k - 1);
      var last := Dec(ts[k - 1], ArgData(ts, data, k - 1));
      if first.Some? && last.Some? then Some(first.value + [last.value]) else None
  }

  function DecodeAbi(ts: seq<Typ>, data: Bytes): Option<seq<Val>>
    requires AllValid(ts)
  {
    if HeadLen(ts, |ts|) > |data| then None else DecodeArgs(ts, data, |ts|)
  }

  // ---- round trip of argument lists ----

  lemma {:induction false} EncodedArgs(ts: seq<Typ>, vs: seq<Val>, k: nat, i: nat)
    requires i < k <= |ts| == |vs| && AllValid(ts) && EncodeArgs(ts, vs, k).Some?
    ensures Enc(ts[i], vs[i]) == Some(EncodeArgs(ts, vs, k).value[i])
    ensures GetSize(ts[i]).Some? ==> |EncodeArgs(ts, vs, k).value[i]| == GetSize(ts[i]).value
  {
    if i < k - 1 {
      EncodedArgs(ts, vs, k - 1, i);
    } else if GetSize(ts[i]).Some? {
      EncodedSize(ts[i], vs[i]);
    }
  }

  /** The encodings have the sizes of their types. */
  predicate Sized(ts: seq<Typ>, es: seq<Bytes>) {
    |ts| == |es| && forall i :: 0 <= i < |ts| && GetSize(ts[i]).Some? ==> |es[i]| == GetSize(ts[i]).value
  }

  lemma {:induction false} HeadPrefix(ts: seq<Typ>, es: seq<Bytes>, j: nat, k: nat)
    requires j <= k <= |ts| && Sized(ts, es) && Head(ts, es, k).Some?
    ensures Head(ts, es, j).Some? && |Head(ts, es, j).value| == HeadLen(ts, j)
    ensures Head(ts, es, j).value <= Head(ts, es, k).value && HeadLen(ts, j) <= HeadLen(ts, k)
    decreases k, j
  {
    if j < k {
      HeadPrefix(ts, es, j, k - 1);
    } else if k > 0 {
      HeadPrefix(ts, es, k - 1, k - 1);
    }
  }

  lemma {:induction false} TailPrefix(ts: seq<Typ>, es: seq<Bytes>, j: nat, k: nat)
    requires j <= k <= |ts| == |es|
    ensures Tail(ts, es, j) <= Tail(ts, es, k)
  {
    if j < k { TailPrefix(ts, es, j, k - 1); }
  }

  lemma PrefixSlice(a: Bytes, b: Bytes, all: Bytes, rest: Bytes)
    requires a + b <= all
    ensures Slice(all + rest, |a|, |a| + |b|) == b
  {
    assert all[..|a| + |b|] == a + b;
  }

  /** What stands in the head for argument k. */
  lemma HeadItem(ts: seq<Typ>, es: seq<Bytes>, k: nat)
    requires k < |ts| && Sized(ts, es) && Head(ts, es, |ts|).Some?
    ensures var data := Head(ts, es, |ts|).value + Tail(ts, es, |ts|);
            var item := Slice(data, HeadLen(ts, k), HeadLen(ts, k) + HeadSize(ts[k]));
            if GetSize(ts[k]).Some? then item == es[k]
            else HeadLen(ts, |ts|) + |Tail(ts, es, k)| < TT256 && item == EncodeInt32(HeadLen(ts, |ts|) + |Tail(ts, es, k)|)
  {
    hide EncodeInt32, Head, Tail, HeadLen, GetSize, Slice;
    HeadPrefix(ts, es, k, |ts|);
    HeadPrefix(ts, es, k + 1, |ts|);
    HeadGrows(ts, es, k);
    var item := if GetSize(ts[k]).Some? then es[k] else EncodeInt32(HeadLen(ts, |ts|) + |Tail(ts, es, k)|);
    PrefixSlice(Head(ts, es, k).value, item, Head(ts, es, |ts|).value, Tail(ts, es, |ts|));
  }

  lemma HeadGrows(ts: seq<Typ>, es: seq<Bytes>, k: nat)
    requires k < |ts| && Sized(ts, es) && Head(ts, es, k + 1).Some?
    ensures Head(ts, es, k).Some?
    ensures GetSize(ts[k]).Some? ==> Head(ts, es, k + 1).value == Head(ts, es, k).value + es[k]
    ensures GetSize(ts[k]).None? ==>
              && HeadLen(ts, |ts|) + |Tail(ts, es, k)| < TT256
              && Head(ts, es, k + 1).value == Head(ts, es, k).value + EncodeInt32(HeadLen(ts, |ts|) + |Tail(ts, es, k)|)
  {
    hide EncodeInt32, Tail, HeadLen, GetSize;
  }

  /** The start positions read back, static arguments taking that of the next dynamic one. */
  lemma {:induction false} StartsAt(ts: seq<Typ>, es: seq<Bytes>, k: nat)
    requires k <= |ts| && Sized(ts, es) && Head(ts, es, |ts|).Some?
    ensures StartPosition(ts, Head(ts, es, |ts|).value + Tail(ts, es, |ts|), k) == HeadLen(ts, |ts|) + |Tail(ts, es, k)|
    decreases |ts| - k
  {
    hide Slice, EncodeInt32, GetSize, HeadLen, Tail, Head, StartPosition;
    HeadPrefix(ts, es, |ts|, |ts|);
    HeadStep(ts, Head(ts, es, |ts|).value + Tail(ts, es, |ts|), k);
    if k < |ts| {
      HeadItem(ts, es, k);
      TailStep(ts, es, k);
      if GetSize(ts[k]).None? {
        WordRoundTrip(HeadLen(ts, |ts|) + |Tail(ts, es, k)|);
      } else {
        StartsAt(ts, es, k + 1);
      }
    }
  }

  /** Every argument's data is its encoding. */
  lemma ArgDataIsEncoding(ts: seq<Typ>, es: seq<Bytes>, k: nat)
    requires k < |ts| && Sized(ts, es) && Head(ts, es, |ts|).Some?
    ensures ArgData(ts, Head(ts, es, |ts|).value + Tail(ts, es, |ts|), k) == es[k]
  {
    hide Head, Tail, HeadLen, Slice, StartPosition, GetSize, EncodeInt32;
    if GetSize(ts[k]).Some? {
      HeadItem(ts, es, k);
    } else {
      StartsAt(ts, es, k);
      StartsAt(ts, es, k + 1);
      TailItem(ts, es, k);
    }
  }

  lemma TailItem(ts: seq<Typ>, es: seq<Bytes>, k: nat)
    requires k < |ts| && Sized(ts, es) && Head(ts, es, |ts|).Some? && GetSize(ts[k]).None?
    ensures Slice(Head(ts, es, |ts|).value + Tail(ts, es, |ts|), HeadLen(ts, |ts|) + |Tail(ts, es, k)|,
                  HeadLen(ts, |ts|) + |Tail(ts, es, k + 1)|) == es[k]
  {
    hide Head, HeadLen, GetSize;
    var head, tail := Head(ts, es, |ts|).value, Tail(ts, es, |ts|);
    HeadPrefix(ts, es, |ts|, |ts|);
    TailPrefix(ts, es, k + 1, |ts|);
    hide Slice, Tail;
    TailStep(ts, es, k);
    assert head + Tail(ts, es, k) + es[k] <= head + tail;
    PrefixSlice(head + Tail(ts, es, k), es[k], head + tail, []);
    assert head + tail + [] == head + tail;
  }

  lemma TailStep(ts: seq<Typ>, es: seq<Bytes>, k: nat)
    requires k < |ts| == |es|
    ensures Tail(ts, es, k + 1) == if GetSize(ts[k]).None? then Tail(ts, es, k) + es[k] else Tail(ts, es, k)
  {
  }

  /** A value as it comes back on its own. */
  function Returned(t: Typ, v: Val): Option<Val>
    requires ValidBase(t.base) && Enc(t, v).Some?
  {
    Dec(t, Enc(t, v).value)
  }

  lemma {:induction false} ArgsBack(ts: seq<Typ>, vs: seq<Val>, es: seq<Bytes>, k: nat)
    requires k <= |ts| == |vs| && AllValid(ts) && EncodeArgs(ts, vs, |ts|) == Some(es) && Sized(ts, es)
    requires Head(ts, es, |ts|).Some?
    ensures forall i :: 0 <= i < k ==> Enc(ts[i], vs[i]).Some?
    ensures var r := DecodeArgs(ts, Head(ts, es, |ts|).value + Tail(ts, es, |ts|), k);
            && (r.Some? <==> forall i :: 0 <= i < k ==> Returned(ts[i], vs[i]).Some?)
            && (r.Some? ==> |r.value| == k && forall i :: 0 <= i < k ==> Returned(ts[i], vs[i]) == Some(r.value[i]))
  {
    hide Enc, Dec, Head, Tail, EncodeArgs, Sized, ArgData;
    if k > 0 {
      ArgsBack(ts, vs, es, k - 1);
      ArgDataIsEncoding(ts, es, k - 1);
      EncodedArgs(ts, vs, |ts|, k - 1);
    }
  }

  /** In a list of arguments every one comes back as it does on its own. */
  lemma AbiDecodes(ts: seq<Typ>, vs: seq<Val>)
    requires |ts| == |vs| && AllValid(ts) && EncodeAbi(ts, vs).Some?
    ensures forall i :: 0 <= i < |ts| ==> Enc(ts[i], vs[i]).Some?
    ensures var r := DecodeAbi(ts, EncodeAbi(ts, vs).value);
            && (r.Some? <==> forall i :: 0 <= i < |ts| ==> Returned(ts[i], vs[i]).Some?)
            && (r.Some? ==> |r.value| == |ts| && forall i :: 0 <= i < |ts| ==> Returned(ts[i], vs[i]) == Some(r.value[i]))
  {
    hide Enc, Dec, Head, Tail, EncodeArgs, DecodeArgs, GetSize, HeadLen;
    var es := EncodeArgs(ts, vs, |ts|).value;
    forall i | 0 <= i < |ts| && GetSize(ts[i]).Some? ensures |es[i]| == GetSize(ts[i]).value {
      EncodedArgs(ts, vs, |ts|, i);
    }
    ArgsBack(ts, vs, es, |ts|);
    HeadPrefix(ts, es, |ts|, |ts|);
  }

  // ---- the loops ----

  /** A single value: the recursion over dimensions with a loop over the elements. */
  method EncodeValue(t: Typ, v: Val) returns (r: Option<Bytes>)
    requires ValidBase(t.base)
    ensures r == Enc(t, v)
    decreases |t.dims|
  {
    hide Enc, BodySoFar, EncodeSingle, EncodeWord, GetSize, Header, EncodeBody;
    EncForm(t, v);
    if Single(t) {
      return EncodeSingle(t.base, v);
    }
    if !v.Arr? {
      return None;
    }
    var items, u := v.items, Element(t);
    var header := Header(Outer(t), |items|);
    if header == None {
      return None;
    }
    var myhead: Bytes, mytail: Bytes := header.value, [];
    NothingYet(u, items, header.value);
    for i := 0 to |items|
      invariant BodySoFar(u, items, i, header.value, myhead, mytail)
    {
      BodyStep(u, items, i, header.value, myhead, mytail);
      var e := EncodeValue(u, items[i]);
      if e == None {
        BodyFails(u, items, i);
        return None;
      }
      if GetSize(u) == None {
        var offset := EncodeWord(32 * |items| + |mytail|);
        if offset == None {
          OffsetFails(u, items, i, header.value, myhead, mytail);
          return None;
        }
        myhead := myhead + offset.value;
        mytail := mytail + e.value;
      } else {
        myhead := myhead + e.value;
      }
    }
    BodyDone(u, items, header.value, myhead, mytail);
    return Some(myhead + mytail);
  }

  lemma EncForm(t: Typ, v: Val)
    requires ValidBase(t.base)
    ensures Single(t) ==> Enc(t, v) == EncodeSingle(t.base, v)
    ensures !Single(t) && !v.Arr? ==> Enc(t, v) == None
    ensures !Single(t) && v.Arr? ==>
              var header, body := Header(Outer(t), |v.items|), EncodeBody(Element(t), v.items);
              Enc(t, v) == if header.Some? && body.Some? then Some(header.value + body.value) else None
  {
    hide EncodeSingle, Header, EncodeBody;
  }

  /** What the loop has written after i elements. */
  predicate BodySoFar(t: Typ, items: seq<Val>, i: nat, header: Bytes, myhead: Bytes, mytail: Bytes)
    requires ValidBase(t.base) && i <= |items|
  {
    if GetSize(t).Some? then
      EncodeItems(t, items[..i]).Some? && myhead == header + EncodeItems(t, items[..i]).value && mytail == []
    else
      var ht := HeadAndTail(t, items[..i], |items|);
      ht.Some? && myhead == header + ht.value.0 && mytail == ht.value.1
  }

  lemma NothingYet(t: Typ, items: seq<Val>, header: Bytes)
    requires ValidBase(t.base)
    ensures BodySoFar(t, items, 0, header, header, [])
  {
  }

  lemma BodyStep(t: Typ, items: seq<Val>, i: nat, header: Bytes, myhead: Bytes, mytail: Bytes)
    requires ValidBase(t.base) && i < |items| && BodySoFar(t, items, i, header, myhead, mytail)
    ensures Enc(t, items[i]).Some? ==>
              var e, offset := Enc(t, items[i]).value, EncodeWord(32 * |items| + |mytail|);
              && (GetSize(t).Some? ==> BodySoFar(t, items, i + 1, header, myhead + e, mytail))
              && (GetSize(t).None? && offset.Some? ==> BodySoFar(t, items, i + 1, header, myhead + offset.value, mytail + e))
  {
    hide Enc, EncodeWord, GetSize;
    assert items[..i + 1][..i] == items[..i];
    if Enc(t, items[i]).Some? {
      var e := Enc(t, items[i]).value;
      if GetSize(t).Some? {
        assert myhead + e == header + (EncodeItems(t, items[..i]).value + e);
      } else if EncodeWord(32 * |items| + |mytail|).Some? {
        var offset := EncodeWord(32 * |items| + |mytail|).value;
        assert myhead + offset == header + (HeadAndTail(t, items[..i], |items|).value.0 + offset);
      }
    }
  }

  lemma {:induction false} ItemsFail(t: Typ, items: seq<Val>, i: nat, n: nat)
    requires ValidBase(t.base) && i < |items| && Enc(t, items[i]) == None
    ensures EncodeItems(t, items) == None && HeadAndTail(t, items, n) == None
    decreases |items|
  {
    hide Enc;
    if i < |items| - 1 { ItemsFail(t, items[..|items| - 1], i, n); }
  }

  lemma BodyFails(t: Typ, items: seq<Val>, i: nat)
    requires ValidBase(t.base) && i < |items| && Enc(t, items[i]) == None
    ensures EncodeBody(t, items) == None
  {
    hide Enc, EncodeItems, HeadAndTail;
    ItemsFail(t, items, i, |items|);
  }

  lemma OffsetFails(t: Typ, items: seq<Val>, i: nat, header: Bytes, myhead: Bytes, mytail: Bytes)
    requires ValidBase(t.base) && i < |items| && BodySoFar(t, items, i, header, myhead, mytail)
    requires GetSize(t).None? && EncodeWord(32 * |items| + |mytail|) == None
    ensures EncodeBody(t, items) == None
  {
    hide Enc;
    if EncodeBody(t, items).Some? {
      OffsetAt(t, items, |items|, i);
    }
  }

  lemma BodyDone(t: Typ, items: seq<Val>, header: Bytes, myhead: Bytes, mytail: Bytes)
    requires ValidBase(t.base) && BodySoFar(t, items, |items|, header, myhead, mytail)
    ensures EncodeBody(t, items).Some? && myhead + mytail == header + EncodeBody(t, items).value
  {
    hide EncodeItems, HeadAndTail;
    assert items[..|items|] == items;
    if GetSize(t).None? {
      var ht := HeadAndTail(t, items, |items|).value;
      assert (header + ht.0) + ht.1 == header + (ht.0 + ht.1);
    }
  }

  /** Arguments one after the other, static ones and offsets into the head, dynamic ones into the tail. */
  method EncodeArguments(types: seq<Typ>, args: seq<Val>) returns (r: Option<Bytes>)
    requires |types| == |args| && AllValid(types)
    ensures r == EncodeAbi(types, args)
  {
    hide Head, Tail, HeadLen, GetSize, EncodeArgs, Enc, EncodeWord;
    ArgsStep(types, args, 0);
    HeadStep(types, [], 0);
    var headsize := 0;
    for i := 0 to |types|
      invariant headsize == HeadLen(types, i)
    {
      HeadStep(types, [], i);
      headsize := headsize + if GetSize(types[i]) == None then 32 else GetSize(types[i]).value;
    }
    var es: seq<Bytes> := [];
    for i := 0 to |types|
      invariant EncodeArgs(types, args, i) == Some(es)
    {
      ArgsStep(types, args, i);
      var e := EncodeValue(types[i], args[i]);
      if e == None {
        ArgsFail(types, args, i, |types|);
        return None;
      }
      es := es + [e.value];
    }
    var myhead: Bytes, mytail: Bytes := [], [];
    HeadTailStep(types, es, 0);
    for i := 0 to |types|
      invariant Head(types, es, i) == Some(myhead) && Tail(types, es, i) == mytail
    {
      HeadTailStep(types, es, i);
      if GetSize(types[i]) == None {
        var offset := EncodeWord(headsize + |mytail|);
        if offset == None {
          HeadFails(types, es, i, |types|);
          return None;
        }
        myhead := myhead + offset.value;
        mytail := mytail + es[i];
      } else {
        myhead := myhead + es[i];
      }
    }
    return Some(myhead + mytail);
  }

  lemma ArgsStep(ts: seq<Typ>, vs: seq<Val>, i: nat)
    requires |ts| == |vs| && AllValid(ts)
    ensures EncodeArgs(ts, vs, 0) == Some([])
    ensures i < |ts| && EncodeArgs(ts, vs, i).Some? && Enc(ts[i], vs[i]).Some? ==>
              EncodeArgs(ts, vs, i + 1) == Some(EncodeArgs(ts, vs, i).value + [Enc(ts[i], vs[i]).value])
  {
    hide Enc;
  }

  lemma HeadTailStep(ts: seq<Typ>, es: seq<Bytes>, i: nat)
    requires |ts| == |es|
    ensures Head(ts, es, 0) == Some([]) && Tail(ts, es, 0) == []
    ensures i < |ts| && Head(ts, es, i).Some? && GetSize(ts[i]).Some? ==>
              Head(ts, es, i + 1) == Some(Head(ts, es, i).value + es[i]) && Tail(ts, es, i + 1) == Tail(ts, es, i)
    ensures i < |ts| && Head(ts, es, i).Some? && GetSize(ts[i]).None? ==>
              (var offset := EncodeWord(HeadLen(ts, |ts|) + |Tail(ts, es, i)|);
               && Head(ts, es, i + 1) == (if offset.Some? then Some(Head(ts, es, i).value + offset.value) else None)
               && Tail(ts, es, i + 1) == Tail(ts, es, i) + es[i])
  {
    hide EncodeWord, GetSize, HeadLen;
  }

  lemma {:induction false} ArgsFail(ts: seq<Typ>, vs: seq<Val>, i: nat, k: nat)
    requires i < k <= |ts| == |vs| && AllValid(ts) && Enc(ts[i], vs[i]) == None
    ensures EncodeArgs(ts, vs, k) == None
  {
    if i < k - 1 { ArgsFail(ts, vs, i, k - 1); }
  }

  lemma {:induction false} HeadFails(ts: seq<Typ>, es: seq<Bytes>, i: nat, k: nat)
    requires i < k <= |ts| == |es| && Head(ts, es, i + 1) == None
    ensures Head(ts, es, k) == None
  {
    if i < k - 1 { HeadFails(ts, es, i, k - 1); }
  }

  /** The start positions filled in from the right, once the first k arguments have been read: known below `k` but for
      static arguments that still wait for the next dynamic one. */
  predicate Backfilled(ts: seq<Typ>, data: Bytes, starts: seq<Option<nat>>, k: nat) {
    && k <= |ts| && |starts| == |ts| + 1 && starts[|ts|] == Some(|data|)
    && (forall i :: k <= i < |ts| ==> starts[i] == None)
    && (forall i :: 0 <= i < k && starts[i].Some? ==> starts[i] == Some(StartPosition(ts, data, i)))
    && (forall i :: 0 <= i < k && starts[i] == None ==> forall j :: i <= j < k ==> starts[j] == None && GetSize(ts[j]).Some?)
  }

  /** Reads the head with its back-filled start positions, cuts the tail, and decodes every argument. */
  method DecodeArguments(types: seq<Typ>, data: Bytes) returns (r: Option<seq<Val>>)
    requires AllValid(types)
    ensures r == DecodeAbi(types, data)
  {
    hide Backfilled, ArgData, StartPosition, GetSize, HeadLen, DecodeArgs, Dec, Slice;
    var n := |types|;
    var outs, starts := ReadHead(types, data);
    if HeadLength(types) > |data| {
      return None;
    }
    for i := 0 to n
      invariant |outs| == n
      invariant forall j :: 0 <= j < n && (j < i || GetSize(types[j]).Some?) ==> outs[j] == ArgData(types, data, j)
    {
      if GetSize(types[i]) == None {
        DynamicData(types, data, i);
        outs := outs[i := Slice(data, starts[i].value, starts[i + 1].value)];
      }
    }
    var vs: seq<Val> := [];
    DecodeStep(types, data, 0);
    for i := 0 to n
      invariant DecodeArgs(types, data, i) == Some(vs)
    {
      DecodeStep(types, data, i);
      var v := Dec(types[i], outs[i]);
      if v == None {
        DecodeFails(types, data, i, n);
        return None;
      }
      vs := vs + [v.value];
    }
    return Some(vs);
  }

  function HeadLength(ts: seq<Typ>): nat { HeadLen(ts, |ts|) }

  lemma DynamicData(ts: seq<Typ>, data: Bytes, k: nat)
    requires k < |ts| && GetSize(ts[k]).None?
    ensures ArgData(ts, data, k) == Slice(data, StartPosition(ts, data, k), StartPosition(ts, data, k + 1))
  {
  }

  lemma DecodeStep(ts: seq<Typ>, data: Bytes, i: nat)
    requires AllValid(ts)
    ensures DecodeArgs(ts, data, 0) == Some([])
    ensures i < |ts| && DecodeArgs(ts, data, i).Some? && Dec(ts[i], ArgData(ts, data, i)).Some? ==>
              DecodeArgs(ts, data, i + 1) == Some(DecodeArgs(ts, data, i).value + [Dec(ts[i], ArgData(ts, data, i)).value])
  {
    hide Dec, ArgData;
  }

  /** The first loop: static data and start positions, the latter filled in for every argument. */
  method ReadHead(types: seq<Typ>, data: Bytes) returns (outs: seq<Bytes>, starts: seq<Option<nat>>)
    requires AllValid(types)
    ensures |outs| == |types| && |starts| == |types| + 1
    ensures forall j :: 0 <= j < |types| && GetSize(types[j]).Some? ==> outs[j] == ArgData(types, data, j)
    ensures forall j :: 0 <= j <= |types| ==> starts[j] == Some(StartPosition(types, data, j))
  {
    hide ArgData, StartPosition, GetSize, HeadLen, Slice;
    var n := |types|;
    outs := seq(n, i => []);
    starts := seq(n + 1, i => if i == n then Some(|data|) else None);
    var pos := 0;
    HeadStep(types, data, 0);
    for i := 0 to n
      invariant pos == HeadLen(types, i) && |outs| == n && Backfilled(types, data, starts, i)
      invariant forall j :: 0 <= j < i && GetSize(types[j]).Some? ==> outs[j] == ArgData(types, data, j)
    {
      HeadStep(types, data, i);
      if GetSize(types[i]) == None {
        var start := BigEndianToInt(Slice(data, pos, pos + 32));
        starts := starts[i := Some(start)];
        starts := FillBack(types, data, starts, i, start);
        pos := pos + 32;
      } else {
        outs := outs[i := Slice(data, pos, pos + GetSize(types[i]).value)];
        pos := pos + GetSize(types[i]).value;
      }
    }
    HeadStep(types, data, n);
    starts := FillBack(types, data, starts, n, |data|);
  }

  lemma HeadStep(ts: seq<Typ>, data: Bytes, i: nat)
    requires i <= |ts|
    ensures HeadLen(ts, 0) == 0 && StartPosition(ts, data, |ts|) == |data|
    ensures i < |ts| && GetSize(ts[i]).None? ==>
              && HeadLen(ts, i + 1) == HeadLen(ts, i) + 32
              && StartPosition(ts, data, i) == BigEndianToInt(Slice(data, HeadLen(ts, i), HeadLen(ts, i) + 32))
    ensures i < |ts| && GetSize(ts[i]).Some? ==>
              && HeadLen(ts, i + 1) == HeadLen(ts, i) + GetSize(ts[i]).value
              && ArgData(ts, data, i) == Slice(data, HeadLen(ts, i), HeadLen(ts, i) + GetSize(ts[i]).value)
              && StartPosition(ts, data, i) == StartPosition(ts, data, i + 1)
  {
    hide Slice, BigEndianToInt;
  }

  /** The inner loop: positions below i that are still unknown take the start found at i. */
  method FillBack(types: seq<Typ>, data: Bytes, starts: seq<Option<nat>>, i: nat, start: nat)
    returns (r: seq<Option<nat>>)
    requires i <= |types| == |starts| - 1 && starts[i] == Some(start) && start == StartPosition(types, data, i)
    requires starts[|types|] == Some(|data|) && (forall j :: i < j < |types| ==> starts[j] == None)
    requires forall j :: 0 <= j < i && starts[j].Some? ==> starts[j] == Some(StartPosition(types, data, j))
    requires forall j :: 0 <= j < i && starts[j] == None ==> forall l :: j <= l < i ==> starts[l] == None && GetSize(types[l]).Some?
    ensures |r| == |starts| && r[|types|] == Some(|data|) && (forall j :: i < j < |types| ==> r[j] == None)
    ensures forall j :: 0 <= j <= i ==> r[j] == Some(StartPosition(types, data, j))
  {
    hide StartPosition, GetSize;
    r := starts;
    var j: int := i - 1;
    while j >= 0 && r[j] == None
      invariant -1 <= j < i && |r| == |starts|
      invariant forall l :: 0 <= l <= j || i <= l < |r| ==> r[l] == starts[l]
      invariant forall l :: j < l <= i ==> r[l] == Some(StartPosition(types, data, l)) && StartPosition(types, data, l) == start
    {
      assert starts[j] == None;
      HeadStep(types, data, j);
      r := r[j := Some(start)];
      j := j - 1;
    }
    forall l | 0 <= l <= i ensures r[l] == Some(StartPosition(types, data, l)) {
      if l <= j {
        assert starts[j].Some?;
        assert starts[l].Some?;
      }
    }
  }

  lemma {:induction false} DecodeFails(ts: seq<Typ>, data: Bytes, i: nat, k: nat)
    requires i < k <= |ts| && AllValid(ts) && Dec(ts[i], ArgData(ts, data, i)) == None
    ensures DecodeArgs(ts, data, k) == None
  {
    hide Dec, ArgData;
    if i < k - 1 { DecodeFails(ts, data, i, k - 1); }
  }
}
