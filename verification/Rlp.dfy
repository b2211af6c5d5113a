/** Recursive length prefix encoding (Yellow Paper, Appendix B) as in ethereum/fast_rlp.py. */
module RlpCodec {
  import opened ByteStrings
  import opened BigEndian

  /** A byte string or a list of items. */
  datatype Rlp = Str(s: Bytes) | List(items: seq<Rlp>)

  // ---- encoding ----

  function PrefixLen(length: nat): nat {
    if length < 56 then 1 else 1 + ByteLength(length)
  }

  /** Length of the encoding, computed without encoding. */
  function EncodedLen(item: Rlp): nat {
    match item
    case Str(s) => if |s| == 1 && s[0] < 128 then 1 else PrefixLen(|s|) + |s|
    case List(items) => PrefixLen(TotalLen(items)) + TotalLen(items)
  }

  function TotalLen(items: seq<Rlp>): nat {
    if items == [] then 0 else EncodedLen(items[0]) + TotalLen(items[1..])
  }

  /** Every payload is below 2^64 bytes; longer ones have no encoding. */
  predicate Encodable(item: Rlp) {
    match item
    case Str(s) => |s| < TWO_64
    case List(items) => TotalLen(items) < TWO_64 && forall i :: 0 <= i < |items| ==> Encodable(items[i])
  }

  function LengthPrefix(length: nat, offset: nat): (p: Bytes)
    requires length < TWO_64 && (offset == 128 || offset == 192)
    ensures |p| == PrefixLen(length)
  {
    ByteLength64(length);
    ByteLengthIsLength(length);
    if length < 56 then [offset + length]
    else
      var lengthString := IntToBigEndian(length);
      [offset + 56 - 1 + |lengthString|] + lengthString
  }

  function Encode(item: Rlp): (e: Bytes)
    requires Encodable(item)
    ensures |e| == EncodedLen(item)
  {
    match item
    case Str(s) => if |s| == 1 && s[0] < 128 then s else LengthPrefix(|s|, 128) + s
    case List(items) => LengthPrefix(TotalLen(items), 192) + EncodeAll(items)
  }

  function EncodeAll(items: seq<Rlp>): (e: Bytes)
    requires forall i :: 0 <= i < |items| ==> Encodable(items[i])
    ensures |e| == TotalLen(items)
  {
    if items == [] then [] else Encode(items[0]) + EncodeAll(items[1..])
  }

  // ---- decoding ----

  /** Kind, payload length and payload start read off at `start`. */
  datatype Prefix = Prefix(isList: bool, length: nat, end: nat)

  function ConsumeLengthPrefix(rlp: Bytes, start: nat): Prefix
    requires start < |rlp|
  {
    var b0 := rlp[start];
    if b0 < 128 then Prefix(false, 1, start)
    else if b0 < 128 + 56 then Prefix(false, b0 - 128, start + 1)
    else if b0 < 192 then
      var ll := b0 - 128 - 56 + 1;
      Prefix(false, BigEndianToInt(Slice(rlp, start + 1, start + 1 + ll)), start + 1 + ll)
    else if b0 < 192 + 56 then Prefix(true, b0 - 192, start + 1)
    else
      var ll := b0 - 192 - 56 + 1;
      Prefix(true, BigEndianToInt(Slice(rlp, start + 1, start + 1 + ll)), start + 1 + ll)
  }

  /** An item takes at least one byte, and the payload of a list starts behind its prefix. */
  lemma ConsumeAdvances(rlp: Bytes, start: nat)
    requires start < |rlp|
    ensures var p := ConsumeLengthPrefix(rlp, start);
            p.length + p.end > start && (p.isList ==> p.end > start)
  {
  }

  function Decode(rlp: Bytes): Rlp
    requires rlp != []
    decreases |rlp|, |rlp| + 1
  {
    var p := ConsumeLengthPrefix(rlp, 0);
    if !p.isList then Str(Slice(rlp, p.end, p.end + p.length))
    else List(DecodeFrom(rlp, p.end))
  }

  /** The items from position `pos` to the end. */
  function DecodeFrom(rlp: Bytes, pos: nat): seq<Rlp>
    requires pos >= 1
    decreases |rlp|, if pos <= |rlp| then |rlp| - pos else 0
  {
    if pos >= |rlp| then []
    else
      var p := ConsumeLengthPrefix(rlp, pos);
      [Decode(Slice(rlp, pos, p.length + p.end))] + DecodeFrom(rlp, p.length + p.end)
  }

  lemma DecodeForm(rlp: Bytes)
    requires rlp != []
    ensures var p := ConsumeLengthPrefix(rlp, 0);
            Decode(rlp) == if p.isList then List(DecodeFrom(rlp, p.end)) else Str(Slice(rlp, p.end, p.end + p.length))
  {
  }

  lemma DecodeSteps(rlp: Bytes, pos: nat)
    requires pos >= 1
    ensures pos >= |rlp| ==> DecodeFrom(rlp, pos) == []
    ensures pos < |rlp| ==>
              (var p := ConsumeLengthPrefix(rlp, pos);
               && p.length + p.end > pos && 0 < |Slice(rlp, pos, p.length + p.end)| < |rlp|
               && DecodeFrom(rlp, pos) == [Decode(Slice(rlp, pos, p.length + p.end))] + DecodeFrom(rlp, p.length + p.end))
  {
    hide ConsumeLengthPrefix;
    if pos < |rlp| { ConsumeAdvances(rlp, pos); }
  }

  /** The items read so far and those still to come. */
  ghost predicate Joined(all: seq<Rlp>, o: seq<Rlp>, rest: seq<Rlp>) {
    all == o + rest
  }

  lemma JoinedStep(all: seq<Rlp>, o: seq<Rlp>, x: Rlp, rest: seq<Rlp>)
    requires Joined(all, o, [x] + rest)
    ensures Joined(all, o + [x], rest)
  {
  }

  lemma JoinedEnd(all: seq<Rlp>, o: seq<Rlp>)
    ensures Joined(all, o, []) ==> all == o
    ensures Joined(all, [], all)
  {
  }

  /** The recursive decoder; None stands for the index error on an empty string. */
  method DecodeOptimized(rlp: Bytes) returns (r: Option<Rlp>)
    ensures r == if rlp == [] then None else Some(Decode(rlp))
    decreases |rlp|
  {
    hide ConsumeLengthPrefix, Decode, DecodeFrom, Joined, Slice;
    if rlp == [] {
      return None;
    }
    ConsumeAdvances(rlp, 0);
    DecodeForm(rlp);
    var first := ConsumeLengthPrefix(rlp, 0);
    if !first.isList {
      return Some(Str(Slice(rlp, first.end, first.end + first.length)));
    }
    var o: seq<Rlp> := [];
    var pos := first.end;
    JoinedEnd(DecodeFrom(rlp, first.end), o);
    while pos < |rlp|
      invariant pos >= 1
      invariant Joined(DecodeFrom(rlp, first.end), o, DecodeFrom(rlp, pos))
      decreases |rlp| - pos
    {
      DecodeSteps(rlp, pos);
      var p := ConsumeLengthPrefix(rlp, pos);
      var x := DecodeOptimized(Slice(rlp, pos, p.length + p.end));
      JoinedStep(DecodeFrom(rlp, first.end), o, x.value, DecodeFrom(rlp, p.length + p.end));
      o := o + [x.value];
      pos := p.length + p.end;
    }
    DecodeSteps(rlp, pos);
    JoinedEnd(DecodeFrom(rlp, first.end), o);
    return Some(List(o));
  }

  /** The single-string decoder used for flat lists: the string and the bytes it took. */
  function OptimizedDecodeSingle(x: Bytes, pos: nat): (Bytes, nat)
    requires pos < |x|
  {
    var z := x[pos];
    if z < 128 then (Slice(x, pos, pos + 1), 1)
    else if z < 184 then (Slice(x, pos + 1, pos + z - 127), z - 127)
    else
      var ll := BigEndianToInt(Slice(x, pos + 1, pos + z - 182));
      (Slice(x, pos + z - 182, pos + z - 182 + ll), z - 182 + ll)
  }

  function OptimizedDecodeFrom(rlp: Bytes, pos: nat): seq<Bytes>
    decreases if pos <= |rlp| then |rlp| - pos else 0
  {
    if pos >= |rlp| then []
    else
      var (x, inc) := OptimizedDecodeSingle(rlp, pos);
      [x] + OptimizedDecodeFrom(rlp, pos + inc)
  }

  method OptimizedDecodeList(rlp: Bytes) returns (r: Option<seq<Bytes>>)
    ensures r == if rlp == [] then None else Some(OptimizedDecodeFrom(rlp, ConsumeLengthPrefix(rlp, 0).end))
  {
    if rlp == [] {
      return None;
    }
    var o: seq<Bytes> := [];
    var pos := ConsumeLengthPrefix(rlp, 0).end;
    ghost var start := pos;
    while pos < |rlp|
      invariant o + OptimizedDecodeFrom(rlp, pos) == OptimizedDecodeFrom(rlp, start)
      decreases |rlp| - pos
    {
      var (x, inc) := OptimizedDecodeSingle(rlp, pos);
      pos := pos + inc;
      o := o + [x];
    }
    assert o + [] == o;
    return Some(o);
  }

  // ---- round trip ----

  lemma ConsumePrefix(pre: Bytes, length: nat, offset: nat, rest: Bytes)
    requires length < TWO_64 && (offset == 128 || offset == 192)
    ensures LengthPrefix(length, offset) != []
    ensures ConsumeLengthPrefix(pre + LengthPrefix(length, offset) + rest, |pre|)
         == Prefix(offset == 192, length, |pre| + PrefixLen(length))
  {
    var p := LengthPrefix(length, offset);
    var rlp := pre + p + rest;
    ByteLength64(length);
    ByteLengthIsLength(length);
    assert rlp[|pre|] == p[0];
    if length >= 56 {
      var ls := IntToBigEndian(length);
      assert Slice(rlp, |pre| + 1, |pre| + 1 + |ls|) == ls;
      BigEndianRoundTrip(length);
    }
  }

  lemma ConsumeByte(pre: Bytes, b: Byte, rest: Bytes)
    requires b < 128
    ensures ConsumeLengthPrefix(pre + [b] + rest, |pre|) == Prefix(false, 1, |pre|)
  {
    assert (pre + [b] + rest)[|pre|] == b;
  }

  /** The prefix of an encoded item delimits it, wherever it stands. */
  lemma ConsumeItem(pre: Bytes, item: Rlp, rest: Bytes)
    requires Encodable(item)
    ensures Encode(item) != []
    ensures var p := ConsumeLengthPrefix(pre + Encode(item) + rest, |pre|);
            && p.isList == item.List?
            && p.length + p.end == |pre| + |Encode(item)|
            && p.end == |pre| + |Encode(item)| - (if item.List? then TotalLen(item.items) else |item.s|)
  {
    hide ConsumeLengthPrefix, LengthPrefix;
    var rlp := pre + Encode(item) + rest;
    match item
    case Str(s) =>
      if |s| == 1 && s[0] < 128 {
        assert Encode(item) == [s[0]];
        ConsumeByte(pre, s[0], rest);
      } else {
        ConsumePrefix(pre, |s|, 128, s + rest);
        assert rlp == pre + LengthPrefix(|s|, 128) + (s + rest);
      }
    case List(items) =>
      ConsumePrefix(pre, TotalLen(items), 192, EncodeAll(items) + rest);
      assert rlp == pre + LengthPrefix(TotalLen(items), 192) + (EncodeAll(items) + rest);
  }

  /** Decoding undoes encoding on every nested item whose payloads stay below 2^64 bytes. */
  lemma {:induction false} DecodeEncode(item: Rlp)
    requires Encodable(item)
    ensures Encode(item) != [] && Decode(Encode(item)) == item
    decreases item, 1, 0
  {
    hide ConsumeLengthPrefix, LengthPrefix, EncodeAll, DecodeFrom;
    var e := Encode(item);
    ConsumeItem([], item, []);
    assert [] + e + [] == e;
    var p := ConsumeLengthPrefix(e, 0);
    match item
    case Str(s) => assert Slice(e, p.end, p.end + p.length) == s;
    case List(items) =>
      var head := LengthPrefix(TotalLen(items), 192);
      assert e == head + EncodeAll(items);
      DecodeItems(item, head, items);
  }

  lemma {:induction false} DecodeItems(context: Rlp, pre: Bytes, items: seq<Rlp>)
    requires pre != [] && forall i :: 0 <= i < |items| ==> items[i] < context && Encodable(items[i])
    ensures DecodeFrom(pre + EncodeAll(items), |pre|) == items
    decreases context, 0, |items|
  {
    hide ConsumeLengthPrefix, LengthPrefix, Encode, Decode, DecodeFrom;
    var rlp := pre + EncodeAll(items);
    if items == [] {
      DecodeSteps(rlp, |pre|);
    } else {
      var e, rest := Encode(items[0]), EncodeAll(items[1..]);
      assert rlp == pre + e + rest;
      ConsumeItem(pre, items[0], rest);
      assert Slice(rlp, |pre|, |pre| + |e|) == e;
      DecodeSteps(rlp, |pre|);
      DecodeEncode(items[0]);
      DecodeItems(context, pre + e, items[1..]);
      assert rlp == (pre + e) + rest;
      assert items == [items[0]] + items[1..];
    }
  }

  /** No two items share an encoding. */
  lemma EncodeInjective(a: Rlp, b: Rlp)
    requires Encodable(a) && Encodable(b) && Encode(a) == Encode(b)
    ensures a == b
  {
    DecodeEncode(a);
    DecodeEncode(b);
  }

  function Strings(ss: seq<Bytes>): (items: seq<Rlp>)
    ensures |items| == |ss| && forall i :: 0 <= i < |ss| ==> items[i] == Str(ss[i])
  {
    if ss == [] then [] else [Str(ss[0])] + Strings(ss[1..])
  }

  lemma {:induction false} OptimizedItems(pre: Bytes, ss: seq<Bytes>)
    requires forall i :: 0 <= i < |ss| ==> |ss[i]| < TWO_64
    ensures OptimizedDecodeFrom(pre + EncodeAll(Strings(ss)), |pre|) == ss
    decreases |ss|
  {
    hide ConsumeLengthPrefix, LengthPrefix, OptimizedDecodeSingle, Encode;
    var items := Strings(ss);
    var rlp := pre + EncodeAll(items);
    if ss != [] {
      var s := ss[0];
      var e, rest := Encode(Str(s)), EncodeAll(Strings(ss[1..]));
      assert rlp == pre + e + rest;
      OptimizedSingle(pre, s, rest);
      OptimizedItems(pre + e, ss[1..]);
      assert rlp == (pre + e) + rest;
    }
  }

  /** On an encoded string the fast decoder reads what the general one reads. */
  lemma OptimizedSingle(pre: Bytes, s: Bytes, rest: Bytes)
    requires |s| < TWO_64
    ensures Encode(Str(s)) != []
    ensures OptimizedDecodeSingle(pre + Encode(Str(s)) + rest, |pre|) == (s, |Encode(Str(s))|)
  {
    var e := Encode(Str(s));
    var x := pre + e + rest;
    ConsumeItem(pre, Str(s), rest);
    var p := ConsumeLengthPrefix(x, |pre|);
    assert Slice(x, p.end, p.end + p.length) == s;
  }

  /** On the encoding of a flat list both list decoders return its strings. */
  lemma OptimizedAgrees(ss: seq<Bytes>)
    requires Encodable(List(Strings(ss)))
    ensures var rlp := Encode(List(Strings(ss)));
            && rlp != []
            && Decode(rlp) == List(Strings(ss))
            && OptimizedDecodeFrom(rlp, ConsumeLengthPrefix(rlp, 0).end) == ss
  {
    var item := List(Strings(ss));
    var rlp := Encode(item);
    DecodeEncode(item);
    ConsumeItem([], item, []);
    assert [] + rlp + [] == rlp;
    forall i | 0 <= i < |ss| ensures |ss[i]| < TWO_64 {
      assert Encodable(Strings(ss)[i]);
    }
    OptimizedItems(LengthPrefix(TotalLen(Strings(ss)), 192), ss);
  }
}
