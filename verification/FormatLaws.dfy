/** The encodings byte by byte: RLP, hex-prefix paths, trie nodes, the contract ABI and the compression. */
module FormatLaws {
  import opened ByteStrings
  import opened BigEndian
  import opened IntMath
  import opened Words
  import opened Nibbles
  import opened InstructionLaws
  import R = RlpCodec
  import Trie
  import S = TrieStore
  import A = Abi
  import C = Compression

  // ---- RLP ----

  function Concat(parts: seq<Bytes>): Bytes {
    if parts == [] then [] else parts[0] + Concat(parts[1..])
  }

  /** A length as big-endian bytes without leading zeros. */
  predicate LengthBytes(l: Bytes, n: nat) {
    1 <= |l| <= 8 && l[0] != 0 && BigEndianToInt(l) == n
  }

  /** A payload behind its prefix: up to 55 bytes the length is part of the first byte, and else it follows it. */
  ghost predicate Prefixed(e: Bytes, base: nat, payload: Bytes)
    requires base <= 192
  {
    if |payload| <= 55 then e == [base + |payload|] + payload
    else exists l: Bytes :: LengthBytes(l, |payload|) && e == [base + 55 + |l|] + l + payload
  }

  lemma {:induction false} NoLeadingZero(n: nat)
    requires n > 0
    ensures IntToBigEndian(n) != [] && IntToBigEndian(n)[0] != 0
  {
    if n >= 256 {
      NoLeadingZero(n / 256);
    } else {
      assert IntToBigEndian(n / 256) == [];
    }
  }

  lemma PrefixMeans(payload: Bytes, base: nat)
    requires |payload| < TWO_64 && (base == 128 || base == 192)
    ensures Prefixed(R.LengthPrefix(|payload|, base) + payload, base, payload)
  {
    var n := |payload|;
    if n > 55 {
      var l := IntToBigEndian(n);
      NoLeadingZero(n);
      BigEndianRoundTrip(n);
      ByteLength64(n);
      ByteLengthIsLength(n);
      assert LengthBytes(l, n);
    }
  }

  /** A single byte below 128 stands for itself; any other string follows a prefix from 128 on, and a list of encodings one from
      192 on. */
  lemma RlpLayout(item: R.Rlp)
    requires R.Encodable(item)
    ensures match item
            case Str(s) => if |s| == 1 && s[0] < 128 then R.Encode(item) == s else Prefixed(R.Encode(item), 128, s)
            case List(items) => Prefixed(R.Encode(item), 192, Concat(seq(|items|, i requires 0 <= i < |items| => R.Encode(items[i]))))
  {
    hide R.LengthPrefix, Prefixed;
    match item
    case Str(s) => PrefixMeans(s, 128);
    case List(items) =>
      AllIsConcat(items);
      PrefixMeans(R.EncodeAll(items), 192);
  }

  lemma {:induction false} AllIsConcat(items: seq<R.Rlp>)
    requires forall i :: 0 <= i < |items| ==> R.Encodable(items[i])
    ensures R.EncodeAll(items) == Concat(seq(|items|, i requires 0 <= i < |items| => R.Encode(items[i])))
  {
    hide R.Encode;
    if items != [] {
      AllIsConcat(items[1..]);
      var parts := seq(|items|, i requires 0 <= i < |items| => R.Encode(items[i]));
      assert parts[1..] == seq(|items| - 1, i requires 0 <= i < |items| - 1 => R.Encode(items[1..][i]));
    }
  }

  /** Decoding also takes a length written out where it could be part of the first byte, or with leading zeros. */
  lemma LooseLengths(l: Bytes, payload: Bytes)
    requires 1 <= |l| <= 8 && BigEndianToInt(l) == |payload|
    ensures R.Decode([183 + |l|] + l + payload) == R.Str(payload)
  {
    var rlp := [183 + |l|] + l + payload;
    assert Slice(rlp, 1, 1 + |l|) == l;
    assert Slice(rlp, 1 + |l|, 1 + |l| + |payload|) == payload;
  }

  // ---- hex prefix ----

  /** A path as it is packed: that of a leaf with the terminator 16. */
  function PathOf(path: Key, leaf: bool): seq<TNibble> {
    var t: seq<TNibble> := path;
    if leaf then t + [16] else t
  }

  /** The packed form of a path, of a leaf or not: the first byte holds a flag for a leaf, one for odd length, and the first
      nibble if there is an odd one; then two nibbles a byte. */
  lemma HexPrefixLayout(path: Key, leaf: bool)
    ensures Packable(PathOf(path, leaf))
    ensures var p := PackNibbles(PathOf(path, leaf));
               && |p| == |path| / 2 + 1
               && p[0] == (if leaf then 32 else 0) + (if |path| % 2 == 1 then 16 + (path[0] as int) else 0)
               && forall i :: 0 <= i < |path| / 2 ==> p[1 + i] == 16 * (path[|path| % 2 + 2 * i] as int) + path[|path| % 2 + 2 * i + 1]
  {
    hide PairUp;
    Headered(path, leaf);
    var all := Nibbles.Header(|path| % 2 == 1, leaf) + path;
    PairLength(all);
    forall i | 0 <= i < |all| / 2 ensures PairUp(all)[i] == 16 * (all[2 * i] as int) + all[2 * i + 1] {
      PairAt(all, i);
    }
    hide Nibbles.Header, PackNibbles;
    forall i | 0 <= i < |path| / 2
      ensures PairUp(all)[1 + i] == 16 * (path[|path| % 2 + 2 * i] as int) + path[|path| % 2 + 2 * i + 1] {
      assert PairUp(all)[1 + i] == 16 * (all[2 * (1 + i)] as int) + all[2 * (1 + i) + 1];
    }
  }

  lemma Headered(path: Key, leaf: bool)
    ensures Packable(PathOf(path, leaf))
    ensures var all := Nibbles.Header(|path| % 2 == 1, leaf) + path;
            && |all| == 2 * (|path| / 2 + 1) && PackNibbles(PathOf(path, leaf)) == PairUp(all)
            && all[0] == (if leaf then 2 else 0) + |path| % 2 && all[1] == (if |path| % 2 == 1 then path[0] else 0)
            && forall i :: 0 <= i < |path| / 2 ==> all[2 * (1 + i)] == path[|path| % 2 + 2 * i] && all[2 * (1 + i) + 1] == path[|path| % 2 + 2 * i + 1]
  {
    hide PairUp;
    var nibbles := PathOf(path, leaf);
    assert leaf ==> nibbles[|nibbles| - 1] == 16 && nibbles[..|nibbles| - 1] == path;
  }

  lemma {:induction false} PairAt(nibbles: Key, i: nat)
    requires |nibbles| % 2 == 0 && i < |nibbles| / 2
    ensures |PairUp(nibbles)| == |nibbles| / 2 && PairUp(nibbles)[i] == 16 * (nibbles[2 * i] as int) + nibbles[2 * i + 1]
    decreases i
  {
    PairLength(nibbles);
    if i > 0 { PairAt(nibbles[2..], i - 1); }
  }

  lemma {:induction false} PairLength(nibbles: Key)
    requires |nibbles| % 2 == 0
    ensures |PairUp(nibbles)| == |nibbles| / 2
  {
    if nibbles != [] { PairLength(nibbles[2..]); }
  }

  // ---- trie nodes ----

  /** What a node holds for a child: the empty string for none, the child itself if its RLP encoding is shorter than 32 bytes, and
      else its digest. */
  predicate ChildLayout<D(==)>(H: S.Item<D> -> D, bytes: D -> Bytes, child: Trie.Node, r: S.Item<D>) {
    if child == Trie.Blank then r == S.Str([])
    else if R.EncodedLen(S.Lower(S.ItemOf(H, child), bytes)) < 32 then r == S.ItemOf(H, child)
    else r == S.Ref(H(S.ItemOf(H, child)))
  }

  lemma ChildMeans<D>(H: S.Item<D> -> D, bytes: D -> Bytes, child: Trie.Node)
    requires forall d :: |bytes(d)| == 32
    ensures ChildLayout(H, bytes, child, S.RefOf(H, child))
  {
    S.ItemLenIsEncodedLen(S.ItemOf(H, child), bytes);
    hide S.ItemOf, S.ItemLen, S.Lower;
  }

  /** A leaf is a pair of its path, packed as a leaf's, and its value; an extension one of its path and its child; a branch has
      its children in the order of the nibbles, and then its value. */
  lemma NodeLayout<D>(H: S.Item<D> -> D, bytes: D -> Bytes, n: Trie.Node)
    requires forall d :: |bytes(d)| == 32
    ensures match n
            case Blank => S.ItemOf(H, n) == S.Str([])
            case Leaf(key, value) => S.ItemOf(H, n) == S.List([S.Str(PackNibbles(PathOf(key, true))), S.Str(value)])
            case Ext(path, child) =>
              var i := S.ItemOf(H, n);
              && i.List? && |i.items| == 2 && i.items[0] == S.Str(PackNibbles(PathOf(path, false))) && ChildLayout(H, bytes, child, i.items[1])
            case Branch(kids, value) =>
              var i := S.ItemOf(H, n);
              && i.List? && |i.items| == |kids| + 1 && i.items[|kids|] == S.Str(value)
              && forall k :: 0 <= k < |kids| ==> ChildLayout(H, bytes, kids[k], i.items[k])
  {
    match n
    case Ext(_, child) => ChildMeans(H, bytes, child);
    case Branch(kids, _) =>
      forall k | 0 <= k < |kids| ensures ChildLayout(H, bytes, kids[k], S.RefOf(H, kids[k])) { ChildMeans(H, bytes, kids[k]); }
    case _ =>
  }

  // ---- the ABI: single values ----

  /** The 32 bytes of a number, the most significant first. */
  predicate IsWord(e: Bytes, v: nat) {
    |e| == 32 && forall i :: 0 <= i < 32 ==> e[i] == ByteOf(v, i)
  }

  /** The bytes, and then only zeros. */
  predicate PaddedRight(e: Bytes, s: Bytes, length: nat) {
    |e| == length >= |s| && forall i :: 0 <= i < length ==> e[i] == if i < |s| then s[i] else 0
  }

  lemma WordMeans(v: Word)
    ensures IsWord(EncodeInt32(v), v)
  {
    forall i | 0 <= i < 32 ensures EncodeInt32(v)[i] == ByteOf(v, i) { ByteOfWord(i, v); }
  }

  lemma PadMeans(s: Bytes, l: nat)
    requires |s| <= l
    ensures PaddedRight(A.RZPad(s, l), s, l)
  {
  }

  /** Numbers are 32 bytes, big-endian, negative ones in two's complement; byte strings with a size are filled up with zeros
      behind, hashes with zeros in front; byte strings without one have their length in front, and zeros behind up to a multiple
      of 32. */
  lemma SingleLayout(b: A.Base, v: A.Val)
    requires A.ValidBase(b) && A.EncodeSingle(b, v).Some?
    ensures var e := A.EncodeSingle(b, v).value;
            match (b, v)
            case (UInt(_), Num(i)) => 0 <= i < TT256 && IsWord(e, i)
            case (SInt(_), Num(i)) => -TT255 <= i < TT255 && IsWord(e, if i < 0 then i + TT256 else i)
            case (Bool, Flag(x)) => IsWord(e, if x then 1 else 0)
            case (FixedBytes(n), Str(s)) => |s| <= n && PaddedRight(e, s, 32)
            case (HashOf(n), Str(s)) => |s| == n && |e| == 32 && forall i :: 0 <= i < 32 ==> e[i] == if i < 32 - n then 0 else s[i - (32 - n)]
            case (DynBytes, Str(s)) =>
              && |e| % 32 == 0 && 32 + |s| <= |e| < 64 + |s| && IsWord(e[..32], |s|)
              && PaddedRight(e[32..], s, |e| - 32)
            case _ => false
  {
    hide IsWord, Pow2, EncodeInt32;
    match (b, v)
    case (UInt(_), Num(i)) => WordMeans(i);
    case (SInt(bits), Num(i)) =>
      SignedRange(bits);
      WordMeans(i % TT256);
      SignedWord(i);
    case (Bool, Flag(x)) => WordMeans(if x then 1 else 0);
    case (FixedBytes(_), Str(s)) => PadMeans(s, 32);
    case (HashOf(_), Str(s)) =>
    case (DynBytes, Str(s)) =>
      WordMeans(|s|);
      PadMeans(s, Ceil32(|s|));
      assert (EncodeInt32(|s|) + A.RZPad(s, Ceil32(|s|)))[..32] == EncodeInt32(|s|);
      assert (EncodeInt32(|s|) + A.RZPad(s, Ceil32(|s|)))[32..] == A.RZPad(s, Ceil32(|s|));
    case _ =>
  }

  /** Reading a word: the lowest bits of a number, true for anything but 0, the first bytes of a byte string, the last of a hash. */
  lemma SingleReading(b: A.Base, e: Bytes)
    requires A.ValidBase(b) && |e| == 32
    ensures b.UInt? ==>
      var d := A.DecodeSingle(b, e);
      d.Some? && d.value.Num? && 0 <= d.value.n < Pow2(b.bits) && Congruent(d.value.n, BigEndianToInt(e), Pow2(b.bits))
    ensures b.SInt? ==>
      var d := A.DecodeSingle(b, e);
      && d.Some? && d.value.Num? && -(Pow2(b.bits) as int) <= 2 * d.value.n < Pow2(b.bits)
      && Congruent(d.value.n, BigEndianToInt(e), Pow2(b.bits))
    ensures b.Bool? ==> A.DecodeSingle(b, e) == Some(A.Flag(exists i :: 0 <= i < 32 && e[i] != 0))
    ensures b.FixedBytes? ==> A.DecodeSingle(b, e) == Some(A.Str(e[..b.size]))
    ensures b.HashOf? ==> A.DecodeSingle(b, e) == Some(A.Str(e[32 - b.size..]))
  {
    match b
    case UInt(bits) => RemainderCongruent(BigEndianToInt(e), Pow2(bits));
    case SInt(bits) => SignedReading(bits, e);
    case Bool => ZeroBytes(e);
    case HashOf(n) => assert Slice(e, 32 - n, |e|) == e[32 - n..];
    case _ =>
  }

  lemma SignedReading(bits: nat, e: Bytes)
    requires A.ValidBase(A.SInt(bits))
    ensures var d := A.DecodeSingle(A.SInt(bits), e);
            && d.Some? && d.value.Num? && -(Pow2(bits) as int) <= 2 * d.value.n < Pow2(bits)
            && Congruent(d.value.n, BigEndianToInt(e), Pow2(bits))
  {
    assert Pow2(bits) == 2 * Pow2(bits - 1);
    hide Congruent, Pow2, BigEndianToInt;
    SignedOf(BigEndianToInt(e), Pow2(bits), Pow2(bits - 1));
  }

  lemma SignedOf(x: nat, n: nat, half: nat)
    requires n == 2 * half > 0
    ensures var v := if x % n >= half then x % n - n else x % n; -(n as int) <= 2 * v < n && Congruent(v, x, n)
  {
    RemainderCongruent(x, n);
    OneLess(x, n);
    hide Congruent;
    var o := x % n;
  }

  lemma OneLess(x: int, n: nat)
    requires n > 0
    ensures Congruent(x % n - n, x, n)
  {
    var q := x / n;
    assert x == n * q + x % n;
    DivModUnique(x % n - n - x, n, -q - 1, 0);
  }

  lemma {:induction false} ZeroBytes(b: Bytes)
    ensures BigEndianToInt(b) != 0 <==> exists i :: 0 <= i < |b| && b[i] != 0
  {
    if b != [] {
      var k := |b| - 1;
      ZeroBytes(b[..k]);
      if BigEndianToInt(b[..k]) != 0 {
        var i :| 0 <= i < k && b[..k][i] != 0;
        assert b[i] != 0;
      } else if b[k] == 0 {
        assert forall i :: 0 <= i < k ==> b[i] == b[..k][i];
      }
    }
  }

  lemma SignedRange(bits: nat)
    requires A.ValidBase(A.SInt(bits))
    ensures Pow2(bits - 1) <= TT255
  {
    Pow2Increasing(bits - 1, 255);
    Pow2Of256();
  }

  lemma SignedWord(i: int)
    requires -TT255 <= i < TT255
    ensures i % TT256 == if i < 0 then i + TT256 else i
  {
  }

  /** A short byte string comes back with zeros behind it, everything else as it was. */
  lemma FilledLayout(t: A.Typ, v: A.Val)
    ensures match v
            case Str(s) =>
              var f := A.Filled(t, v);
              f.Str? && if t.base.FixedBytes? && |s| <= t.base.size then PaddedRight(f.s, s, t.base.size) else f.s == s
            case Arr(items) =>
              var f := A.Filled(t, v);
              f.Arr? && |f.items| == |items| && forall i :: 0 <= i < |items| ==> f.items[i] == A.Filled(t, items[i])
            case _ => A.Filled(t, v) == v
  {
    match v
    case Str(s) => if t.base.FixedBytes? && |s| <= t.base.size { PadMeans(s, t.base.size); }
    case Arr(items) =>
      forall i | 0 <= i < |items| ensures |A.FilledAll(t, items)| == |items| && A.FilledAll(t, items)[i] == A.Filled(t, items[i]) {
        FilledAt(t, items, i);
      }
      if items == [] { assert A.FilledAll(t, items) == []; }
    case _ =>
  }

  lemma {:induction false} FilledAt(t: A.Typ, items: seq<A.Val>, i: nat)
    requires i < |items|
    ensures |A.FilledAll(t, items)| == |items| && A.FilledAll(t, items)[i] == A.Filled(t, items[i])
    decreases |items|
  {
    hide A.Filled;
    if i > 0 {
      FilledAt(t, items[1..], i - 1);
    } else if |items| > 1 {
      FilledAt(t, items[1..], 0);
    }
  }

  // ---- the ABI: arrays and argument lists ----

  /** The encodings of the elements. */
  predicate Encodes(t: A.Typ, items: seq<A.Val>, es: seq<Bytes>)
    requires A.ValidBase(t.base)
  {
    |es| == |items| && forall i :: 0 <= i < |items| ==> A.Enc(t, items[i]) == Some(es[i])
  }

  /** A word for each part: where it starts when all of them stand one after the other behind n words. */
  predicate Offsets(head: Bytes, parts: seq<Bytes>, n: nat) {
    |head| == 32 * |parts| && forall i :: 0 <= i < |parts| ==> IsWord(head[32 * i..32 * i + 32], 32 * n + |Concat(parts[..i])|)
  }

  /** An open array starts with its length. Elements of a known size follow one after the other; other ones follow behind a word
      for each, which tells where it starts, counted from the first of these words. */
  lemma ArrayLayout(t: A.Typ, items: seq<A.Val>) returns (header: Bytes, offsets: Bytes, es: seq<Bytes>)
    requires A.ValidBase(t.base) && !A.Single(t) && A.Enc(t, A.Arr(items)).Some?
    ensures Encodes(A.Element(t), items, es)
    ensures if A.Outer(t).Dyn? then IsWord(header, |items|) else header == [] && |items| == A.Outer(t).n
    ensures if A.GetSize(A.Element(t)).Some? then offsets == [] else Offsets(offsets, es, |items|)
    ensures A.Enc(t, A.Arr(items)).value == header + offsets + Concat(es)
  {
    hide A.Enc, IsWord, Concat, Offsets;
    var u := A.Element(t);
    header := ArrayForm(t, items);
    if A.GetSize(u).Some? {
      offsets := [];
      es := ItemsLayout(u, items);
      assert header + [] == header;
    } else {
      es := OffsetsLayout(u, items, |items|);
      offsets := A.HeadAndTail(u, items, |items|).value.0;
      assert header + (offsets + Concat(es)) == header + offsets + Concat(es);
    }
  }

  lemma ArrayForm(t: A.Typ, items: seq<A.Val>) returns (header: Bytes)
    requires A.ValidBase(t.base) && !A.Single(t) && A.Enc(t, A.Arr(items)).Some?
    ensures if A.Outer(t).Dyn? then IsWord(header, |items|) else header == [] && |items| == A.Outer(t).n
    ensures var e, u := A.Enc(t, A.Arr(items)).value, A.Element(t);
            if A.GetSize(u).Some? then A.EncodeItems(u, items).Some? && e == header + A.EncodeItems(u, items).value
            else
              var ht := A.HeadAndTail(u, items, |items|);
              ht.Some? && e == header + (ht.value.0 + ht.value.1)
  {
    hide IsWord, A.EncodeItems, A.HeadAndTail, A.GetSize;
    header := A.Header(A.Outer(t), |items|).value;
    if A.Outer(t).Dyn? { WordMeans(|items|); }
  }

  lemma {:induction false} ConcatSnoc(parts: seq<Bytes>, x: Bytes)
    ensures Concat(parts + [x]) == Concat(parts) + x
  {
    if parts != [] {
      assert (parts + [x])[1..] == parts[1..] + [x];
      ConcatSnoc(parts[1..], x);
    } else {
      assert ([] + [x])[1..] == [];
    }
  }

  lemma {:induction false} ItemsLayout(t: A.Typ, items: seq<A.Val>) returns (es: seq<Bytes>)
    requires A.ValidBase(t.base) && A.EncodeItems(t, items).Some?
    ensures Encodes(t, items, es) && A.EncodeItems(t, items).value == Concat(es)
    decreases |items|
  {
    hide A.Enc, Concat;
    if items == [] {
      es := [];
      assert Concat([]) == [] by { ConcatNothing(); }
    } else {
      var k := |items| - 1;
      var init := ItemsLayout(t, items[..k]);
      var e := A.Enc(t, items[k]).value;
      es := init + [e];
      ConcatSnoc(init, e);
    }
  }

  lemma ConcatNothing()
    ensures Concat([]) == []
  {
  }

  lemma {:induction false} OffsetsLayout(t: A.Typ, items: seq<A.Val>, n: nat) returns (es: seq<Bytes>)
    requires A.ValidBase(t.base) && A.HeadAndTail(t, items, n).Some?
    ensures Encodes(t, items, es)
    ensures Offsets(A.HeadAndTail(t, items, n).value.0, es, n) && A.HeadAndTail(t, items, n).value.1 == Concat(es)
    decreases |items|
  {
    hide A.Enc, IsWord, A.HeadAndTail, EncodeInt32, Concat, Offsets;
    if items == [] {
      es := [];
      NoElements(t, n);
    } else {
      var k := |items| - 1;
      A.LastElement(t, items, n);
      var init := OffsetsLayout(t, items[..k], n);
      var rest, e := A.HeadAndTail(t, items[..k], n).value, A.Enc(t, items[k]).value;
      es := init + [e];
      ConcatSnoc(init, e);
      OneMore(rest.0, init, n, e);
    }
  }

  lemma NoElements(t: A.Typ, n: nat)
    requires A.ValidBase(t.base)
    ensures A.HeadAndTail(t, [], n) == Some(([], [])) && Offsets([], [], n) && Concat([]) == []
  {
  }

  lemma OneMore(head: Bytes, parts: seq<Bytes>, n: nat, e: Bytes)
    requires Offsets(head, parts, n) && 32 * n + |Concat(parts)| < TT256
    ensures Offsets(head + EncodeInt32(32 * n + |Concat(parts)|), parts + [e], n)
  {
    hide IsWord, Concat, EncodeInt32;
    var w := EncodeInt32(32 * n + |Concat(parts)|);
    WordMeans(32 * n + |Concat(parts)|);
    var more := parts + [e];
    forall i | 0 <= i < |more| ensures IsWord((head + w)[32 * i..32 * i + 32], 32 * n + |Concat(more[..i])|) {
      if i < |parts| {
        assert more[..i] == parts[..i];
        assert (head + w)[32 * i..32 * i + 32] == head[32 * i..32 * i + 32];
      } else {
        assert more[..i] == parts;
        assert (head + w)[32 * i..32 * i + 32] == w;
      }
    }
  }

  /** What stands in the tail for each argument: its encoding if it has no known size, and else nothing. */
  function Tails(ts: seq<A.Typ>, es: seq<Bytes>): (tails: seq<Bytes>)
    requires |ts| == |es|
    ensures |tails| == |ts| && forall i :: 0 <= i < |ts| ==> tails[i] == if A.GetSize(ts[i]).None? then es[i] else []
  {
    seq(|ts|, i requires 0 <= i < |ts| => if A.GetSize(ts[i]).None? then es[i] else [])
  }

  /** The head of an argument list has the encodings of known size, and for each other one a word which tells where in the data it
      starts; those others follow in their order. */
  lemma ArgumentLayout(ts: seq<A.Typ>, vs: seq<A.Val>) returns (heads: seq<Bytes>, es: seq<Bytes>)
    requires |ts| == |vs| && A.AllValid(ts) && A.EncodeAbi(ts, vs).Some?
    ensures |heads| == |es| == |ts| && forall i :: 0 <= i < |ts| ==> A.Enc(ts[i], vs[i]) == Some(es[i])
    ensures forall i :: 0 <= i < |ts| ==>
              if A.GetSize(ts[i]).Some? then heads[i] == es[i] && |es[i]| == A.GetSize(ts[i]).value
              else IsWord(heads[i], |Concat(heads)| + |Concat(Tails(ts, es)[..i])|)
    ensures A.EncodeAbi(ts, vs).value == Concat(heads) + Concat(Tails(ts, es))
  {
    hide A.Enc, A.EncodeArgs, A.Head, A.Tail, A.HeadLen, A.GetSize, IsWord, Concat, Tails;
    es := A.EncodeArgs(ts, vs, |ts|).value;
    forall i | 0 <= i < |ts|
      ensures A.Enc(ts[i], vs[i]) == Some(es[i]) && (A.GetSize(ts[i]).Some? ==> |es[i]| == A.GetSize(ts[i]).value) {
      A.EncodedArgs(ts, vs, |ts|, i);
    }
    heads := HeadsOf(ts, es, |ts|);
    TailsOf(ts, es, |ts|);
    A.HeadPrefix(ts, es, |ts|, |ts|);
    assert heads[..|ts|] == heads && Tails(ts, es)[..|ts|] == Tails(ts, es);
  }

  lemma {:induction false} TailsOf(ts: seq<A.Typ>, es: seq<Bytes>, k: nat)
    requires k <= |ts| == |es|
    ensures A.Tail(ts, es, k) == Concat(Tails(ts, es)[..k])
  {
    hide A.GetSize, Concat, Tails;
    var tails := Tails(ts, es);
    if k == 0 {
      ConcatNothing();
      assert tails[..0] == [];
    } else {
      TailsOf(ts, es, k - 1);
      ConcatSnoc(tails[..k - 1], tails[k - 1]);
      assert tails[..k] == tails[..k - 1] + [tails[k - 1]];
    }
  }

  lemma {:induction false} HeadsOf(ts: seq<A.Typ>, es: seq<Bytes>, k: nat) returns (heads: seq<Bytes>)
    requires k <= |ts| == |es| && A.Head(ts, es, k).Some? && A.Sized(ts, es)
    ensures |heads| == k && A.Head(ts, es, k).value == Concat(heads)
    ensures forall i :: 0 <= i < k ==>
              if A.GetSize(ts[i]).Some? then heads[i] == es[i]
              else IsWord(heads[i], A.HeadLen(ts, |ts|) + |Concat(Tails(ts, es)[..i])|)
  {
    hide A.GetSize, A.Tail, A.HeadLen, Concat, Tails, IsWord, EncodeInt32;
    if k == 0 {
      heads := [];
      ConcatNothing();
    } else {
      A.HeadGrows(ts, es, k - 1);
      var init := HeadsOf(ts, es, k - 1);
      TailsOf(ts, es, k - 1);
      var at := A.HeadLen(ts, |ts|) + |A.Tail(ts, es, k - 1)|;
      var h := if A.GetSize(ts[k - 1]).Some? then es[k - 1] else EncodeInt32(at);
      if A.GetSize(ts[k - 1]).None? { WordMeans(at); }
      heads := init + [h];
      ConcatSnoc(init, h);
    }
  }

  // ---- compression ----

  /** What the compressed form is made of: 0xfe 0x00 is a byte 0xfe, 0xfe 0x01 the hash of the empty string, 0xfe n a run of n
      zeros, and every other byte stands for itself. */
  lemma CompressionLayout(rest: Bytes, n: Byte)
    ensures var d := C.Decompress(rest);
            && C.Decompress([0xfe]) == None
            && (d.None? ==> C.Decompress([0xfe, n] + rest).None? && (n != 0xfe ==> C.Decompress([n] + rest).None?))
            && (d.Some? ==>
                  && C.Decompress([0xfe, 0x00] + rest) == Some([0xfe] + d.value)
                  && (exists h: Bytes ::
                        IsWord(h, 0xc5d2460186f7233c927e7db2dcc703c0e500b653ca82273b7bfad8045d85a470)
                        && C.Decompress([0xfe, 0x01] + rest) == Some(h + d.value))
                  && (n >= 2 ==> exists z: Bytes :: PaddedRight(z, [], n) && C.Decompress([0xfe, n] + rest) == Some(z + d.value))
                  && (n != 0xfe ==> C.Decompress([n] + rest) == Some([n] + d.value)))
  {
    hide C.Decompress, C.NullSha3, IsWord;
    C.EscapeBack(0, rest);
    C.EscapeBack(1, rest);
    C.EscapeBack(n, rest);
    if n != 0xfe { C.ByteBack(n, rest); }
    TrailingEscape();
    NullHash();
    assert PaddedRight(Zeros(n), [], n);
  }

  lemma NullHash()
    ensures IsWord(C.NullSha3(), 0xc5d2460186f7233c927e7db2dcc703c0e500b653ca82273b7bfad8045d85a470)
  {
    WordMeans(0xc5d2460186f7233c927e7db2dcc703c0e500b653ca82273b7bfad8045d85a470);
  }

  lemma TrailingEscape()
    ensures C.Decompress([0xfe]) == None
  {
  }

  /** The hash of the empty string is written as two bytes. */
  lemma HashLaw(h: Bytes, rest: Bytes, keepsZero: bool)
    requires IsWord(h, 0xc5d2460186f7233c927e7db2dcc703c0e500b653ca82273b7bfad8045d85a470)
    ensures C.Compress(h + rest, keepsZero) == [0xfe, 0x01] + C.Compress(rest, keepsZero)
  {
    NullHash();
    assert h == C.NullSha3();
    TopByte();
    hide C.NullSha3, ByteOf;
    assert Slice(h + rest, 0, 32) == h && (h + rest)[32..] == rest;
  }

  /** A run of two to 255 zeros is written as two bytes where a zero byte is written as itself. */
  lemma ZeroRunLaw(n: nat, rest: Bytes)
    requires 2 <= n <= 255 && (n == 255 || rest == [] || rest[0] != 0)
    ensures C.Compress(Zeros(n) + rest, true) == [0xfe, n] + C.Compress(rest, true)
  {
    hide C.NullSha3;
    var data := Zeros(n) + rest;
    NotTheHash(data);
    assert Slice(data, 0, 2) == [0, 0];
    RunLength(n, rest, 2);
    assert data[n..] == rest;
  }

  lemma NotTheHash(data: Bytes)
    requires data != [] && data[0] == 0
    ensures Slice(data, 0, 32) != C.NullSha3()
  {
    NullHash();
    assert ByteOf(0xc5d2460186f7233c927e7db2dcc703c0e500b653ca82273b7bfad8045d85a470, 0) == 0xc5 by { TopByte(); }
  }

  lemma TopByte()
    ensures ByteOf(0xc5d2460186f7233c927e7db2dcc703c0e500b653ca82273b7bfad8045d85a470, 0) == 0xc5
  {
    hide Pow256;
    Pow256Of31();
    var v: nat, p: nat := 0xc5d2460186f7233c927e7db2dcc703c0e500b653ca82273b7bfad8045d85a470, Pow256(31 - 0);
    DivModUnique(v, p, 0xc5, v - p * 0xc5);
  }

  lemma Pow256Of31()
    ensures Pow256(31) == TT256 / 256
  {
    Pow256Of32();
    assert Pow256(32) == 256 * Pow256(31);
  }

  lemma {:induction false} RunLength(n: nat, rest: Bytes, p: nat)
    requires 2 <= p <= n <= 255 && (n == 255 || rest == [] || rest[0] != 0)
    ensures C.ZeroRun(Zeros(n) + rest, p, true) == n
    decreases n - p
  {
    if p < n { RunLength(n, rest, p + 1); }
  }
}
