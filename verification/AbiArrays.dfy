/** Which ABI values come back: arrays whose elements are of unknown size themselves. */
module AbiArrays {
  import opened ByteStrings
  import opened BigEndian
  import opened Words
  import opened Abi

  /** A fixed array of dynamic elements never comes back: its first offset is read as its length. */
  lemma FixedNeverBack(t: Typ, v: Val)
    requires ValidBase(t.base) && !Single(t) && Outer(t).Fixed? && GetSize(Element(t)).None? && Enc(t, v).Some?
    ensures v.Arr? && match Dec(t, Enc(t, v).value) case None => true case Some(w) => w.Arr? && |w.items| == 32 * |v.items| > 0
  {
    var e := Enc(t, v).value;
    if v.items == [] {
      assert HeadAndTail(Element(t), [], 0) == Some(([], []));
      assert e == [];
    } else {
      OffsetsLen(Element(t), v.items, |v.items|);
      var ht := HeadAndTail(Element(t), v.items, |v.items|).value;
      assert e == ht.0 + ht.1;
      assert Slice(e, 0, 32) == EncodeInt32(32 * |v.items|);
      WordRoundTrip(32 * |v.items|);
    }
    EachLen(Element(t), e, BigEndianToInt(Slice(e, 0, 32)), BigEndianToInt(Slice(e, 0, 32)));
  }

  lemma {:induction false} EachLen(t: Typ, arg: Bytes, count: nat, k: nat)
    requires ValidBase(t.base)
    ensures DecodeEach(t, arg, count, k).Some? ==> |DecodeEach(t, arg, count, k).value| == k
  {
    if k > 0 { EachLen(t, arg, count, k - 1); }
  }

  lemma {:induction false} ItemsLen(t: Typ, arg: Bytes, start: nat, size: nat, count: nat)
    requires ValidBase(t.base)
    ensures DecodeItems(t, arg, start, size, count).Some? ==> |DecodeItems(t, arg, start, size, count).value| == count
  {
    hide Dec, Slice;
    if count > 0 { ItemsLen(t, arg, start, size, count - 1); }
  }

  /** What was read as one of the elements. */
  lemma {:induction false} EachAt(t: Typ, arg: Bytes, count: nat, i: nat, k: nat)
    requires ValidBase(t.base) && i < k && DecodeEach(t, arg, count, k).Some?
    ensures |DecodeEach(t, arg, count, k).value| == k
    ensures Dec(t, Slice(arg, ElementStart(arg, count, i), ElementStart(arg, count, i + 1))) == Some(DecodeEach(t, arg, count, k).value[i])
  {
    hide Dec, Slice, ElementStart;
    EachLen(t, arg, count, k - 1);
    if i < k - 1 { EachAt(t, arg, count, i, k - 1); }
  }

  lemma SliceAt(a: Bytes, b: Bytes, c: Bytes, all: Bytes)
    requires all == a + b + c || all == a + (b + c)
    ensures Slice(all, |a|, |a| + |b|) == b
  {
  }

  lemma Rest(a: Bytes, b: Bytes, all: Bytes)
    requires all == a + b
    ensures Slice(all, |a|, |all|) == b
  {
  }

  lemma NoOffsets(t: Typ, items: seq<Val>, n: nat)
    requires ValidBase(t.base) && items == []
    ensures HeadAndTail(t, items, n) == Some(([], []))
  {
  }

  /** Offsets grow with the elements. */
  lemma OffsetsGrow(t: Typ, items: seq<Val>, n: nat, i: nat, j: nat)
    requires ValidBase(t.base) && i <= j <= |items| && HeadAndTail(t, items, n).Some?
    ensures HeadAndTail(t, items[..i], n).Some? && HeadAndTail(t, items[..j], n).Some?
    ensures |HeadAndTail(t, items[..i], n).value.1| <= |HeadAndTail(t, items[..j], n).value.1|
  {
    hide EncodeInt32, HeadAndTail, Enc;
    assert items[..|items|] == items;
    if j < |items| { OffsetAt(t, items, n, j); }
    if i < j {
      OffsetAt(t, items[..j], n, i);
      assert items[..j][..i] == items[..i];
    }
  }

  /** The encoding of one element lies between its offset and the next. */
  lemma OffsetStep(t: Typ, items: seq<Val>, n: nat, i: nat)
    requires ValidBase(t.base) && i < |items| && HeadAndTail(t, items, n).Some?
    ensures HeadAndTail(t, items[..i], n).Some? && HeadAndTail(t, items[..i + 1], n).Some? && Enc(t, items[i]).Some?
    ensures |HeadAndTail(t, items[..i + 1], n).value.1| == |HeadAndTail(t, items[..i], n).value.1| + |Enc(t, items[i]).value|
  {
    hide EncodeInt32, HeadAndTail, Enc;
    OffsetsGrow(t, items, n, i, i + 1);
    LastElement(t, items[..i + 1], n);
    assert items[..i + 1][..i] == items[..i];
  }

  // ---- two elements or more ----

  /** The innermost open dimension is one of elements that take some bytes. */
  predicate Solid(t: Typ)
    decreases |t.dims|
  {
    t.dims == [] ||
    (match GetSize(Element(t))
     case None => Solid(Element(t))
     case Some(size) => Outer(t).Dyn? ==> size > 0)
  }

  /** What does not start with its own length is read as something else. */
  lemma WrongCount(u: Typ, data: Bytes, v: Val, l: nat)
    requires ValidBase(u.base) && !Single(u) && GetSize(u).None? && Solid(u) && Enc(u, v).Some?
    requires |Enc(u, v).value| <= l < TT256 && |data| <= l
    requires |data| >= 32 ==> Slice(data, 0, 32) == EncodeInt32(l)
    requires GetSize(Element(u)).Some? ==> |data| >= 32
    ensures Dec(u, data) != Some(v)
  {
    hide EncodeInt32, DecodeEach, DecodeItems, HeadAndTail;
    if |data| >= 32 { WordRoundTrip(l); }
    if GetSize(Element(u)).Some? {
      var size := GetSize(Element(u)).value;
      ItemsSize(Element(u), v.items);
      ItemsLen(Element(u), data, 32, size, l);
      Times(|v.items|, size);
    }
  }

  lemma Times(n: nat, size: nat)
    requires size > 0
    ensures n * size >= n
  {
  }

  /** Where the pieces of an open array with dynamic elements lie. */
  lemma ArrayParts(t: Typ, items: seq<Val>) returns (head: Bytes, tail: Bytes)
    requires ValidBase(t.base) && !Single(t) && Outer(t).Dyn? && GetSize(Element(t)).None? && Enc(t, Arr(items)).Some?
    ensures |items| < TT256 && HeadAndTail(Element(t), items, |items|) == Some((head, tail)) && |head| == 32 * |items|
    ensures Enc(t, Arr(items)).value == EncodeInt32(|items|) + (head + tail)
    ensures BigEndianToInt(Slice(Enc(t, Arr(items)).value, 0, 32)) == |items|
    ensures var d := DecodeEach(Element(t), Enc(t, Arr(items)).value, |items|, |items|);
            Dec(t, Enc(t, Arr(items)).value) == if d.Some? then Some(Arr(d.value)) else None
  {
    hide EncodeInt32, HeadAndTail, DecodeEach, Slice;
    var ht := HeadAndTail(Element(t), items, |items|).value;
    head, tail := ht.0, ht.1;
    OffsetsLen(Element(t), items, |items|);
    WordRoundTrip(|items|);
    SliceAt([], EncodeInt32(|items|), head + tail, Enc(t, Arr(items)).value);
  }

  /** An offset as the decoder finds it. */
  lemma StartWord(u: Typ, items: seq<Val>, n: nat, pre: Bytes, head: Bytes, tail: Bytes, i: nat)
    requires ValidBase(u.base) && i < |items| && HeadAndTail(u, items, n) == Some((head, tail))
    ensures HeadAndTail(u, items[..i], n).Some? && 32 * n + |HeadAndTail(u, items[..i], n).value.1| < TT256
    ensures var word := Slice(pre + (head + tail), |pre| + 32 * i, |pre| + 32 * i + 32);
            && word == EncodeInt32(32 * n + |HeadAndTail(u, items[..i], n).value.1|)
            && BigEndianToInt(word) == 32 * n + |HeadAndTail(u, items[..i], n).value.1|
  {
    hide EncodeInt32, HeadAndTail;
    OffsetsLen(u, items, n);
    OffsetAt(u, items, n, i);
    WordRoundTrip(32 * n + |HeadAndTail(u, items[..i], n).value.1|);
    assert Slice(pre + (head + tail), |pre| + 32 * i, |pre| + 32 * i + 32) == Slice(head, 32 * i, 32 * i + 32);
  }

  /** An open array of two or more never comes back: the first slice begins with the last offset, which is more than its
      length. */
  lemma ManyNeverBack(t: Typ, items: seq<Val>)
    requires ValidBase(t.base) && !Single(t) && Outer(t).Dyn? && GetSize(Element(t)).None? && Solid(t)
    requires |items| > 1 && Enc(t, Arr(items)).Some?
    ensures Dec(t, Enc(t, Arr(items)).value) != Some(Arr(items))
  {
    hide EncodeInt32, HeadAndTail, DecodeEach, Slice, Enc, Dec;
    var u, n, e := Element(t), |items|, Enc(t, Arr(items)).value;
    var head, tail := ArrayParts(t, items);
    var pre := EncodeInt32(n);
    StartWord(u, items, n, pre, head, tail, 0);
    StartWord(u, items, n, pre, head, tail, 1);
    StartWord(u, items, n, pre, head, tail, n - 1);
    NoOffsets(u, items[..0], n);
    OffsetStep(u, items, n, 0);
    OffsetsGrow(u, items, n, 1, n - 1);
    OffsetAt(u, items, n, 1);
    var len, l := |Enc(u, items[0]).value|, 32 * n + |HeadAndTail(u, items[..n - 1], n).value.1|;
    var data := Slice(e, 32 * n, 32 * n + len);
    FirstWord(e, 32 * n, len, EncodeInt32(l));
    LongEnough(u, items[0]);
    WrongCount(u, data, items[0], l);
    if DecodeEach(u, e, n, n).Some? { EachAt(u, e, n, 0, n); }
  }

  lemma FirstWord(e: Bytes, start: nat, len: nat, word: Bytes)
    requires start + len <= |e| && start + 32 <= |e| && Slice(e, start, start + 32) == word
    ensures |Slice(e, start, start + len)| == len
    ensures len >= 32 ==> Slice(Slice(e, start, start + len), 0, 32) == word
  {
  }

  lemma LongEnough(u: Typ, v: Val)
    requires ValidBase(u.base) && !Single(u) && GetSize(u).None? && Enc(u, v).Some?
    ensures GetSize(Element(u)).Some? ==> |Enc(u, v).value| >= 32
  {
    hide EncodeInt32, HeadAndTail, EncodeItems;
  }

  // ---- one element ----

  lemma NoElements(t: Typ, arg: Bytes, count: nat)
    requires ValidBase(t.base)
    ensures DecodeEach(t, arg, count, 0) == Some([])
    ensures DecodeEach(t, arg, 1, 1)
         == var v := Dec(t, Slice(arg, ElementStart(arg, 1, 0), |arg|)); if v.Some? then Some([v.value]) else None
  {
    hide Dec, Slice;
    var v := Dec(t, Slice(arg, ElementStart(arg, 1, 0), |arg|));
    assert DecodeEach(t, arg, 1, 0) == Some([]);
    if v.Some? { assert [] + [v.value] == [v.value]; }
  }

  /** The bytes of a one-element open array and of what is read back as its element. */
  lemma OneElement(t: Typ, v: Val)
    requires ValidBase(t.base) && !Single(t) && Outer(t).Dyn? && GetSize(Element(t)).None? && Enc(t, Arr([v])).Some?
    ensures Enc(Element(t), v).Some?
    ensures Dec(t, Enc(t, Arr([v])).value)
         == var w := Dec(Element(t), EncodeInt32(32) + Enc(Element(t), v).value); if w.Some? then Some(Arr([w.value])) else None
  {
    hide EncodeInt32, EncodeSingle, DecodeSingle, HeadAndTail, Slice, DecodeEach, EncodeItems, DecodeItems;
    var u, e, items := Element(t), Enc(t, Arr([v])).value, [v];
    LastElement(u, items, 1);
    NoOffsets(u, items[..0], 1);
    var ht := HeadAndTail(u, items, 1).value;
    assert ht.0 == [] + EncodeInt32(32) == EncodeInt32(32) && ht.1 == [] + Enc(u, v).value == Enc(u, v).value;
    assert e == EncodeInt32(1) + (ht.0 + ht.1);
    WordRoundTrip(1);
    WordRoundTrip(32);
    assert Slice(e, 0, 32) == EncodeInt32(1) by { SliceAt([], EncodeInt32(1), ht.0 + ht.1, e); }
    assert Slice(e, 32, 64) == ht.0 by { SliceAt(EncodeInt32(1), ht.0, ht.1, e); }
    assert Slice(e, 32, |e|) == ht.0 + ht.1 by { Rest(EncodeInt32(1), ht.0 + ht.1, e); }
    NoElements(u, e, 1);
  }

  /** The same array with an open outer dimension. */
  function Opened(t: Typ): Typ
    requires t.dims != []
  {
    Typ(t.base, Element(t).dims + [Dyn])
  }

  lemma OpenedParts(u: Typ, items: seq<Val>)
    requires ValidBase(u.base) && !Single(u) && Outer(u).Fixed? && GetSize(Element(u)).None? && Enc(u, Arr(items)).Some?
    ensures !Single(Opened(u)) && Outer(Opened(u)).Dyn? && Element(Opened(u)) == Element(u)
    ensures |items| == 32 ==> Enc(Opened(u), Arr(items)) == Some(EncodeInt32(32) + Enc(u, Arr(items)).value)
    ensures forall data :: Dec(Opened(u), data) == Dec(u, data)
    ensures Solid(u) ==> Solid(Opened(u))
  {
    hide EncodeInt32, DecodeEach, HeadAndTail, Slice;
    assert Opened(u).dims[..|u.dims| - 1] == Element(u).dims;
    if |items| == 32 {
      var body := EncodeBody(Element(u), items).value;
      assert [] + body == body;
    }
  }

  lemma OpenedLen(u: Typ, data: Bytes)
    requires ValidBase(u.base) && !Single(u) && GetSize(Element(u)).None? && |data| >= 32 && Slice(data, 0, 32) == EncodeInt32(32)
    ensures match Dec(u, data) case None => true case Some(w) => w.Arr? && |w.items| == 32
  {
    hide EncodeInt32, Slice;
    WordRoundTrip(32);
    EachLen(Element(u), data, 32, 32);
  }

  /** An element that holds dynamic elements itself is read with 32 of them, and these begin in the wrong places. */
  lemma OneNeverBack(t: Typ, v: Val)
    requires ValidBase(t.base) && !Single(t) && Outer(t).Dyn? && GetSize(Element(t)).None? && Solid(t)
    requires GetSize(Element(Element(t))).None? && Enc(t, Arr([v])).Some?
    ensures Dec(t, Enc(t, Arr([v])).value) != Some(Arr([v]))
  {
    hide EncodeInt32, DecodeEach, HeadAndTail, Slice, Enc, Dec;
    var u := Element(t);
    OneElement(t, v);
    OnlyArrays(u, v);
    var data := EncodeInt32(32) + Enc(u, v).value;
    assert Slice(data, 0, 32) == EncodeInt32(32) by { SliceAt([], EncodeInt32(32), Enc(u, v).value, data); }
    OpenedLen(u, data);
    if |v.items| == 32 {
      if Outer(u).Fixed? {
        OpenedParts(u, v.items);
        ManyNeverBack(Opened(u), v.items);
      } else {
        SecondElement(u, v.items, data);
      }
    }
  }

  lemma OnlyArrays(t: Typ, v: Val)
    requires ValidBase(t.base) && !Single(t) && Enc(t, v).Some?
    ensures v.Arr?
  {
  }

  lemma SecondElement(u: Typ, items: seq<Val>, data: Bytes)
    requires ValidBase(u.base) && !Single(u) && Outer(u).Dyn? && GetSize(Element(u)).None? && Solid(u)
    requires |items| == 32 && Enc(u, Arr(items)).Some? && data == EncodeInt32(32) + Enc(u, Arr(items)).value
    ensures Dec(u, data) != Some(Arr(items))
  {
    hide EncodeInt32, HeadAndTail, DecodeEach, Slice, Enc;
    var w := Element(u);
    var head, tail := ArrayParts(u, items);
    var pre := EncodeInt32(32) + EncodeInt32(32);
    assert data == pre + (head + tail);
    StartWord(w, items, 32, pre, head, tail, 0);
    StartWord(w, items, 32, pre, head, tail, 1);
    StartWord(w, items, 32, pre, head, tail, 30);
    NoOffsets(w, items[..0], 32);
    OffsetStep(w, items, 32, 0);
    OffsetStep(w, items, 32, 1);
    OffsetsGrow(w, items, 32, 2, 30);
    OffsetsGrow(w, items, 32, 30, 32);
    assert items[..32] == items;
    var len, l := |Enc(w, items[0]).value|, 32 * 32 + |HeadAndTail(w, items[..30], 32).value.1|;
    FirstWord(data, 1024, len, EncodeInt32(l));
    LongEnough(w, items[0]);
    WrongCount(w, Slice(data, 1024, 1024 + len), items[1], l);
    WordRoundTrip(32);
    assert Slice(data, 0, 32) == EncodeInt32(32) by { SliceAt([], EncodeInt32(32), EncodeInt32(32) + (head + tail), data); }
    if DecodeEach(w, data, 32, 32).Some? { EachAt(w, data, 32, 1, 32); }
  }

  /** An open array of one open array comes back with 32 elements in the inner one, if at all: its offset is read as their
      number. */
  lemma InnerArrayBack(t: Typ, inner: seq<Val>)
    requires ValidBase(t.base) && !t.base.DynBytes? && |t.dims| > 1 && Outer(t).Dyn? && Outer(Element(t)).Dyn? && GetSize(Element(Element(t))).Some?
    requires Enc(t, Arr([Arr(inner)])).Some?
    ensures match Dec(t, Enc(t, Arr([Arr(inner)])).value)
            case None => true
            case Some(w) => w.Arr? && |w.items| == 1 && w.items[0].Arr? && |w.items[0].items| == 32
  {
    hide EncodeInt32, Enc, DecodeItems, Slice;
    var u := Element(t);
    OneElement(t, Arr(inner));
    var data := EncodeInt32(32) + Enc(u, Arr(inner)).value;
    WordRoundTrip(32);
    assert Slice(data, 0, 32) == EncodeInt32(32) by { SliceAt([], EncodeInt32(32), Enc(u, Arr(inner)).value, data); }
    ItemsLen(Element(u), data, 32, GetSize(Element(u)).value, 32);
  }

  // ---- arrays read one word too early ----

  /** What the word 32 decodes to. */
  function StarOf(b: Base): Val
    requires ValidBase(b) && !b.DynBytes?
  {
    DecodeSingle(b, EncodeInt32(32)).value
  }

  /** The value all of whose parts are that. */
  function Star(t: Typ): Val
    requires ValidBase(t.base) && !t.base.DynBytes? && GetSize(t).Some?
    decreases |t.dims|
  {
    if t.dims == [] then StarOf(t.base) else Arr(seq(Outer(t).n, i => Star(Element(t))))
  }

  predicate AllStar(t: Typ, items: seq<Val>)
    requires ValidBase(t.base) && !t.base.DynBytes? && GetSize(t).Some?
  {
    forall i :: 0 <= i < |items| ==> items[i] == Star(t)
  }

  /** A word that decodes to it. */
  predicate StarWord(b: Base, word: Bytes)
    requires ValidBase(b) && !b.DynBytes?
  {
    |word| == 32 && DecodeSingle(b, word) == Some(StarOf(b))
  }

  function LastWord(x: Bytes): Bytes
    requires |x| >= 32
  {
    x[|x| - 32..]
  }

  /** The bytes of x one word further down. */
  function Shifted(word: Bytes, x: Bytes): Bytes {
    (word + x)[..|x|]
  }

  lemma StarEncodes(b: Base)
    requires ValidBase(b) && !b.DynBytes?
    ensures EncodeSingle(b, StarOf(b)).Some? ==> StarWord(b, EncodeSingle(b, StarOf(b)).value)
    ensures StarWord(b, EncodeInt32(32))
  {
    hide EncodeInt32;
    if EncodeSingle(b, StarOf(b)).Some? {
      SingleRoundTrip(b, StarOf(b));
      StarFull(b);
    }
  }

  lemma StarFull(b: Base)
    requires ValidBase(b) && !b.DynBytes?
    ensures Filled(Typ(b, []), StarOf(b)) == StarOf(b)
  {
    hide EncodeInt32;
    FilledFull(Typ(b, []), StarOf(b));
  }

  /** A value of known size, read one word too early behind a word that decodes to the star, is itself exactly if it is the
      star; and then it ends with such a word again. */
  lemma {:induction false} ValueShift(t: Typ, word: Bytes, v: Val)
    requires ValidBase(t.base) && !t.base.DynBytes? && GetSize(t).Some? && Enc(t, v).Some? && StarWord(t.base, word)
    ensures Dec(t, Shifted(word, Enc(t, v).value)) == Some(v) <==> v == Star(t)
    ensures v == Star(t) ==> StarWord(t.base, LastWord(word + Enc(t, v).value))
    decreases |t.dims|, 0, 0
  {
    hide StarOf;
    if t.dims == [] {
      SingleRoundTrip(t.base, v);
      StarEncodes(t.base);
      assert Shifted(word, Enc(t, v).value) == word;
      assert LastWord(word + Enc(t, v).value) == Enc(t, v).value;
    } else {
      var u, x := Element(t), EncodeItems(Element(t), v.items).value;
      assert Enc(t, v).value == [] + x == x;
      ItemsShift(u, word, v.items, [], []);
      assert [] + Shifted(word, x) + [] == Shifted(word, x);
      StarItems(t, v.items);
    }
  }

  lemma StarItems(t: Typ, items: seq<Val>)
    requires ValidBase(t.base) && !t.base.DynBytes? && GetSize(t).Some? && t.dims != [] && |items| == Outer(t).n
    ensures Arr(items) == Star(t) <==> AllStar(Element(t), items)
  {
    var all := seq(Outer(t).n, i => Star(Element(t)));
    assert items == all <==> AllStar(Element(t), items);
  }

  lemma {:induction false} ItemsShift(u: Typ, word: Bytes, items: seq<Val>, pre: Bytes, post: Bytes)
    requires ValidBase(u.base) && !u.base.DynBytes? && GetSize(u).Some? && EncodeItems(u, items).Some? && StarWord(u.base, word)
    ensures var x := EncodeItems(u, items).value;
            && (DecodeItems(u, pre + Shifted(word, x) + post, |pre|, GetSize(u).value, |items|) == Some(items) <==> AllStar(u, items))
            && (AllStar(u, items) ==> StarWord(u.base, LastWord(word + x)))
    decreases |u.dims|, 1, |items|
  {
    hide StarWord, Enc, Dec, GetSize, Star;
    var x := EncodeItems(u, items).value;
    WordLen(u.base, word);
    if items == [] {
      assert LastWord(word + x) == word;
    } else {
      var n := |items| - 1;
      var init, v := items[..n], items[n];
      var x0, r := EncodeItems(u, init).value, Enc(u, v).value;
      ItemsSize(u, init);
      EncodedSize(u, v);
      var q := LastWord(word + x0);
      var a, b := Shifted(word, x0), Shifted(q, r);
      ShiftedSplit(word, x0, r);
      var all := pre + Shifted(word, x) + post;
      assert all == pre + a + (b + post);
      ItemsShift(u, word, init, pre, b + post);
      MiddleSlice(pre + a, b, post);
      assert all == (pre + a) + b + post;
      assert GetSize(u).value * n == n * GetSize(u).value;
      ItemsLen(u, all, |pre|, GetSize(u).value, n);
      assert items == init + [v];
      assert AllStar(u, items) <==> AllStar(u, init) && v == Star(u);
      if AllStar(u, init) { ValueShift(u, q, v); }
      SnocDecoded(u, all, |pre|, GetSize(u).value, n, init, v);
    }
  }

  lemma WordLen(b: Base, word: Bytes)
    requires ValidBase(b) && !b.DynBytes? && StarWord(b, word)
    ensures |word| == 32
  {
  }

  lemma SnocDecoded(u: Typ, all: Bytes, start: nat, size: nat, n: nat, init: seq<Val>, v: Val)
    requires ValidBase(u.base) && |init| == n
    ensures DecodeItems(u, all, start, size, n + 1) == Some(init + [v]) <==>
      DecodeItems(u, all, start, size, n) == Some(init) && Dec(u, Slice(all, start + size * n, start + size * n + size)) == Some(v)
  {
    hide Dec, Slice;
    var first := DecodeItems(u, all, start, size, n);
    ItemsLen(u, all, start, size, n);
    var last := Dec(u, Slice(all, start + size * n, start + size * n + size));
    if first.Some? && last.Some? && first.value + [last.value] == init + [v] {
      assert (first.value + [last.value])[..n] == first.value && (init + [v])[..n] == init;
      assert (first.value + [last.value])[n] == last.value && (init + [v])[n] == v;
    }
  }

  lemma ShiftedSplit(word: Bytes, x: Bytes, r: Bytes)
    requires |word| == 32
    ensures Shifted(word, x + r) == Shifted(word, x) + Shifted(LastWord(word + x), r)
    ensures LastWord(word + (x + r)) == LastWord(LastWord(word + x) + r)
  {
    assert word + (x + r) == Shifted(word, x) + (LastWord(word + x) + r);
  }

  /** One open array of elements of known size comes back exactly if it has 32 of them, each all of whose parts are what the word
      32 decodes to. */
  lemma NestedBack(t: Typ, inner: seq<Val>)
    requires ValidBase(t.base) && !t.base.DynBytes? && |t.dims| > 1 && Outer(t).Dyn? && Outer(Element(t)).Dyn?
    requires GetSize(Element(Element(t))).Some? && Enc(t, Arr([Arr(inner)])).Some?
    ensures Dec(t, Enc(t, Arr([Arr(inner)])).value) == Some(Arr([Arr(inner)]))
       <==> |inner| == 32 && AllStar(Element(Element(t)), inner)
  {
    hide EncodeInt32, DecodeItems, Slice, Enc, EncodeItems, StarWord, AllStar;
    var u, base := Element(t), Element(Element(t));
    OneElement(t, Arr(inner));
    InnerArrayBack(t, inner);
    var data := EncodeInt32(32) + Enc(u, Arr(inner)).value;
    WordRoundTrip(32);
    assert Slice(data, 0, 32) == EncodeInt32(32) by { SliceAt([], EncodeInt32(32), Enc(u, Arr(inner)).value, data); }
    if |inner| == 32 {
      InnerParts(u, inner);
      var x := EncodeItems(base, inner).value;
      var word := EncodeInt32(32);
      StarEncodes(base.base);
      ItemsShift(base, word, inner, word, LastWord(word + x));
      assert data == word + Shifted(word, x) + LastWord(word + x);
    }
  }

  lemma {:induction false} AllEncode(t: Typ, items: seq<Val>)
    requires ValidBase(t.base) && forall i :: 0 <= i < |items| ==> Enc(t, items[i]).Some?
    ensures EncodeItems(t, items).Some?
    decreases |items|
  {
    hide Enc;
    if items != [] { AllEncode(t, items[..|items| - 1]); }
  }

  function Repeated(n: nat): (items: seq<Val>)
    ensures |items| == n && forall i :: 0 <= i < n ==> items[i] == Num(32)
  {
    seq(n, i => Num(32))
  }

  /** Such a value: the list of 32 times the number 32, in a list. */
  lemma RepeatedBack()
    ensures var t, v := Typ(UInt(256), [Dyn, Dyn]), Arr([Arr(Repeated(32))]);
            Enc(t, v).Some? && Dec(t, Enc(t, v).value) == Some(v)
  {
    hide EncodeInt32, DecodeItems, Slice, EncodeItems, Dec, HeadAndTail;
    var t, b, inner := Typ(UInt(256), [Dyn, Dyn]), Typ(UInt(256), []), Repeated(32);
    assert Element(t) == Typ(UInt(256), [Dyn]) && Element(Element(t)) == b && GetSize(Element(t)).None?;
    Pow2Of256();
    WordRoundTrip(32);
    assert Star(b) == Num(32);
    AllEncode(b, inner);
    OneEncodes(t, Arr(inner));
    NestedBack(t, inner);
  }

  lemma OneEncodes(t: Typ, v: Val)
    requires ValidBase(t.base) && !Single(t) && Outer(t).Dyn? && GetSize(Element(t)).None? && Enc(Element(t), v).Some?
    ensures Enc(t, Arr([v])).Some?
  {
    hide EncodeInt32, EncodeSingle, EncodeItems;
    NoOffsets(Element(t), [v][..0], 1);
    assert [v][..0] == [] && HeadAndTail(Element(t), [v], 1).Some?;
  }

  lemma InnerParts(u: Typ, inner: seq<Val>)
    requires ValidBase(u.base) && !Single(u) && Outer(u).Dyn? && GetSize(Element(u)).Some? && Enc(u, Arr(inner)).Some?
    ensures EncodeItems(Element(u), inner).Some? && |inner| < TT256
    ensures Enc(u, Arr(inner)).value == EncodeInt32(|inner|) + EncodeItems(Element(u), inner).value
  {
    hide EncodeInt32, EncodeItems;
  }

  lemma EmptyBack(t: Typ)
    requires ValidBase(t.base) && !Single(t) && Outer(t).Dyn? && GetSize(Element(t)).None? && Enc(t, Arr([])).Some?
    ensures Dec(t, Enc(t, Arr([])).value) == Some(Arr([]))
  {
    hide EncodeInt32, HeadAndTail, Slice;
    var head, tail := ArrayParts(t, []);
  }

  // ---- the condition ----

  /** Without dynamic elements every fixed-size byte string has its full size; with them the array is open, and empty or the
      nested one above. */
  predicate ComesBack(t: Typ, v: Val)
    requires ValidBase(t.base)
  {
    if Flat(t) then FullSize(t, v)
    else
      && Outer(t).Dyn?
      && (v == Arr([])
          || (|t.dims| > 1 && GetSize(Element(Element(t))).Some? && v.Arr? && |v.items| == 1 && v.items[0].Arr?
              && |v.items[0].items| == 32 && AllStar(Element(Element(t)), v.items[0].items)))
  }

  lemma SizedElements(t: Typ)
    requires ValidBase(t.base) && t.dims != [] && GetSize(Element(t)).Some?
    ensures Flat(t)
  {
    SizedIsFlat(Element(t));
    assert forall i :: 0 <= i < |t.dims| - 1 ==> t.dims[i] == Element(t).dims[i];
  }

  lemma NotFlat(t: Typ)
    requires ValidBase(t.base) && !Flat(t)
    ensures !Single(t) && |t.dims| > 1 && GetSize(Element(t)).None?
    ensures GetSize(Element(Element(t))).Some? ==> Outer(Element(t)).Dyn?
  {
    if GetSize(Element(t)).Some? { SizedElements(t); }
  }

  /** A value comes back exactly under the condition, in types whose innermost open array has elements of some size. */
  lemma ReturnedIff(t: Typ, v: Val)
    requires ValidBase(t.base) && Enc(t, v).Some? && (Flat(t) || Solid(t))
    ensures Returned(t, v) == Some(v) <==> ComesBack(t, v)
  {
    hide Enc, Dec, Filled, FullSize, AllStar;
    if Flat(t) {
      ValueRoundTrip(t, v);
      FilledFull(t, v);
    } else {
      NotFlat(t);
      OnlyArrays(t, v);
      if Outer(t).Fixed? {
        FixedNeverBack(t, v);
      } else if v.items == [] {
        EmptyBack(t);
      } else if |v.items| > 1 {
        ManyNeverBack(t, v.items);
      } else {
        assert v == Arr([v.items[0]]);
        SingleBack(t, v.items[0]);
      }
    }
  }

  lemma SingleBack(t: Typ, v: Val)
    requires ValidBase(t.base) && !Flat(t) && Outer(t).Dyn? && Solid(t) && Enc(t, Arr([v])).Some?
    ensures Returned(t, Arr([v])) == Some(Arr([v])) <==> ComesBack(t, Arr([v]))
  {
    hide Enc, Dec, AllStar, Flat;
    NotFlat(t);
    if GetSize(Element(Element(t))).None? {
      OneNeverBack(t, v);
    } else {
      OneElement(t, v);
      OnlyArrays(Element(t), v);
      NestedBack(t, v.items);
    }
  }

  /** The round trip of an argument list is exact precisely when every argument is one that comes back. */
  lemma AbiRoundTrip(ts: seq<Typ>, vs: seq<Val>)
    requires |ts| == |vs| && AllValid(ts) && EncodeAbi(ts, vs).Some?
    requires forall i :: 0 <= i < |ts| ==> Flat(ts[i]) || Solid(ts[i])
    ensures DecodeAbi(ts, EncodeAbi(ts, vs).value) == Some(vs) <==> forall i :: 0 <= i < |ts| ==> ComesBack(ts[i], vs[i])
  {
    hide EncodeAbi, DecodeAbi, Enc, Dec, ComesBack, Flat, Solid;
    AbiDecodes(ts, vs);
    var r := DecodeAbi(ts, EncodeAbi(ts, vs).value);
    forall i | 0 <= i < |ts| ensures Returned(ts[i], vs[i]) == Some(vs[i]) <==> ComesBack(ts[i], vs[i]) {
      ReturnedIff(ts[i], vs[i]);
    }
    if r.Some? && forall i :: 0 <= i < |ts| ==> ComesBack(ts[i], vs[i]) {
      assert forall i :: 0 <= i < |ts| ==> Some(r.value[i]) == Some(vs[i]);
      assert r.value == vs;
    }
  }
}
