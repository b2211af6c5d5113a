/** Half-byte paths and the hex-prefix packing of the Yellow Paper, Appendix C. */
module Nibbles {
  import opened ByteStrings

  const NIBBLE_TERMINATOR := 16

  type Nibble = x: int | 0 <= x < 16

  /** A path without terminator. */
  type Key = seq<Nibble>

  /** A nibble or the terminator. */
  type TNibble = x: int | 0 <= x <= 16

  function BinToNibbles(s: Bytes): Key {
    if s == [] then [] else [s[0] / 16, s[0] % 16] + BinToNibbles(s[1..])
  }

  function JoinNibbles(hi: Nibble, lo: Nibble): Byte {
    var h: int, l: int := hi, lo;
    16 * h + l
  }

  /** None stands for the exception on a path of odd length. */
  function NibblesToBin(nibbles: Key): Option<Bytes>
    decreases |nibbles|
  {
    if nibbles == [] then Some([])
    else if |nibbles| == 1 then None
    else
      match NibblesToBin(nibbles[2..])
      case None => None
      case Some(rest) => Some([JoinNibbles(nibbles[0], nibbles[1])] + rest)
  }

  function WithTerminator(nibbles: seq<TNibble>): seq<TNibble> {
    if nibbles == [] || nibbles[|nibbles| - 1] != NIBBLE_TERMINATOR
    then nibbles + [NIBBLE_TERMINATOR] else nibbles
  }

  function WithoutTerminator(nibbles: seq<TNibble>): seq<TNibble> {
    if nibbles != [] && nibbles[|nibbles| - 1] == NIBBLE_TERMINATOR
    then nibbles[..|nibbles| - 1] else nibbles
  }

  function AdaptTerminator(nibbles: seq<TNibble>, hasTerminator: bool): seq<TNibble> {
    if hasTerminator then WithTerminator(nibbles) else WithoutTerminator(nibbles)
  }

  /** The terminator may only stand at the end. */
  predicate Packable(nibbles: seq<TNibble>) {
    forall i :: 0 <= i < |nibbles| - 1 ==> nibbles[i] < 16
  }

  function PairUp(nibbles: Key): Bytes
    requires |nibbles| % 2 == 0
  {
    if nibbles == [] then [] else [JoinNibbles(nibbles[0], nibbles[1])] + PairUp(nibbles[2..])
  }

  /** The flag nibble, and a zero nibble of padding when the path is even. */
  function Header(oddlen: bool, terminated: bool): Key {
    var t := if terminated then 2 else 0;
    if oddlen then [t + 1] else [t, 0]
  }

  function PackNibbles(nibbles: seq<TNibble>): (packed: Bytes)
    requires Packable(nibbles)
    ensures packed != []
  {
    var terminated := nibbles != [] && nibbles[|nibbles| - 1] == NIBBLE_TERMINATOR;
    var body: Key := if terminated then nibbles[..|nibbles| - 1] else nibbles;
    PairUp(Header(|body| % 2 == 1, terminated) + body)
  }

  /** Drops the header nibbles, turning the leaf flag into a terminator. */
  function StripHeader(o: Key): seq<TNibble>
    requires |o| >= 2
  {
    var body: seq<TNibble> := if o[0] % 2 == 1 then o[1..] else o[2..];
    if (o[0] / 2) % 2 == 1 then body + [NIBBLE_TERMINATOR] else body
  }

  function UnpackToNibbles(bindata: Bytes): seq<TNibble>
    requires bindata != []
  {
    StripHeader(BinToNibbles(bindata))
  }

  lemma {:induction false} PairUpRoundTrip(nibbles: Key)
    requires |nibbles| % 2 == 0
    ensures BinToNibbles(PairUp(nibbles)) == nibbles
  {
    if nibbles != [] {
      var p := PairUp(nibbles);
      assert p[0] == JoinNibbles(nibbles[0], nibbles[1]);
      assert p[1..] == PairUp(nibbles[2..]);
      PairUpRoundTrip(nibbles[2..]);
      assert nibbles == [nibbles[0], nibbles[1]] + nibbles[2..];
    }
  }

  lemma {:induction false} BinRoundTrip(s: Bytes)
    ensures |BinToNibbles(s)| == 2 * |s|
    ensures PairUp(BinToNibbles(s)) == s
    ensures NibblesToBin(BinToNibbles(s)) == Some(s)
  {
    if s != [] {
      BinRoundTrip(s[1..]);
      var n := BinToNibbles(s);
      assert n[2..] == BinToNibbles(s[1..]);
      assert s == [s[0]] + s[1..];
    }
  }

  lemma StripHeaderOf(body: Key, odd: bool, terminated: bool)
    requires odd ==> |body| > 0
    ensures StripHeader(Header(odd, terminated) + body) == if terminated then body + [NIBBLE_TERMINATOR] else body
  {
    var o := Header(odd, terminated) + body;
    assert o[if odd then 1 else 2..] == body;
  }

  /** Unpacking undoes packing on every packable path. */
  lemma UnpackPack(nibbles: seq<TNibble>)
    requires Packable(nibbles)
    ensures UnpackToNibbles(PackNibbles(nibbles)) == nibbles
  {
    hide PairUp, StripHeader, BinToNibbles;
    var terminated := nibbles != [] && nibbles[|nibbles| - 1] == NIBBLE_TERMINATOR;
    var body: Key := if terminated then nibbles[..|nibbles| - 1] else nibbles;
    PairUpRoundTrip(Header(|body| % 2 == 1, terminated) + body);
    StripHeaderOf(body, |body| % 2 == 1, terminated);
  }

  /** The first byte of a well-formed packing: two flag bits, and a zero padding nibble when the path is even. */
  predicate CanonicalHeader(bindata: Bytes) {
    bindata != [] && bindata[0] / 16 < 4 && ((bindata[0] / 16) % 2 == 0 ==> bindata[0] % 16 == 0)
  }

  /** Packing undoes unpacking exactly on the byte strings that some packing produces. */
  lemma PackUnpack(bindata: Bytes)
    requires bindata != []
    ensures Packable(UnpackToNibbles(bindata))
    ensures PackNibbles(UnpackToNibbles(bindata)) == bindata <==> CanonicalHeader(bindata)
  {
    BinRoundTrip(bindata);
    var o := BinToNibbles(bindata);
    assert o[0] == bindata[0] / 16 && o[1] == bindata[0] % 16;
    RepackStripped(o);
    var packed := PackNibbles(StripHeader(o));
    BinRoundTrip(packed);
  }

  lemma RepackStripped(o: Key)
    requires |o| >= 2 && |o| % 2 == 0
    ensures Packable(StripHeader(o))
    ensures BinToNibbles(PackNibbles(StripHeader(o))) == o <==> o[0] < 4 && (o[0] % 2 == 0 ==> o[1] == 0)
  {
    if o[0] % 2 == 1 {
      RepackBody(o, o[1..], true, (o[0] / 2) % 2 == 1);
    } else {
      RepackBody(o, o[2..], false, (o[0] / 2) % 2 == 1);
    }
  }

  lemma RepackBody(o: Key, body: Key, odd: bool, terminated: bool)
    requires |o| >= 2 && odd == (o[0] % 2 == 1) && terminated == ((o[0] / 2) % 2 == 1)
    requires body == (if odd then o[1..] else o[2..]) && odd == (|body| % 2 == 1)
    ensures Packable(StripHeader(o))
    ensures BinToNibbles(PackNibbles(StripHeader(o))) == o <==> o[0] < 4 && (o[0] % 2 == 0 ==> o[1] == 0)
  {
    var t := StripHeader(o);
    assert t == if terminated then body + [NIBBLE_TERMINATOR] else body;
    PackBody(body, terminated);
    PairUpRoundTrip(Header(odd, terminated) + body);
    HeaderFits(o, body);
  }

  lemma PackBody(body: Key, terminated: bool)
    requires Packable(if terminated then body + [NIBBLE_TERMINATOR] else body)
    ensures PackNibbles(if terminated then body + [NIBBLE_TERMINATOR] else body)
         == PairUp(Header(|body| % 2 == 1, terminated) + body)
  {
    hide PairUp, Header;
    if terminated {
      var t: seq<TNibble> := body + [NIBBLE_TERMINATOR];
      assert t[|t| - 1] == NIBBLE_TERMINATOR && t[..|t| - 1] == body;
    }
  }

  lemma HeaderFits(o: Key, body: Key)
    requires |o| >= 2 && body == if o[0] % 2 == 1 then o[1..] else o[2..]
    ensures Header(o[0] % 2 == 1, (o[0] / 2) % 2 == 1) + body == o
       <==> o[0] < 4 && (o[0] % 2 == 0 ==> o[1] == 0)
  {
    var h := Header(o[0] % 2 == 1, (o[0] / 2) % 2 == 1) + body;
    if o[0] < 4 && (o[0] % 2 == 0 ==> o[1] == 0) {
      assert h == o;
    } else {
      assert h[0] != o[0] || h[1] != o[1];
    }
  }

  /** Comparing nibble paths compares the byte strings they come from. */
  lemma {:induction false} NibbleOrderIsByteOrder(a: Bytes, b: Bytes)
    ensures LexLess(BinToNibbles(a), BinToNibbles(b)) <==> LexLess(a, b)
  {
    if a != [] && b != [] {
      var x, y := BinToNibbles(a), BinToNibbles(b);
      assert x[1..][1..] == BinToNibbles(a[1..]) && y[1..][1..] == BinToNibbles(b[1..]);
      NibbleOrderIsByteOrder(a[1..], b[1..]);
    }
  }

  lemma BinToNibblesInjective(a: Bytes, b: Bytes)
    requires BinToNibbles(a) == BinToNibbles(b)
    ensures a == b
  {
    BinRoundTrip(a);
    BinRoundTrip(b);
  }
}
