/** Ordered lookup in the trie: `next` and `prev`. */
module TrieOrder {
  import opened ByteStrings
  import opened Nibbles
  import opened Trie

  /** A path found by the search, with a terminator when it ended in a branch value. */
  type Found = Option<seq<TNibble>>

  function Index(i: Nibble): nat { i }

  function Cons(i: Nibble, o: Found): Found {
    match o
    case None => None
    case Some(rest) => Some([i] + rest)
  }

  /** Some key of the node: its first, or its last when `reverse` is set. */
  function GetAny(n: Node, reverse: bool): Found
    requires Shape(n)
    decreases n, 17
  {
    match n
    case Blank => None
    case Leaf(k, _) => Some(k)
    case Ext(path, child) =>
      (match GetAny(child, reverse)
       case None => None
       case Some(o) => Some(path + o))
    case Branch(kids, value) =>
      if value != [] && !reverse then Some([NIBBLE_TERMINATOR])
      else
        var o := if reverse then ScanDown(n, 16) else ScanUp(n, 0);
        if o.Some? then o
        else if value != [] && reverse then Some([NIBBLE_TERMINATOR])
        else None
  }

  /** The children i, i + 1, .. in ascending order. */
  function ScanUp(n: Node, i: nat): Found
    requires Shape(n) && n.Branch? && i <= 16
    decreases n, 16 - i
  {
    if i == 16 then None
    else
      var o := Cons(i, GetAny(n.kids[i], false));
      if o.Some? then o else ScanUp(n, i + 1)
  }

  /** The children i - 1, .., 0 in descending order. */
  function ScanDown(n: Node, i: nat): Found
    requires Shape(n) && n.Branch? && i <= 16
    decreases n, i
  {
    if i == 0 then None
    else
      var o := Cons(i - 1, GetAny(n.kids[i - 1], true));
      if o.Some? then o else ScanDown(n, i - 1)
  }

  /** The nearest key beyond `key`. */
  function Iter(n: Node, key: Key, reverse: bool): Found
    requires Shape(n)
    decreases n
  {
    match n
    case Blank => None
    case Leaf(k, _) => if (if reverse then LexLess(k, key) else LexLess(key, k)) then Some(k) else None
    case Branch(kids, value) =>
      var inner := if key == [] then None else Cons(key[0], Iter(kids[key[0]], key[1..], reverse));
      if inner.Some? then inner
      else if reverse then
        var o := ScanDown(n, if key == [] then 0 else key[0]);
        if o.Some? then o
        else if key != [] && value != [] then Some([NIBBLE_TERMINATOR])
        else None
      else ScanUp(n, if key == [] then 0 else Index(key[0]) + 1)
    case Ext(path, child) =>
      var head := if |path| <= |key| then key[..|path|] else key;
      var o :=
        if StartsWith(key, path) then Iter(child, key[|path|..], reverse)
        else if LexLess(head, path) && !reverse then GetAny(child, false)
        else if LexLess(path, head) && reverse then GetAny(child, true)
        else None;
      if o.Some? && o.value != [] then Some(path + o.value) else None
  }

  /** None stands for the exception on a path of odd length. */
  function Next(n: Node, key: Bytes): Option<Option<Bytes>>
    requires Shape(n)
  {
    Answer(Iter(n, BinToNibbles(key), false))
  }

  function Prev(n: Node, key: Bytes): Option<Option<Bytes>>
    requires Shape(n)
  {
    Answer(Iter(n, BinToNibbles(key), true))
  }

  /** `o` is also falsy when it is the empty list. */
  function Answer(o: Found): Option<Option<Bytes>> {
    if o.Some? && o.value != [] then
      if Plain(WithoutTerminator(o.value)) then
        match NibblesToBin(WithoutTerminator(o.value))
        case None => None
        case Some(b) => Some(Some(b))
      else None
    else Some(None)
  }

  predicate Plain(t: seq<TNibble>) {
    forall i :: 0 <= i < |t| ==> t[i] < 16
  }

  // ---- what is searched for ----

  ghost predicate Member(n: Node, q: Key)
    requires Shape(n)
  {
    Get(n, q) != []
  }

  predicate Before(reverse: bool, a: Key, b: Key) {
    if reverse then LexLess(b, a) else LexLess(a, b)
  }

  /** k is the first key of the node in the direction of the search. */
  ghost predicate Extreme(n: Node, reverse: bool, k: Key)
    requires Shape(n)
  {
    Member(n, k) && forall q :: Member(n, q) ==> q == k || Before(reverse, k, q)
  }

  /** k is the first key strictly beyond `key`, or there is none. */
  ghost predicate Nearest(n: Node, reverse: bool, key: Key, r: Option<Key>)
    requires Shape(n)
  {
    match r
    case None => forall q :: Member(n, q) ==> !Before(reverse, key, q)
    case Some(k) =>
      && Member(n, k) && Before(reverse, key, k)
      && forall q :: Member(n, q) && Before(reverse, key, q) ==> q == k || Before(reverse, k, q)
  }

  /** The found path is the key k, possibly with a terminator. */
  predicate Denotes(o: Found, k: Key) {
    o == Some(k) || o == Some(k + [NIBBLE_TERMINATOR])
  }

  // ---- the order on paths ----

  lemma BeforeCons(reverse: bool, a: Key, b: Key)
    requires a != [] && b != [] && a[0] == b[0]
    ensures Before(reverse, a, b) <==> Before(reverse, a[1..], b[1..])
  {
  }

  lemma BeforeHead(reverse: bool, a: Key, b: Key)
    requires a != [] && b != [] && a[0] != b[0]
    ensures Before(reverse, a, b) <==> if reverse then b[0] < a[0] else a[0] < b[0]
  {
  }

  lemma BeforePrefix(reverse: bool, p: Key, a: Key, b: Key)
    ensures Before(reverse, p + a, p + b) <==> Before(reverse, a, b)
  {
    LexPrefix(p, a, b);
    LexPrefix(p, b, a);
  }

  lemma StartsWithTail(key: Key, path: Key)
    requires key != [] && path != [] && key[0] == path[0]
    ensures StartsWith(key, path) <==> StartsWith(key[1..], path[1..])
  {
    assert path == [path[0]] + path[1..];
    if |path| <= |key| {
      assert key[..|path|] == [key[0]] + key[1..][..|path| - 1];
      assert key[..|path|][1..] == key[1..][..|path| - 1];
    }
  }

  /** A path off the key's own prefix compares to every continuation as it does to the key. */
  lemma {:induction false} OffPath(path: Key, tail: Key, key: Key, head: Key)
    requires head == if |path| <= |key| then key[..|path|] else key
    requires !StartsWith(key, path)
    ensures LexLess(key, path + tail) <==> LexLess(head, path)
    ensures LexLess(path + tail, key) <==> LexLess(path, head)
    ensures head != path
  {
    if path != [] && key != [] && path[0] == key[0] {
      assert (path + tail)[1..] == path[1..] + tail;
      assert head[1..] == if |path[1..]| <= |key[1..]| then key[1..][..|path[1..]|] else key[1..];
      StartsWithTail(key, path);
      OffPath(path[1..], tail, key[1..], head[1..]);
    }
  }

  lemma DenotesCons(i: Nibble, o: Found, k: Key)
    requires Denotes(o, k)
    ensures Denotes(Cons(i, o), [i] + k)
  {
    assert [i] + (k + [NIBBLE_TERMINATOR]) == [i] + k + [NIBBLE_TERMINATOR];
  }

  lemma DenotesPath(path: Key, o: Found, k: Key)
    requires Denotes(o, k)
    ensures Denotes(Some(path + o.value), path + k)
  {
    assert path + (k + [NIBBLE_TERMINATOR]) == path + k + [NIBBLE_TERMINATOR];
  }

  // ---- first and last keys ----

  /** Every canonical node but the blank one has a first and a last key, and the search finds it. */
  lemma {:induction false} GetAnyExtreme(n: Node, reverse: bool) returns (k: Key)
    requires Canonical(n) && n != Blank
    ensures Shape(n) && Denotes(GetAny(n, reverse), k) && Extreme(n, reverse, k)
    ensures n.Branch? ==> GetAny(n, reverse).value != []
    decreases n, 17
  {
    CanonicalShape(n);
    match n
    case Leaf(key, _) => k := key;
    case Ext(path, child) =>
      var sub := GetAnyExtreme(child, reverse);
      k := path + sub;
      DenotesPath(path, GetAny(child, reverse), sub);
      ExtOfKey(path, child, sub);
      forall q | Member(n, q) ensures q == k || Before(reverse, k, q) {
        assert q == path + q[|path|..];
        BeforePrefix(reverse, path, sub, q[|path|..]);
      }
    case Branch(kids, value) =>
      if value != [] && !reverse {
        k := [];
        assert [NIBBLE_TERMINATOR] == k + [NIBBLE_TERMINATOR];
      } else {
        var r: Option<Key>;
        if reverse { r := ScanDownNearest(n, 16); } else { r := ScanUpNearest(n, 0); }
        KidsHaveMembers(n);
        k := r.value;
      }
  }

  /** A branch with a child holds a non-empty key. */
  lemma KidsHaveMembers(n: Node)
    requires Canonical(n) && Shape(n) && n.Branch?
    ensures CountKids(n.kids) != 0 ==> exists q :: q != [] && Member(n, q)
  {
    if CountKids(n.kids) != 0 {
      var k := KeyInKid(n, FirstKid(n.kids));
      assert Member(n, k);
    }
  }

  /** q lies in one of the children the scan still has to visit. */
  predicate InScan(reverse: bool, i: nat, q: Key) {
    q != [] && if reverse then q[0] < i else q[0] >= i
  }

  ghost predicate ScanResult(n: Node, reverse: bool, i: nat, r: Option<Key>)
    requires Shape(n)
  {
    match r
    case None => forall q :: Member(n, q) ==> !InScan(reverse, i, q)
    case Some(k) =>
      && Member(n, k) && InScan(reverse, i, k)
      && forall q :: Member(n, q) && InScan(reverse, i, q) ==> q == k || Before(reverse, k, q)
  }

  lemma ScanHit(n: Node, reverse: bool, i: Nibble, sub: Key) returns (k: Key)
    requires Canonical(n) && n.Branch? && Shape(n) && Extreme(n.kids[i], reverse, sub)
    ensures k == [i] + sub && Member(n, k)
    ensures forall q :: Member(n, q) && q != [] && q[0] == i ==> q == k || Before(reverse, k, q)
    ensures forall q :: Member(n, q) && q != [] && (if reverse then q[0] < i else q[0] > i) ==> Before(reverse, k, q)
  {
    k := [i] + sub;
    assert k[1..] == sub;
    forall q | Member(n, q) && q != [] && q[0] == i ensures q == k || Before(reverse, k, q) {
      assert q == [i] + q[1..];
      assert Member(n.kids[i], q[1..]);
      BeforeCons(reverse, k, q);
    }
    forall q | Member(n, q) && q != [] && (if reverse then q[0] < i else q[0] > i) ensures Before(reverse, k, q) {
      BeforeHead(reverse, k, q);
    }
  }

  lemma BlankKid(n: Node, i: Nibble)
    requires Shape(n) && n.Branch? && n.kids[i] == Blank
    ensures forall q :: Member(n, q) && q != [] ==> q[0] != i
  {
    forall q: Key | q != [] && q[0] == i ensures !Member(n, q) {
      assert Get(n, q) == Get(n.kids[i], q[1..]);
    }
  }

  lemma {:induction false} ScanUpNearest(n: Node, i: nat) returns (r: Option<Key>)
    requires Canonical(n) && n.Branch? && i <= 16
    ensures Shape(n) && ScanResult(n, false, i, r)
    ensures if r.Some? then Denotes(ScanUp(n, i), r.value) else ScanUp(n, i) == None
    decreases n, 16 - i
  {
    CanonicalShape(n);
    if i == 16 {
      r := None;
    } else if n.kids[i] != Blank {
      var sub := GetAnyExtreme(n.kids[i], false);
      var k := ScanHit(n, false, i, sub);
      DenotesCons(i, GetAny(n.kids[i], false), sub);
      r := Some(k);
    } else {
      BlankKid(n, i);
      r := ScanUpNearest(n, i + 1);
    }
  }

  lemma {:induction false} ScanDownNearest(n: Node, i: nat) returns (r: Option<Key>)
    requires Canonical(n) && n.Branch? && i <= 16
    ensures Shape(n) && ScanResult(n, true, i, r)
    ensures if r.Some? then Denotes(ScanDown(n, i), r.value) else ScanDown(n, i) == None
    decreases n, i
  {
    CanonicalShape(n);
    if i == 0 {
      r := None;
    } else if n.kids[i - 1] != Blank {
      var sub := GetAnyExtreme(n.kids[i - 1], true);
      var k := ScanHit(n, true, i - 1, sub);
      DenotesCons(i - 1, GetAny(n.kids[i - 1], true), sub);
      r := Some(k);
    } else {
      BlankKid(n, i - 1);
      r := ScanDownNearest(n, i - 1);
    }
  }

  // ---- the nearest key ----

  /** The search finds the nearest key on either side. */
  lemma {:induction false} IterNearest(n: Node, key: Key, reverse: bool) returns (r: Option<Key>)
    requires Canonical(n)
    ensures Shape(n) && Nearest(n, reverse, key, r)
    ensures if r.Some? then Denotes(Iter(n, key, reverse), r.value) else Iter(n, key, reverse) == None
    ensures n.Branch? && Iter(n, key, reverse).Some? ==> Iter(n, key, reverse).value != []
    decreases n
  {
    CanonicalShape(n);
    match n
    case Blank => r := None;
    case Leaf(k, _) => r := if Before(reverse, key, k) then Some(k) else None;
    case Ext(path, child) => r := IterExt(n, key, reverse);
    case Branch(kids, value) =>
      var inner: Option<Key> := None;
      if key != [] {
        inner := IterNearest(kids[key[0]], key[1..], reverse);
        IterInner(n, key, reverse, inner);
      }
      if inner.Some? {
        r := Some([key[0]] + inner.value);
        DenotesCons(key[0], Iter(kids[key[0]], key[1..], reverse), inner.value);
      } else {
        r := IterOuter(n, key, reverse);
      }
  }

  /** Within the child on the key's own path. */
  lemma IterInner(n: Node, key: Key, reverse: bool, inner: Option<Key>)
    requires Canonical(n) && Shape(n) && n.Branch? && key != []
    requires Nearest(n.kids[key[0]], reverse, key[1..], inner)
    ensures inner.Some? ==> Nearest(n, reverse, key, Some([key[0]] + inner.value))
    ensures inner.None? ==> forall q :: Member(n, q) && q != [] && q[0] == key[0] ==> !Before(reverse, key, q)
  {
    forall q | Member(n, q) && q != [] && q[0] == key[0]
      ensures Member(n.kids[key[0]], q[1..]) && (Before(reverse, key, q) <==> Before(reverse, key[1..], q[1..])) {
      BeforeCons(reverse, key, q);
    }
    if inner.Some? {
      var k := [key[0]] + inner.value;
      assert k[1..] == inner.value;
      BeforeCons(reverse, key, k);
      forall q | Member(n, q) && Before(reverse, key, q) ensures q == k || Before(reverse, k, q) {
        if q != [] && q[0] == key[0] {
          assert q == [q[0]] + q[1..];
          BeforeCons(reverse, k, q);
        } else if q != [] {
          BeforeHead(reverse, key, q);
          BeforeHead(reverse, k, q);
        }
      }
    }
  }

  /** Beyond the child on the key's own path. */
  lemma IterOuter(n: Node, key: Key, reverse: bool) returns (r: Option<Key>)
    requires Canonical(n) && n.Branch? && Shape(n)
    requires key != [] ==> Iter(n.kids[key[0]], key[1..], reverse) == None
    requires forall q :: Member(n, q) && q != [] && key != [] && q[0] == key[0] ==> !Before(reverse, key, q)
    ensures Nearest(n, reverse, key, r)
    ensures if r.Some? then Denotes(Iter(n, key, reverse), r.value) else Iter(n, key, reverse) == None
    ensures Iter(n, key, reverse).Some? ==> Iter(n, key, reverse).value != []
  {
    var i := if key == [] then 0 else if reverse then key[0] else Index(key[0]) + 1;
    forall q | Member(n, q) && q != [] ensures Before(reverse, key, q) <==> InScan(reverse, i, q) {
      if key != [] && q[0] != key[0] {
        BeforeHead(reverse, key, q);
      }
    }
    if reverse {
      r := ScanDownNearest(n, i);
      if r.None? && key != [] && n.value != [] {
        r := Some([]);
        assert [NIBBLE_TERMINATOR] == [] + [NIBBLE_TERMINATOR];
      }
    } else {
      r := ScanUpNearest(n, i);
    }
  }

  lemma {:induction false} IterExt(n: Node, key: Key, reverse: bool) returns (r: Option<Key>)
    requires Canonical(n) && n.Ext?
    ensures Shape(n) && Nearest(n, reverse, key, r)
    ensures if r.Some? then Denotes(Iter(n, key, reverse), r.value) else Iter(n, key, reverse) == None
    decreases n, 0
  {
    CanonicalShape(n);
    var path, child := n.path, n.child;
    MembersBelow(n);
    if StartsWith(key, path) {
      assert key == path + key[|path|..];
      var sub := IterNearest(child, key[|path|..], reverse);
      forall q | Member(n, q)
        ensures Before(reverse, key, q) <==> Before(reverse, key[|path|..], q[|path|..]) {
        BeforePrefix(reverse, path, key[|path|..], q[|path|..]);
      }
      if sub.Some? {
        r := Some(path + sub.value);
        DenotesPath(path, Iter(child, key[|path|..], reverse), sub.value);
        ExtNearest(n, key, reverse, sub.value);
      } else {
        r := None;
      }
    } else {
      r := IterOffPath(n, key, reverse);
    }
  }

  /** A key that leaves the path of an extension has all of its keys on one side. */
  lemma IterOffPath(n: Node, key: Key, reverse: bool) returns (r: Option<Key>)
    requires Canonical(n) && n.Ext? && !StartsWith(key, n.path)
    ensures Shape(n) && Nearest(n, reverse, key, r)
    ensures if r.Some? then Denotes(Iter(n, key, reverse), r.value) else Iter(n, key, reverse) == None
  {
    hide Canonical, Get, GetAny;
    CanonicalShape(n);
    CanonicalParts(n);
    var path, child := n.path, n.child;
    var head := if |path| <= |key| then key[..|path|] else key;
    MembersBelow(n);
    forall q | Member(n, q)
      ensures Before(reverse, key, q) <==> if reverse then LexLess(path, head) else LexLess(head, path) {
      OffPath(path, q[|path|..], key, head);
    }
    if if reverse then LexLess(path, head) else LexLess(head, path) {
      var k := GetAnyExtreme(child, reverse);
      r := Some(path + k);
      DenotesPath(path, GetAny(child, reverse), k);
      ExtOfKey(path, child, k);
      forall q | Member(n, q) ensures q == path + k || Before(reverse, path + k, q) {
        BeforePrefix(reverse, path, k, q[|path|..]);
      }
    } else {
      r := None;
    }
  }

  lemma CanonicalParts(n: Node)
    requires Canonical(n) && n.Ext?
    ensures n.path != [] && Canonical(n.child) && n.child.Branch?
  {
  }

  /** The keys of an extension are its path followed by the keys of its child. */
  lemma MembersBelow(n: Node)
    requires Canonical(n) && n.Ext? && Shape(n)
    ensures forall q :: Member(n, q) ==> StartsWith(q, n.path) && q == n.path + q[|n.path|..] && Member(n.child, q[|n.path|..])
  {
  }

  lemma ExtNearest(n: Node, key: Key, reverse: bool, k: Key)
    requires Shape(n) && n.Ext? && StartsWith(key, n.path)
    requires Nearest(n.child, reverse, key[|n.path|..], Some(k))
    ensures Nearest(n, reverse, key, Some(n.path + k))
  {
    var path := n.path;
    assert key == path + key[|path|..];
    ExtOfKey(path, n.child, k);
    BeforePrefix(reverse, path, key[|path|..], k);
    forall q | Member(n, q) && Before(reverse, key, q) ensures q == path + k || Before(reverse, path + k, q) {
      assert q == path + q[|path|..];
      BeforePrefix(reverse, path, key[|path|..], q[|path|..]);
      BeforePrefix(reverse, path, k, q[|path|..]);
    }
  }

  // ---- byte keys ----

  /** Every stored key comes from a byte string. */
  ghost predicate ByteKeys(n: Node)
    requires Shape(n)
  {
    forall q :: Member(n, q) ==> exists b: Bytes :: q == BinToNibbles(b)
  }

  ghost predicate Holds(n: Node, b: Bytes)
    requires Shape(n)
  {
    Member(n, BinToNibbles(b))
  }

  /** The nearest stored byte string beyond b, or None. */
  ghost predicate NearestBytes(n: Node, reverse: bool, b: Bytes, r: Option<Bytes>)
    requires Shape(n)
  {
    match r
    case None => forall c: Bytes :: Holds(n, c) ==> !(if reverse then LexLess(c, b) else LexLess(b, c))
    case Some(a) =>
      && Holds(n, a) && (if reverse then LexLess(a, b) else LexLess(b, a))
      && forall c: Bytes :: Holds(n, c) && (if reverse then LexLess(c, b) else LexLess(b, c)) ==>
           c == a || (if reverse then LexLess(c, a) else LexLess(a, c))
  }

  lemma AnswerOf(o: Found, k: Key, b: Bytes)
    requires Denotes(o, k) && k == BinToNibbles(b)
    ensures Answer(o) == if o.value == [] then Some(None) else Some(Some(b))
  {
    BinRoundTrip(b);
    var t := WithoutTerminator(o.value);
    if o.value != k {
      assert o.value[..|o.value| - 1] == k;
    }
    assert t == k;
  }

  lemma NearestOfNibbles(n: Node, reverse: bool, b: Bytes, a: Bytes)
    requires Shape(n)
    requires Nearest(n, reverse, BinToNibbles(b), Some(BinToNibbles(a)))
    ensures NearestBytes(n, reverse, b, Some(a))
  {
    var key, k := BinToNibbles(b), BinToNibbles(a);
    NibbleOrderIsByteOrder(a, b);
    NibbleOrderIsByteOrder(b, a);
    forall c: Bytes | Holds(n, c) && (if reverse then LexLess(c, b) else LexLess(b, c))
      ensures c == a || (if reverse then LexLess(c, a) else LexLess(a, c)) {
      var q := BinToNibbles(c);
      NibbleOrderIsByteOrder(c, b);
      NibbleOrderIsByteOrder(b, c);
      NibbleOrderIsByteOrder(c, a);
      NibbleOrderIsByteOrder(a, c);
      assert Member(n, q) && Before(reverse, key, q);
      if q == k { BinToNibblesInjective(c, a); }
    }
  }

  lemma NoneNearest(n: Node, reverse: bool, b: Bytes)
    requires Shape(n)
    requires Nearest(n, reverse, BinToNibbles(b), None)
    ensures NearestBytes(n, reverse, b, None)
  {
    forall c: Bytes | Holds(n, c) ensures !(if reverse then LexLess(c, b) else LexLess(b, c)) {
      NibbleOrderIsByteOrder(c, b);
      NibbleOrderIsByteOrder(b, c);
      assert Member(n, BinToNibbles(c));
    }
  }

  /** `next` always returns the least stored key above the given one. */
  lemma NextIsLeastAbove(n: Node, key: Bytes)
    requires Canonical(n) && Shape(n) && ByteKeys(n)
    ensures Next(n, key).Some? && NearestBytes(n, false, key, Next(n, key).value)
  {
    var r := IterNearest(n, BinToNibbles(key), false);
    if r.Some? {
      var b: Bytes :| r.value == BinToNibbles(b);
      AnswerOf(Iter(n, BinToNibbles(key), false), r.value, b);
      NearestOfNibbles(n, false, key, b);
    } else {
      NoneNearest(n, false, key);
    }
  }

  /** `prev` returns the greatest stored key below, except that it misses the empty key when
      that is the only one in the trie: the empty path found there counts as not found. */
  lemma PrevIsGreatestBelow(n: Node, key: Bytes)
    requires Canonical(n) && Shape(n) && ByteKeys(n)
    ensures Prev(n, key).Some?
    ensures NearestBytes(n, true, key, Prev(n, key).value) <==> !(n.Leaf? && n.key == []) || key == []
  {
    var k := BinToNibbles(key);
    var r := IterNearest(n, k, true);
    if r.Some? {
      var b: Bytes :| r.value == BinToNibbles(b);
      AnswerOf(Iter(n, k, true), r.value, b);
      NearestOfNibbles(n, true, key, b);
      if Iter(n, k, true).value == [] {
        assert r.value == [] && b == [];
        assert n.Leaf? && n.key == [];
        assert Holds(n, b) && LexLess(b, key);
      }
    } else {
      NoneNearest(n, true, key);
    }
  }
}
