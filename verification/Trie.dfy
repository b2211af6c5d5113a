/** The Merkle Patricia trie of ethereum/trie.py as a tree: lookup, update and delete over nibble paths. */
module Trie {
  import opened ByteStrings
  import opened Nibbles

  /** A trie node with its children in place. A branch has sixteen children; [] is the blank value. */
  datatype Node =
    | Blank
    | Leaf(key: Key, value: Bytes)
    | Ext(path: Key, child: Node)
    | Branch(kids: seq<Node>, value: Bytes)

  predicate Shape(n: Node) {
    match n
    case Blank => true
    case Leaf(_, _) => true
    case Ext(_, child) => Shape(child)
    case Branch(kids, _) => |kids| == 16 && forall i :: 0 <= i < 16 ==> Shape(kids[i])
  }

  function NoKids(): (kids: seq<Node>)
    ensures |kids| == 16 && forall i :: 0 <= i < 16 ==> kids[i] == Blank
  {
    seq(16, (i: nat) => Blank)
  }

  function Get(n: Node, key: Key): Bytes
    requires Shape(n)
    decreases n
  {
    match n
    case Blank => []
    case Branch(kids, value) => if key == [] then value else Get(kids[key[0]], key[1..])
    case Leaf(k, value) => if key == k then value else []
    case Ext(path, child) => if StartsWith(key, path) then Get(child, key[|path|..]) else []
  }

  /** Length of the longest common prefix. */
  function CommonPrefix(a: Key, b: Key): (p: nat)
    ensures p <= |a| && p <= |b| && a[..p] == b[..p]
    ensures p < |a| && p < |b| ==> a[p] != b[p]
  {
    if a != [] && b != [] && a[0] == b[0] then 1 + CommonPrefix(a[1..], b[1..]) else 0
  }

  function Update(n: Node, key: Key, value: Bytes): Node
    requires Shape(n)
    decreases n
  {
    match n
    case Blank => Leaf(key, value)
    case Branch(kids, v) =>
      if key == [] then Branch(kids, value)
      else Branch(kids[key[0] := Update(kids[key[0]], key[1..], value)], v)
    case Leaf(k, v) =>
      var p := CommonPrefix(k, key);
      if key[p..] == [] && k[p..] == [] then Leaf(k, value)
      else Prefixed(k[..p], SplitLeaf(k[p..], v, key[p..], value))
    case Ext(path, child) =>
      var p := CommonPrefix(path, key);
      if path[p..] == [] then Prefixed(path, Update(child, key[p..], value))
      else Prefixed(path[..p], SplitExt(path[p..], child, key[p..], value))
  }

  function Prefixed(path: Key, n: Node): Node {
    if path == [] then n else Ext(path, n)
  }

  /** The branch that replaces a leaf when a second key leaves its path; the keys differ at once. */
  function SplitLeaf(k: Key, v: Bytes, key: Key, value: Bytes): Node
    requires k != [] || key != []
  {
    if k == [] then Branch(NoKids()[key[0] := Leaf(key[1..], value)], v)
    else Fork(k[0], Leaf(k[1..], v), key, value)
  }

  function SplitExt(path: Key, child: Node, key: Key, value: Bytes): Node
    requires path != []
  {
    Fork(path[0], if |path| == 1 then child else Ext(path[1..], child), key, value)
  }

  /** A branch holding `rest` in slot i and the new value at `key`. */
  function Fork(i: Nibble, rest: Node, key: Key, value: Bytes): Node {
    if key == [] then Branch(NoKids()[i := rest], value)
    else Branch(NoKids()[i := rest][key[0] := Leaf(key[1..], value)], [])
  }

  function CountKids(kids: seq<Node>): nat {
    if kids == [] then 0 else (if kids[0] == Blank then 0 else 1) + CountKids(kids[1..])
  }

  /** The number of non-blank items of a branch. */
  function Slots(kids: seq<Node>, value: Bytes): nat {
    CountKids(kids) + if value == [] then 0 else 1
  }

  function FirstKid(kids: seq<Node>): (i: nat)
    requires CountKids(kids) > 0
    ensures i < |kids| && kids[i] != Blank
  {
    if kids[0] != Blank then 0 else 1 + FirstKid(kids[1..])
  }

  /** Collapses a branch that is left with a single item. */
  function NormalizeBranch(kids: seq<Node>, value: Bytes): (r: Node)
    requires |kids| == 16 && Slots(kids, value) >= 1
    ensures r != Blank && (Shape(Branch(kids, value)) ==> Shape(r))
  {
    if Slots(kids, value) > 1 then Branch(kids, value)
    else if CountKids(kids) == 0 then Leaf([], value)
    else
      var i: Nibble := FirstKid(kids);
      assert Shape(Branch(kids, value)) ==> Shape(kids[i]);
      match kids[i]
      case Leaf(k, v) => Leaf([i] + k, v)
      case Ext(path, child) => Ext([i] + path, child)
      case Branch(_, _) => Ext([i], kids[i])
  }

  /** The invariant of tries built from the empty one: no node could be written shorter. */
  predicate Canonical(n: Node) {
    match n
    case Blank => true
    case Leaf(_, value) => value != []
    case Ext(path, child) => path != [] && child.Branch? && Canonical(child)
    case Branch(kids, value) =>
      && |kids| == 16
      && Slots(kids, value) >= 2
      && forall i :: 0 <= i < 16 ==> Canonical(kids[i])
  }

  /** Deleting the key leaves nothing of the node. */
  predicate Vanishes(n: Node, key: Key) {
    match n
    case Leaf(k, _) => key == k
    case Ext(path, child) => StartsWith(key, path) && Vanishes(child, key[|path|..])
    case _ => false
  }

  /** No branch on the way to the key loses its last item; otherwise the assertion in the collapse fails. */
  predicate Deletable(n: Node, key: Key)
    requires Shape(n)
    decreases n
  {
    match n
    case Ext(path, child) => StartsWith(key, path) ==> Deletable(child, key[|path|..])
    case Branch(kids, value) =>
      if key == [] then CountKids(kids) >= 1
      else Deletable(kids[key[0]], key[1..]) && (Vanishes(kids[key[0]], key[1..]) ==> Slots(kids, value) >= 2)
    case _ => true
  }

  function Delete(n: Node, key: Key): (r: Node)
    requires Shape(n) && Deletable(n, key)
    ensures Shape(r) && (r == Blank <==> n == Blank || Vanishes(n, key))
    decreases n
  {
    match n
    case Blank => Blank
    case Branch(kids, value) =>
      if key == [] then NormalizeBranch(kids, [])
      else
        var sub := Delete(kids[key[0]], key[1..]);
        if sub == kids[key[0]] then n
        else
          CountUpdate(kids, key[0], sub);
          if sub == Blank then NormalizeBranch(kids[key[0] := sub], value)
          else Branch(kids[key[0] := sub], value)
    case Leaf(k, _) => if key == k then Blank else n
    case Ext(path, child) =>
      if !StartsWith(key, path) then n
      else
        var sub := Delete(child, key[|path|..]);
        if sub == child then n
        else
          match sub
          case Blank => Blank
          case Leaf(k, v) => Leaf(path + k, v)
          case Ext(p, c) => Ext(path + p, c)
          case Branch(_, _) => Ext(path, sub)
  }

  // ---- counting the items of a branch ----

  lemma SlotsStep(kids: seq<Node>, value: Bytes, value': Bytes)
    ensures Slots(kids, value') >= Slots(kids, value) - 1
  {
  }

  lemma {:induction false} CountUpdate(kids: seq<Node>, i: nat, n: Node)
    requires i < |kids|
    ensures CountKids(kids[i := n]) + (if kids[i] == Blank then 0 else 1) == CountKids(kids) + (if n == Blank then 0 else 1)
  {
    if i == 0 {
      assert kids[0 := n][1..] == kids[1..];
    } else {
      assert kids[i := n][1..] == kids[1..][i - 1 := n];
      CountUpdate(kids[1..], i - 1, n);
    }
  }

  lemma {:induction false} CountZero(kids: seq<Node>)
    ensures CountKids(kids) == 0 <==> forall i :: 0 <= i < |kids| ==> kids[i] == Blank
  {
    if kids != [] {
      CountZero(kids[1..]);
      assert forall i :: 0 < i < |kids| ==> kids[i] == kids[1..][i - 1];
      assert forall i :: 0 <= i < |kids| - 1 ==> kids[1..][i] == kids[i + 1];
    }
  }

  lemma CountNoKids()
    ensures CountKids(NoKids()) == 0
  {
    CountZero(NoKids());
  }

  /** With one non-blank child all others are blank. */
  lemma CountOne(kids: seq<Node>, i: nat)
    requires i < |kids| && kids[i] != Blank && CountKids(kids) == 1
    ensures forall j :: 0 <= j < |kids| && j != i ==> kids[j] == Blank
  {
    CountUpdate(kids, i, Blank);
    CountZero(kids[i := Blank]);
    assert forall j :: 0 <= j < |kids| && j != i ==> kids[j] == kids[i := Blank][j];
  }

  /** With two non-blank children there is one besides any given child. */
  lemma CountTwo(kids: seq<Node>, i: nat) returns (j: nat)
    requires i < |kids| && CountKids(kids) >= 2
    ensures j < |kids| && j != i && kids[j] != Blank
  {
    CountUpdate(kids, i, Blank);
    j := FirstKid(kids[i := Blank]);
  }

  lemma CanonicalShape(n: Node)
    requires Canonical(n)
    ensures Shape(n)
  {
  }

  // ---- update and delete against lookup ----

  lemma {:induction false} UpdateShape(n: Node, key: Key, value: Bytes)
    requires Shape(n)
    ensures Shape(Update(n, key, value))
    decreases n
  {
    match n
    case Branch(kids, v) =>
      if key != [] { UpdateShape(kids[key[0]], key[1..], value); }
    case Ext(path, child) =>
      UpdateShape(child, key[CommonPrefix(path, key)..], value);
    case _ =>
  }

  lemma ForkGet(i: Nibble, rest: Node, key: Key, value: Bytes, q: Key)
    requires Shape(rest) && (key == [] || key[0] != i)
    ensures Shape(Fork(i, rest, key, value))
    ensures Get(Fork(i, rest, key, value), q)
         == if q == key then value else if q != [] && q[0] == i then Get(rest, q[1..]) else []
  {
    if key != [] && q != [] && q[0] == key[0] {
      assert q == [q[0]] + q[1..] && key == [key[0]] + key[1..];
    }
  }

  /** Below a common prefix, lookups of two keys compare their remainders. */
  lemma PrefixSplit(q: Key, k: Key, p: nat)
    requires p <= |k|
    ensures StartsWith(q, k[..p]) ==> (q == k <==> q[p..] == k[p..])
    ensures StartsWith(q, k[..p]) ==> (StartsWith(q, k) <==> StartsWith(q[p..], k[p..]))
    ensures StartsWith(q, k) ==> StartsWith(q, k[..p]) && q[p..][|k| - p..] == q[|k|..]
    ensures q == k ==> StartsWith(q, k[..p])
  {
    assert k == k[..p] + k[p..];
    if StartsWith(q, k[..p]) {
      assert q == k[..p] + q[p..];
      if StartsWith(q, k) {
        assert q[p..][..|k| - p] == q[..|k|][p..];
      }
      if StartsWith(q[p..], k[p..]) {
        assert q[..|k|] == k[..p] + q[p..][..|k| - p];
      }
    }
    if StartsWith(q, k) {
      assert q[..p] == q[..|k|][..p];
    }
  }

  lemma PrefixedGet(path: Key, n: Node, q: Key)
    requires Shape(n)
    ensures Shape(Prefixed(path, n))
    ensures Get(Prefixed(path, n), q) == if StartsWith(q, path) then Get(n, q[|path|..]) else []
  {
    if path == [] { assert q[0..] == q; }
  }

  /** The remainder of an extension read off a fork slot. */
  lemma TailGet(path: Key, child: Node, r: Key)
    requires Shape(child) && path != []
    ensures var rest := if |path| == 1 then child else Ext(path[1..], child);
            Shape(rest) && (if StartsWith(r, path) then Get(child, r[|path|..]) else [])
                       == (if r != [] && r[0] == path[0] then Get(rest, r[1..]) else [])
  {
    assert path == [path[0]] + path[1..];
    if r != [] && r[0] == path[0] {
      assert r == [r[0]] + r[1..];
      if |path| == 1 {
        assert r[..1] == path;
      } else {
        if StartsWith(r, path) {
          assert r[1..][..|path| - 1] == r[..|path|][1..];
          assert r[1..][|path| - 1..] == r[|path|..];
        }
        if StartsWith(r[1..], path[1..]) {
          assert r[..|path|] == [r[0]] + r[1..][..|path| - 1];
        }
      }
    }
  }

  lemma UpdateLeafGet(k: Key, v: Bytes, key: Key, value: Bytes, q: Key)
    ensures Shape(Update(Leaf(k, v), key, value))
    ensures Get(Update(Leaf(k, v), key, value), q) == if q == key then value else if q == k then v else []
  {
    hide SplitLeaf, CommonPrefix;
    var p := CommonPrefix(k, key);
    PrefixSplit(q, k, p);
    PrefixSplit(q, key, p);
    if key[p..] == [] && k[p..] == [] {
      assert k[..p] == k && key[..p] == key;
    } else {
      var r := if StartsWith(q, k[..p]) then q[p..] else [];
      SplitLeafGet(k[p..], v, key[p..], value, r);
      PrefixedGet(k[..p], SplitLeaf(k[p..], v, key[p..], value), q);
    }
  }

  lemma SplitLeafGet(k: Key, v: Bytes, key: Key, value: Bytes, r: Key)
    requires (k != [] || key != []) && (k != [] && key != [] ==> k[0] != key[0])
    ensures Shape(SplitLeaf(k, v, key, value))
    ensures Get(SplitLeaf(k, v, key, value), r) == if r == key then value else if r == k then v else []
  {
    if r != [] { assert r == [r[0]] + r[1..]; }
    if k == [] {
      assert key == [key[0]] + key[1..];
    } else {
      hide Fork;
      ForkGet(k[0], Leaf(k[1..], v), key, value, r);
      assert k == [k[0]] + k[1..];
    }
  }

  lemma UpdateExtSplitGet(path: Key, child: Node, key: Key, value: Bytes, q: Key)
    requires Shape(child)
    requires CommonPrefix(path, key) < |path|
    ensures Shape(Update(Ext(path, child), key, value))
    ensures Get(Update(Ext(path, child), key, value), q) == if q == key then value else Get(Ext(path, child), q)
  {
    var p := CommonPrefix(path, key);
    PrefixSplit(q, path, p);
    PrefixSplit(q, key, p);
    var rk, rp := key[p..], path[p..];
    var r := if StartsWith(q, path[..p]) then q[p..] else [];
    TailGet(rp, child, r);
    ForkGet(rp[0], if |rp| == 1 then child else Ext(rp[1..], child), rk, value, r);
    PrefixedGet(path[..p], SplitExt(rp, child, rk, value), q);
  }

  lemma UpdateExtInnerGet(path: Key, child: Node, key: Key, value: Bytes, q: Key)
    requires Shape(child) && Shape(Update(child, key[CommonPrefix(path, key)..], value))
    requires CommonPrefix(path, key) == |path|
    requires StartsWith(q, path) ==>
               Get(Update(child, key[|path|..], value), q[|path|..])
                 == (if q[|path|..] == key[|path|..] then value else Get(child, q[|path|..]))
    ensures Get(Update(Ext(path, child), key, value), q) == if q == key then value else Get(Ext(path, child), q)
  {
    var p := |path|;
    PrefixSplit(q, key, p);
    assert path[..p] == path && path[p..] == [];
    PrefixedGet(path, Update(child, key[p..], value), q);
  }

  lemma UpdateBranchGet(kids: seq<Node>, v: Bytes, key: Key, value: Bytes, q: Key)
    requires Shape(Branch(kids, v)) && Shape(Update(Branch(kids, v), key, value))
    requires key != [] ==> Shape(Update(kids[key[0]], key[1..], value))
    requires key != [] && q != [] && q[0] == key[0] ==>
               Get(Update(kids[key[0]], key[1..], value), q[1..])
                 == (if q[1..] == key[1..] then value else Get(kids[key[0]], q[1..]))
    ensures Get(Update(Branch(kids, v), key, value), q) == if q == key then value else Get(Branch(kids, v), q)
  {
    if key != [] && q != [] {
      assert key == [key[0]] + key[1..] && q == [q[0]] + q[1..];
    }
  }

  /** Updating changes the value at one key and at no other. */
  lemma {:induction false} UpdateGet(n: Node, key: Key, value: Bytes, q: Key)
    requires Shape(n)
    ensures Shape(Update(n, key, value))
    ensures Get(Update(n, key, value), q) == if q == key then value else Get(n, q)
    decreases n
  {
    UpdateShape(n, key, value);
    match n
    case Blank =>
    case Branch(kids, v) =>
      if key != [] {
        UpdateGet(kids[key[0]], key[1..], value, if q == [] then [] else q[1..]);
      }
      UpdateBranchGet(kids, v, key, value, q);
    case Leaf(k, v) => UpdateLeafGet(k, v, key, value, q);
    case Ext(path, child) =>
      if CommonPrefix(path, key) == |path| {
        UpdateGet(child, key[|path|..], value, if StartsWith(q, path) then q[|path|..] else []);
        UpdateExtInnerGet(path, child, key, value, q);
      } else {
        UpdateExtSplitGet(path, child, key, value, q);
      }
  }

  // ---- the canonical form is kept ----

  lemma ForkCanonical(i: Nibble, rest: Node, key: Key, value: Bytes)
    requires Canonical(rest) && rest != Blank && value != [] && (key == [] || key[0] != i)
    ensures Canonical(Fork(i, rest, key, value)) && Fork(i, rest, key, value).Branch?
  {
    hide CountKids, CommonPrefix;
    CountNoKids();
    CountUpdate(NoKids(), i, rest);
    if key != [] {
      CountUpdate(NoKids()[i := rest], key[0], Leaf(key[1..], value));
    }
  }

  lemma SplitLeafCanonical(k: Key, v: Bytes, key: Key, value: Bytes)
    requires v != [] && value != [] && (k != [] || key != [])
    requires k != [] && key != [] ==> k[0] != key[0]
    ensures Canonical(SplitLeaf(k, v, key, value)) && SplitLeaf(k, v, key, value).Branch?
  {
    hide CountKids;
    if k == [] {
      CountNoKids();
      CountUpdate(NoKids(), key[0], Leaf(key[1..], value));
    } else {
      ForkCanonical(k[0], Leaf(k[1..], v), key, value);
    }
  }

  lemma SplitExtCanonical(path: Key, child: Node, key: Key, value: Bytes)
    requires Canonical(child) && child.Branch? && value != [] && path != [] && (key == [] || key[0] != path[0])
    ensures Canonical(SplitExt(path, child, key, value)) && SplitExt(path, child, key, value).Branch?
  {
    hide Fork;
    ForkCanonical(path[0], if |path| == 1 then child else Ext(path[1..], child), key, value);
  }

  /** Storing a non-empty value keeps the trie canonical, and a branch stays a branch. */
  lemma {:induction false} UpdateCanonical(n: Node, key: Key, value: Bytes)
    requires Canonical(n) && value != []
    ensures Shape(n) && Canonical(Update(n, key, value))
    ensures Update(n, key, value) != Blank
    ensures n.Branch? ==> Update(n, key, value).Branch?
    decreases n
  {
    hide Fork, SplitLeaf, SplitExt, CommonPrefix, CountKids;
    CanonicalShape(n);
    match n
    case Blank =>
    case Branch(kids, v) =>
      if key != [] {
        UpdateCanonical(kids[key[0]], key[1..], value);
        CountUpdate(kids, key[0], Update(kids[key[0]], key[1..], value));
      }
    case Leaf(k, v) =>
      var p := CommonPrefix(k, key);
      if key[p..] != [] || k[p..] != [] {
        SplitLeafCanonical(k[p..], v, key[p..], value);
      }
    case Ext(path, child) =>
      var p := CommonPrefix(path, key);
      if p == |path| {
        UpdateCanonical(child, key[p..], value);
      } else {
        SplitExtCanonical(path[p..], child, key[p..], value);
      }
  }

  /** Collapsing a branch whose children are canonical gives a canonical node. */
  lemma NormalizeCanonical(kids: seq<Node>, value: Bytes)
    requires |kids| == 16 && Slots(kids, value) >= 1
    requires forall i :: 0 <= i < 16 ==> Canonical(kids[i])
    ensures Canonical(NormalizeBranch(kids, value)) && NormalizeBranch(kids, value) != Blank
  {
  }

  lemma NormalizeGet(kids: seq<Node>, value: Bytes, q: Key)
    requires Shape(Branch(kids, value)) && Slots(kids, value) >= 1
    ensures Shape(NormalizeBranch(kids, value))
    ensures Get(NormalizeBranch(kids, value), q) == Get(Branch(kids, value), q)
  {
    CountZero(kids);
    if q != [] { assert q == [q[0]] + q[1..]; }
    if Slots(kids, value) == 1 && CountKids(kids) != 0 {
      var i: Nibble := FirstKid(kids);
      CountOne(kids, i);
      match kids[i]
      case Leaf(k, v) => assert ([i] + k)[1..] == k;
      case Ext(path, child) => UnderPrefix([i], path, child, q);
      case Branch(_, _) => if q != [] { assert q[..1] == [q[0]]; }
    }
  }

  /** An extension below a prefix equals the extension with the joined path. */
  lemma UnderPrefix(p: Key, path: Key, child: Node, q: Key)
    requires Shape(child)
    ensures Get(Ext(p + path, child), q) == if StartsWith(q, p) then Get(Ext(path, child), q[|p|..]) else []
  {
    PrefixSplit(q, p + path, |p|);
    assert (p + path)[..|p|] == p && (p + path)[|p|..] == path;
  }

  lemma UnderPrefixLeaf(p: Key, k: Key, v: Bytes, q: Key)
    ensures Get(Leaf(p + k, v), q) == if StartsWith(q, p) then Get(Leaf(k, v), q[|p|..]) else []
  {
    PrefixSplit(q, p + k, |p|);
    assert (p + k)[..|p|] == p && (p + k)[|p|..] == k;
  }

  /** From a canonical trie every key can be deleted. */
  lemma {:induction false} CanonicalDeletable(n: Node, key: Key)
    requires Canonical(n)
    ensures Shape(n) && Deletable(n, key)
    decreases n
  {
    CanonicalShape(n);
    match n
    case Ext(path, child) =>
      if StartsWith(key, path) { CanonicalDeletable(child, key[|path|..]); }
    case Branch(kids, _) =>
      if key != [] { CanonicalDeletable(kids[key[0]], key[1..]); }
    case _ =>
  }

  /** After a value was blanked in a branch with one child, the key behind the child cannot be deleted any more. */
  lemma NotDeletable(k: Key, i: Nibble, rest: Key, a: Bytes, b: Bytes)
    ensures var below, one := k + ([i] + rest), Update(Blank, k, a);
            && Shape(one) && Shape(Update(one, below, b))
            && var n := Update(Update(one, below, b), k, []); Shape(n) && !Deletable(n, below)
  {
    hide Update, Deletable;
    var kids := NoKids()[i := Leaf(rest, b)];
    BlankGrows(k, a);
    LeafGrows(k, i, rest, a, b);
    BlankedBranch(k, kids, a);
    LoneKid(k, kids, i, rest, b);
  }

  lemma BlankGrows(k: Key, a: Bytes)
    ensures Update(Blank, k, a) == Leaf(k, a)
  {
  }

  lemma LeafGrows(k: Key, i: Nibble, rest: Key, a: Bytes, b: Bytes)
    ensures Update(Leaf(k, a), k + ([i] + rest), b) == Prefixed(k, Branch(NoKids()[i := Leaf(rest, b)], a))
  {
    PrefixOf(k, [i] + rest);
    assert ([i] + rest)[1..] == rest;
  }

  lemma BlankedBranch(k: Key, kids: seq<Node>, a: Bytes)
    requires Shape(Branch(kids, a))
    ensures Shape(Prefixed(k, Branch(kids, a))) && Update(Prefixed(k, Branch(kids, a)), k, []) == Prefixed(k, Branch(kids, []))
  {
    PrefixOf(k, []);
    assert k + [] == k;
  }

  lemma LoneKid(k: Key, kids: seq<Node>, i: Nibble, rest: Key, b: Bytes)
    requires kids == NoKids()[i := Leaf(rest, b)]
    ensures Shape(Branch(kids, [])) && !Deletable(Prefixed(k, Branch(kids, [])), k + ([i] + rest))
  {
    hide CountKids, NoKids;
    CountNoKids();
    CountUpdate(NoKids(), i, Leaf(rest, b));
    assert ([i] + rest)[1..] == rest;
    assert !Deletable(Branch(kids, []), [i] + rest);
    BelowPrefix(k, Branch(kids, []), [i] + rest);
  }

  lemma BelowPrefix(k: Key, n: Node, key: Key)
    requires Shape(n)
    ensures Deletable(Prefixed(k, n), k + key) <==> Deletable(n, key)
  {
    PrefixOf(k, key);
    assert [] + key == key;
  }

  lemma {:induction false} PrefixOf(k: Key, rest: Key)
    ensures CommonPrefix(k, k + rest) == |k|
    ensures (k + rest)[..|k|] == k && (k + rest)[|k|..] == rest
  {
    if k != [] {
      PrefixOf(k[1..], rest);
      assert (k + rest)[1..] == k[1..] + rest;
    }
  }

  /** Deleting keeps the trie canonical. */
  lemma {:induction false} DeleteCanonical(n: Node, key: Key)
    requires Canonical(n)
    ensures Shape(n) && Deletable(n, key) && Canonical(Delete(n, key))
    ensures n.Branch? ==> Delete(n, key) != Blank
    decreases n
  {
    CanonicalDeletable(n, key);
    match n
    case Blank =>
    case Leaf(_, _) =>
    case Branch(kids, value) =>
      if key == [] {
        SlotsStep(kids, value, []);
        NormalizeCanonical(kids, []);
      } else {
        DeleteCanonical(kids[key[0]], key[1..]);
        var sub := Delete(kids[key[0]], key[1..]);
        CountUpdate(kids, key[0], sub);
        if sub == Blank { NormalizeCanonical(kids[key[0] := sub], value); }
      }
    case Ext(path, child) =>
      if StartsWith(key, path) {
        DeleteCanonical(child, key[|path|..]);
      }
  }

  /** Deleting blanks one key and leaves all others. */
  lemma {:induction false} DeleteGet(n: Node, key: Key, q: Key)
    requires Shape(n) && Deletable(n, key)
    ensures Get(Delete(n, key), q) == if q == key then [] else Get(n, q)
    decreases n
  {
    match n
    case Blank =>
    case Leaf(_, _) =>
    case Branch(kids, value) =>
      if key == [] {
        NormalizeGet(kids, [], q);
      } else {
        DeleteBranchGet(kids, value, key, q);
        if q != [] {
          DeleteGet(kids[key[0]], key[1..], q[1..]);
          assert q == [q[0]] + q[1..] && key == [key[0]] + key[1..];
        }
      }
    case Ext(path, child) =>
      if StartsWith(key, path) {
        PrefixSplit(q, key, |path|);
        DeleteGet(child, key[|path|..], if StartsWith(q, path) then q[|path|..] else []);
        match Delete(child, key[|path|..])
        case Leaf(k, v) => UnderPrefixLeaf(path, k, v, q);
        case Ext(p, c) => UnderPrefix(path, p, c, q);
        case _ =>
      }
  }

  lemma DeleteBranchGet(kids: seq<Node>, value: Bytes, key: Key, q: Key)
    requires Shape(Branch(kids, value)) && Deletable(Branch(kids, value), key) && key != []
    ensures Get(Delete(Branch(kids, value), key), q)
         == if q != [] && q[0] == key[0] then Get(Delete(kids[key[0]], key[1..]), q[1..]) else Get(Branch(kids, value), q)
  {
    var sub := Delete(kids[key[0]], key[1..]);
    CountUpdate(kids, key[0], sub);
    if sub == Blank && sub != kids[key[0]] {
      NormalizeGet(kids[key[0] := sub], value, q);
    }
  }

  // ---- canonicity: the map determines the tree ----

  /** Two nodes hold the same key-value map. */
  ghost predicate SameMap(a: Node, b: Node)
    requires Shape(a) && Shape(b)
  {
    forall key :: Get(a, key) == Get(b, key)
  }

  /** Every canonical node but the blank one holds some key. */
  lemma {:induction false} SomeKey(n: Node) returns (key: Key)
    requires Canonical(n) && n != Blank
    ensures Shape(n) && Get(n, key) != []
    decreases n
  {
    CanonicalShape(n);
    match n
    case Leaf(k, _) => key := k;
    case Ext(path, child) =>
      var k := SomeKey(child);
      key := path + k;
      assert key[..|path|] == path && key[|path|..] == k;
    case Branch(kids, value) =>
      if value != [] {
        key := [];
      } else {
        key := KeyInKid(n, FirstKid(kids));
      }
  }

  lemma {:induction false} KeyInKid(n: Node, i: nat) returns (key: Key)
    requires Canonical(n) && n.Branch? && i < 16 && n.kids[i] != Blank
    ensures Shape(n) && key != [] && key[0] == i && Get(n, key) != []
    decreases n, 0
  {
    CanonicalShape(n);
    var k := SomeKey(n.kids[i]);
    key := [i] + k;
    assert key[1..] == k;
  }

  /** The keys of a branch share no first nibble: for any nibble i some key does not start with it. */
  lemma KeyAvoiding(n: Node, i: Nibble) returns (key: Key)
    requires Canonical(n) && n.Branch?
    ensures Shape(n) && Get(n, key) != [] && (key == [] || key[0] != i)
  {
    CanonicalShape(n);
    if n.value != [] {
      key := [];
    } else {
      var j := CountTwo(n.kids, i);
      key := KeyInKid(n, j);
    }
  }

  lemma ExtOfKey(path: Key, child: Node, key: Key)
    requires Shape(child)
    ensures Get(Ext(path, child), path + key) == Get(child, key)
  {
    assert (path + key)[..|path|] == path && (path + key)[|path|..] == key;
  }

  /** Two extensions with the same keys have the same path: below the shorter one its branch would fork. */
  lemma ExtPathLength(p: Key, c: Node, path: Key, child: Node)
    requires Canonical(Ext(p, c)) && Shape(child)
    requires forall key :: Shape(c) && Get(Ext(p, c), key) != [] ==> StartsWith(key, path)
    ensures |path| <= |p| && path == p[..|path|]
  {
    CanonicalShape(c);
    var k := SomeKey(c);
    ExtOfKey(p, c, k);
    assert StartsWith(p + k, path);
    if |path| > |p| {
      var k' := KeyAvoiding(c, path[|p|]);
      ExtOfKey(p, c, k');
      assert false;
    }
    assert (p + k)[..|path|] == p[..|path|];
  }

  /** A branch holds two keys that differ in their first nibble, if they have one. */
  lemma ForkKeys(n: Node) returns (a: Key, b: Key)
    requires Canonical(n) && n.Branch?
    ensures Shape(n) && Get(n, a) != [] && Get(n, b) != []
    ensures b != [] && (a == [] || a[0] != b[0])
  {
    CanonicalShape(n);
    var i := FirstKid(n.kids);
    b := KeyInKid(n, i);
    a := KeyAvoiding(n, b[0]);
  }

  /** The shape of a canonical trie is a function of the map it holds. */
  lemma {:induction false} CanonicalUnique(a: Node, b: Node)
    requires Canonical(a) && Canonical(b)
    requires Shape(a) && Shape(b) && SameMap(a, b)
    ensures a == b
    decreases a, b
  {
    if a.Blank? || b.Blank? {
      if a != b {
        var k := SomeKey(if a.Blank? then b else a);
      }
    } else if a.Leaf? && b.Leaf? {
      assert Get(a, a.key) == Get(b, a.key);
    } else if a.Ext? && b.Ext? {
      SameExtensions(a, b);
      forall key ensures Get(a.child, key) == Get(b.child, key) {
        ExtOfKey(a.path, a.child, key);
        ExtOfKey(b.path, b.child, key);
      }
      CanonicalUnique(a.child, b.child);
    } else if a.Branch? && b.Branch? {
      assert Get(a, []) == Get(b, []);
      forall i | 0 <= i < 16 ensures a.kids[i] == b.kids[i] {
        forall key ensures Get(a.kids[i], key) == Get(b.kids[i], key) {
          assert Get(a, [i] + key) == Get(b, [i] + key);
          assert ([i] + key)[1..] == key;
        }
        CanonicalUnique(a.kids[i], b.kids[i]);
      }
    } else if a.Branch? || (a.Ext? && b.Leaf?) {
      DifferentKinds(b, a);
    } else {
      DifferentKinds(a, b);
    }
  }

  lemma SameExtensions(a: Node, b: Node)
    requires Canonical(a) && Canonical(b) && a.Ext? && b.Ext?
    requires Shape(a) && Shape(b) && SameMap(a, b)
    ensures a.path == b.path
  {
    forall key | Get(a, key) != [] ensures StartsWith(key, b.path) {
      assert Get(b, key) == Get(a, key);
    }
    forall key | Get(b, key) != [] ensures StartsWith(key, a.path) {
      assert Get(a, key) == Get(b, key);
    }
    ExtPathLength(a.path, a.child, b.path, b.child);
    ExtPathLength(b.path, b.child, a.path, a.child);
  }

  /** A leaf is no extension, and neither of them is a branch: the second holds two keys too far apart. */
  lemma DifferentKinds(a: Node, b: Node)
    requires Canonical(a) && Canonical(b) && Shape(a) && Shape(b)
    requires (a.Leaf? && b.Ext?) || ((a.Leaf? || a.Ext?) && b.Branch?)
    ensures !SameMap(a, b)
  {
    hide Canonical;
    if b.Ext? {
      var x, y := TwoExtKeys(b);
      assert Get(a, x) == [] || Get(a, y) == [];
    } else {
      var x, y := ForkKeys(b);
      if a.Ext? {
        NoCommonPath(a.path, x, y);
        PathNonEmpty(a);
      }
      assert Get(a, x) == [] || Get(a, y) == [];
    }
  }

  lemma PathNonEmpty(n: Node)
    requires Canonical(n) && n.Ext?
    ensures n.path != []
  {
  }

  /** An extension holds two different keys. */
  lemma TwoExtKeys(n: Node) returns (a: Key, b: Key)
    requires Canonical(n) && n.Ext?
    ensures Shape(n) && Get(n, a) != [] && Get(n, b) != [] && a != b
  {
    CanonicalShape(n);
    var x, y := ForkKeys(n.child);
    ExtOfKey(n.path, n.child, x);
    ExtOfKey(n.path, n.child, y);
    a, b := n.path + x, n.path + y;
    assert a[|n.path|..] == x && b[|n.path|..] == y;
  }

  lemma NoCommonPath(path: Key, x: Key, y: Key)
    requires y != [] && (x == [] || x[0] != y[0])
    ensures path != [] ==> !StartsWith(x, path) || !StartsWith(y, path)
  {
    if path != [] && x != [] && |path| <= |x| && |path| <= |y| {
      assert x[..|path|][0] != y[..|path|][0];
    }
  }

  // ---- whole histories ----

  datatype Op = Put(key: Key, value: Bytes) | Del(key: Key)

  /** Updates with non-empty values, and deletes. */
  predicate Legal(ops: seq<Op>) {
    forall i :: 0 <= i < |ops| && ops[i].Put? ==> ops[i].value != []
  }

  /** The trie after a run of operations, from the empty trie. */
  function Run(ops: seq<Op>): (n: Node)
    requires Legal(ops)
    ensures Canonical(n)
  {
    if ops == [] then Blank
    else
      var before := Run(ops[..|ops| - 1]);
      CanonicalShape(before);
      match ops[|ops| - 1]
      case Put(key, value) => UpdateCanonical(before, key, value); Update(before, key, value)
      case Del(key) => DeleteCanonical(before, key); Delete(before, key)
  }

  /** The plain dictionary after the same run. */
  function RunMap(ops: seq<Op>): map<Key, Bytes> {
    if ops == [] then map[]
    else
      match ops[|ops| - 1]
      case Put(key, value) => RunMap(ops[..|ops| - 1])[key := value]
      case Del(key) => RunMap(ops[..|ops| - 1]) - {key}
  }

  /** Dictionary lookup, with [] for a missing key. */
  function Lookup(m: map<Key, Bytes>, key: Key): Bytes {
    if key in m then m[key] else []
  }

  /** The trie refines the dictionary: after every run, every lookup agrees. */
  lemma {:induction false} RunRefinesMap(ops: seq<Op>, key: Key)
    requires Legal(ops)
    ensures Shape(Run(ops))
    ensures Get(Run(ops), key) == Lookup(RunMap(ops), key)
  {
    CanonicalShape(Run(ops));
    if ops != [] {
      var before := ops[..|ops| - 1];
      RunRefinesMap(before, key);
      match ops[|ops| - 1]
      case Put(k, value) => UpdateGet(Run(before), k, value, key);
      case Del(k) =>
        CanonicalDeletable(Run(before), k);
        DeleteGet(Run(before), k, key);
    }
  }

  /** Any two runs, in whatever order and with whatever deletes between, build the same trie
      if and only if they end in the same dictionary. */
  lemma RunCanonicity(ops: seq<Op>, ops': seq<Op>)
    requires Legal(ops) && Legal(ops')
    ensures Run(ops) == Run(ops') <==> RunMap(ops) == RunMap(ops')
  {
    CanonicalShape(Run(ops));
    CanonicalShape(Run(ops'));
    forall key ensures Get(Run(ops), key) == Lookup(RunMap(ops), key)
                    && Get(Run(ops'), key) == Lookup(RunMap(ops'), key) {
      RunRefinesMap(ops, key);
      RunRefinesMap(ops', key);
    }
    NoBlankValues(ops);
    NoBlankValues(ops');
    if RunMap(ops) == RunMap(ops') {
      CanonicalUnique(Run(ops), Run(ops'));
    }
    if Run(ops) == Run(ops') {
      forall key ensures Lookup(RunMap(ops), key) == Lookup(RunMap(ops'), key) {
        assert Get(Run(ops), key) == Get(Run(ops'), key);
      }
      assert forall key :: key in RunMap(ops) <==> Lookup(RunMap(ops), key) != [];
      assert forall key :: key in RunMap(ops') <==> Lookup(RunMap(ops'), key) != [];
      assert RunMap(ops) == RunMap(ops');
    }
  }

  lemma {:induction false} NoBlankValues(ops: seq<Op>)
    requires Legal(ops)
    ensures forall key :: key in RunMap(ops) ==> RunMap(ops)[key] != []
  {
    if ops != [] {
      NoBlankValues(ops[..|ops| - 1]);
    }
  }

  // ---- storing the empty value ----

  /** The key ends at a branch that keeps two items when its own value goes. */
  predicate EndsAtWideBranch(n: Node, key: Key)
    requires Shape(n)
    decreases n
  {
    match n
    case Blank => false
    case Leaf(_, _) => false
    case Ext(path, child) => StartsWith(key, path) && EndsAtWideBranch(child, key[|path|..])
    case Branch(kids, _) => if key == [] then CountKids(kids) >= 2 else EndsAtWideBranch(kids[key[0]], key[1..])
  }

  /** Exactly when an update keeps the trie canonical. `update` does not turn an empty value into a delete,
      so an empty value is harmless only where no node needs collapsing. */
  lemma {:induction false} UpdateCanonicalIff(n: Node, key: Key, value: Bytes)
    requires Canonical(n)
    ensures Shape(n) && (Canonical(Update(n, key, value)) <==> value != [] || EndsAtWideBranch(n, key))
    decreases n
  {
    CanonicalShape(n);
    if value != [] {
      UpdateCanonical(n, key, value);
    } else {
      match n
      case Blank =>
      case Branch(kids, v) =>
        if key != [] {
          UpdateCanonicalIff(kids[key[0]], key[1..], value);
          var sub := Update(kids[key[0]], key[1..], value);
          CountUpdate(kids, key[0], sub);
          UpdateNonBlank(kids[key[0]], key[1..], value);
          assert kids[key[0] := sub][key[0]] == sub;
        }
      case Leaf(k, v) => EmptyLeafUpdate(k, v, key);
      case Ext(path, child) =>
        var p := CommonPrefix(path, key);
        if p == |path| {
          UpdateCanonicalIff(child, key[p..], value);
          assert key[..p] == path;
        } else {
          EmptyExtUpdate(path, child, key);
        }
    }
  }

  lemma {:induction false} UpdateNonBlank(n: Node, key: Key, value: Bytes)
    requires Shape(n)
    ensures Update(n, key, value) != Blank
    ensures n.Branch? ==> Update(n, key, value).Branch?
    decreases n
  {
    if n.Ext? {
      UpdateNonBlank(n.child, key[CommonPrefix(n.path, key)..], value);
    }
  }

  /** A fork that stores the empty value has an empty leaf, or one item only. */
  lemma EmptyFork(i: Nibble, rest: Node, key: Key)
    requires key == [] || key[0] != i
    ensures !Canonical(Fork(i, rest, key, []))
  {
    if key == [] {
      CountNoKids();
      CountUpdate(NoKids(), i, rest);
    } else {
      assert Fork(i, rest, key, []).kids[key[0]] == Leaf(key[1..], []);
    }
  }

  lemma EmptyLeafUpdate(k: Key, v: Bytes, key: Key)
    ensures !Canonical(Update(Leaf(k, v), key, []))
  {
    var p := CommonPrefix(k, key);
    var rk, rc := key[p..], k[p..];
    if rk != [] || rc != [] {
      var split := SplitLeaf(rc, v, rk, []);
      if rc == [] {
        assert split.kids[rk[0]] == Leaf(rk[1..], []);
        assert !Canonical(split);
      } else {
        EmptyFork(rc[0], Leaf(rc[1..], v), rk);
      }
    }
  }

  lemma EmptyExtUpdate(path: Key, child: Node, key: Key)
    requires Shape(child) && CommonPrefix(path, key) < |path|
    ensures !Canonical(Update(Ext(path, child), key, []))
    ensures !StartsWith(key, path)
  {
    var p := CommonPrefix(path, key);
    var rp := path[p..];
    EmptyFork(rp[0], if |rp| == 1 then child else Ext(rp[1..], child), key[p..]);
    assert p < |key| && p < |path| ==> key[p] != path[p];
    if |path| <= |key| {
      assert key[..|path|][p] != path[p];
    }
  }
}
