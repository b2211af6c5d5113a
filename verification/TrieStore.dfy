/** The trie as it is stored: nodes as lists of byte strings, long ones behind their digest. */
module TrieStore {
  import opened ByteStrings
  import opened Nibbles
  import opened Trie
  import RlpCodec

  /** A raw node: a byte string, a digest standing for a stored node, or a list. D is the type of digests. */
  datatype Item<D> = Str(s: Bytes) | Ref(digest: D) | List(items: seq<Item<D>>)

  /** Length of the RLP encoding; a digest is a string of 32 bytes. */
  function ItemLen<D>(item: Item<D>): nat {
    match item
    case Str(s) => RlpCodec.EncodedLen(RlpCodec.Str(s))
    case Ref(_) => 33
    case List(items) => RlpCodec.PrefixLen(SumLen(items)) + SumLen(items)
  }

  function SumLen<D>(items: seq<Item<D>>): nat {
    if items == [] then 0 else ItemLen(items[0]) + SumLen(items[1..])
  }

  /** The item with its digests written out. */
  function Lower<D>(item: Item<D>, bytes: D -> Bytes): RlpCodec.Rlp {
    match item
    case Str(s) => RlpCodec.Str(s)
    case Ref(d) => RlpCodec.Str(bytes(d))
    case List(items) => RlpCodec.List(LowerAll(items, bytes))
  }

  function LowerAll<D>(items: seq<Item<D>>, bytes: D -> Bytes): seq<RlpCodec.Rlp> {
    if items == [] then [] else [Lower(items[0], bytes)] + LowerAll(items[1..], bytes)
  }

  /** The length used to decide between inlining and storing is the length of the real encoding. */
  lemma {:induction false} ItemLenIsEncodedLen<D>(item: Item<D>, bytes: D -> Bytes)
    requires forall d :: |bytes(d)| == 32
    ensures ItemLen(item) == RlpCodec.EncodedLen(Lower(item, bytes))
    decreases item, 1, 0
  {
    match item
    case Str(_) =>
    case Ref(_) =>
    case List(items) => SumLenIsTotalLen(items, bytes, item);
  }

  lemma {:induction false} SumLenIsTotalLen<D>(items: seq<Item<D>>, bytes: D -> Bytes, context: Item<D>)
    requires forall d :: |bytes(d)| == 32
    requires forall i :: 0 <= i < |items| ==> items[i] < context
    ensures SumLen(items) == RlpCodec.TotalLen(LowerAll(items, bytes))
    decreases context, 0, |items|
  {
    if items != [] {
      ItemLenIsEncodedLen(items[0], bytes);
      SumLenIsTotalLen(items[1..], bytes, context);
    }
  }

  ghost predicate Injective<D(!new)>(H: Item<D> -> D) {
    forall x, y :: H(x) == H(y) ==> x == y
  }

  function BlankItem<D>(): Item<D> { Str([]) }

  // ---- the raw form of a tree ----

  function LeafKey(key: Key): Bytes {
    var t: seq<TNibble> := key + [NIBBLE_TERMINATOR];
    PackNibbles(t)
  }

  function ExtKey(path: Key): Bytes {
    var t: seq<TNibble> := path;
    PackNibbles(t)
  }

  /** The raw node of a tree. */
  function ItemOf<D>(H: Item<D> -> D, n: Node): Item<D>
    decreases n, 0
  {
    match n
    case Blank => BlankItem()
    case Leaf(key, value) => List([Str(LeafKey(key)), Str(value)])
    case Ext(path, child) => List([Str(ExtKey(path)), RefOf(H, child)])
    case Branch(kids, value) => List(RefsOf(H, kids) + [Str(value)])
  }

  /** What a parent holds for a child: blank, the node itself below 32 bytes, or its digest. */
  function RefOf<D>(H: Item<D> -> D, n: Node): Item<D>
    decreases n, 1
  {
    if n == Blank then BlankItem()
    else if ItemLen(ItemOf(H, n)) < 32 then ItemOf(H, n)
    else Ref(H(ItemOf(H, n)))
  }

  function RefsOf<D>(H: Item<D> -> D, kids: seq<Node>): (r: seq<Item<D>>)
    ensures |r| == |kids| && forall i :: 0 <= i < |kids| ==> r[i] == RefOf(H, kids[i])
    decreases kids
  {
    if kids == [] then [] else [RefOf(H, kids[0])] + RefsOf(H, kids[1..])
  }

  /** A node is readable through its reference. */
  ghost predicate Linked<D>(H: Item<D> -> D, db: map<D, Item<D>>, n: Node) {
    n == Blank || ItemLen(ItemOf(H, n)) < 32
    || (H(ItemOf(H, n)) in db && db[H(ItemOf(H, n))] == ItemOf(H, n))
  }

  /** Everything below the node is readable. */
  ghost predicate Stored<D>(H: Item<D> -> D, db: map<D, Item<D>>, n: Node) {
    match n
    case Blank => true
    case Leaf(_, _) => true
    case Ext(_, child) => Linked(H, db, child) && Stored(H, db, child)
    case Branch(kids, _) => forall i :: 0 <= i < |kids| ==> Linked(H, db, kids[i]) && Stored(H, db, kids[i])
  }

  /** Every entry sits under its own digest. */
  ghost predicate Keyed<D>(H: Item<D> -> D, db: map<D, Item<D>>) {
    forall d :: d in db ==> H(db[d]) == d
  }

  ghost predicate Extends<D>(db: map<D, Item<D>>, db': map<D, Item<D>>) {
    forall d :: d in db ==> d in db' && db'[d] == db[d]
  }

  /** Storing under an injective digest never loses an entry. */
  lemma PutExtends<D(!new)>(H: Item<D> -> D, db: map<D, Item<D>>, item: Item<D>)
    requires Injective(H) && Keyed(H, db)
    ensures Keyed(H, db[H(item) := item]) && Extends(db, db[H(item) := item])
  {
  }

  lemma {:induction false} StoredExtends<D>(H: Item<D> -> D, db: map<D, Item<D>>, db': map<D, Item<D>>, n: Node)
    requires Stored(H, db, n) && Extends(db, db')
    ensures Stored(H, db', n)
    ensures Linked(H, db, n) ==> Linked(H, db', n)
    decreases n
  {
    match n
    case Ext(_, child) => StoredExtends(H, db, db', child);
    case Branch(kids, _) =>
      forall i | 0 <= i < |kids| ensures Linked(H, db', kids[i]) && Stored(H, db', kids[i]) {
        StoredExtends(H, db, db', kids[i]);
      }
    case _ =>
  }

  /** The packed key of a two-item node tells leaves from extensions, and gives back the path. */
  lemma UnpackKeys(key: Key)
    ensures UnpackToNibbles(LeafKey(key)) == key + [NIBBLE_TERMINATOR]
    ensures UnpackToNibbles(ExtKey(key)) == key
  {
    var t: seq<TNibble> := key + [NIBBLE_TERMINATOR];
    UnpackPack(t);
    var u: seq<TNibble> := key;
    UnpackPack(u);
  }

  /** The two items of a leaf or an extension, read back. */
  lemma ItemParts<D>(H: Item<D> -> D, a: Node, b: Node)
    requires (a.Leaf? || a.Ext?) && Shape(a) && Shape(b) && ItemOf(H, a) == ItemOf(H, b)
    ensures a.Leaf? ==> b == a
    ensures a.Ext? ==> b.Ext? && a.path == b.path && RefOf(H, a.child) == RefOf(H, b.child)
  {
    var x := ItemOf(H, a);
    assert |x.items| == 2;
    UnpackKeys(if a.Leaf? then a.key else a.path);
    if b.Leaf? {
      UnpackKeys(b.key);
      assert x.items[0] == Str(LeafKey(b.key)) && x.items[1] == Str(b.value);
    } else if b.Ext? {
      UnpackKeys(b.path);
      assert x.items[0] == Str(ExtKey(b.path)) && x.items[1] == RefOf(H, b.child);
    }
  }

  lemma BranchParts<D>(H: Item<D> -> D, a: Node, b: Node)
    requires a.Branch? && Shape(a) && Shape(b) && ItemOf(H, a) == ItemOf(H, b)
    ensures b.Branch? && a.value == b.value
    ensures forall i :: 0 <= i < 16 ==> RefOf(H, a.kids[i]) == RefOf(H, b.kids[i])
  {
    var x := ItemOf(H, a);
    assert |x.items| == 17 && x.items[16] == Str(a.value);
    assert b.Branch?;
    assert x.items[16] == Str(b.value);
    forall i | 0 <= i < 16 ensures RefOf(H, a.kids[i]) == RefOf(H, b.kids[i]) {
      assert x.items[i] == RefsOf(H, a.kids)[i];
    }
  }

  /** With an injective digest the raw node determines the tree. */
  lemma {:induction false} ItemInjective<D(!new)>(H: Item<D> -> D, a: Node, b: Node)
    requires Injective(H) && Shape(a) && Shape(b)
    ensures ItemOf(H, a) == ItemOf(H, b) ==> a == b
    ensures RefOf(H, a) == RefOf(H, b) ==> a == b
    decreases a
  {
    if ItemOf(H, a) == ItemOf(H, b) {
      if a.Branch? {
        BranchParts(H, a, b);
        forall i | 0 <= i < 16 ensures a.kids[i] == b.kids[i] {
          ItemInjective(H, a.kids[i], b.kids[i]);
        }
      } else if a != Blank {
        ItemParts(H, a, b);
        if a.Ext? { ItemInjective(H, a.child, b.child); }
      }
    }
  }

  /** The digest of the root commits to the whole map: two canonical tries have the same root digest
      exactly when they hold the same keys and values. */
  lemma RootCommits<D(!new)>(H: Item<D> -> D, a: Node, b: Node)
    requires Injective(H) && Canonical(a) && Canonical(b)
    ensures Shape(a) && Shape(b)
    ensures H(ItemOf(H, a)) == H(ItemOf(H, b)) <==> SameMap(a, b)
  {
    CanonicalShape(a);
    CanonicalShape(b);
    ItemInjective(H, a, b);
    if SameMap(a, b) {
      CanonicalUnique(a, b);
    }
  }

  /** Order independence of the root: runs of updates and deletes have equal root digests
      exactly when they end in the same dictionary. */
  lemma RunRootCommits<D(!new)>(H: Item<D> -> D, ops: seq<Op>, ops': seq<Op>)
    requires Injective(H) && Legal(ops) && Legal(ops')
    ensures H(ItemOf(H, Run(ops))) == H(ItemOf(H, Run(ops'))) <==> RunMap(ops) == RunMap(ops')
  {
    CanonicalShape(Run(ops));
    CanonicalShape(Run(ops'));
    ItemInjective(H, Run(ops), Run(ops'));
    RunCanonicity(ops, ops');
  }

  // ---- reading a raw node ----

  datatype NodeType = BLANK | LEAF | EXTENSION | BRANCH

  function GetNodeType<D>(node: Item<D>, ghost H: Item<D> -> D, ghost n: Node): (t: NodeType)
    requires Shape(n) && node == ItemOf(H, n)
    ensures t == match n case Blank => BLANK case Leaf(_, _) => LEAF case Ext(_, _) => EXTENSION case Branch(_, _) => BRANCH
  {
    UnpackKeys(if n.Leaf? then n.key else if n.Ext? then n.path else []);
    if !node.List? then BLANK
    else if |node.items| == 2 then
      var nibbles := UnpackToNibbles(node.items[0].s);
      if nibbles != [] && nibbles[|nibbles| - 1] == NIBBLE_TERMINATOR then LEAF else EXTENSION
    else BRANCH
  }

  /** The path of a two-item node. */
  function CurrKey<D>(node: Item<D>, ghost H: Item<D> -> D, ghost n: Node): (k: Key)
    requires (n.Leaf? || n.Ext?) && node == ItemOf(H, n)
    ensures k == if n.Leaf? then n.key else n.path
  {
    UnpackKeys(if n.Leaf? then n.key else n.path);
    assert n.Ext? ==> WithoutTerminator(UnpackToNibbles(node.items[0].s)) == n.path;
    WithoutTerminator(UnpackToNibbles(node.items[0].s))
  }

  function NotBlankCount<D(==)>(items: seq<Item<D>>): nat {
    if items == [] then 0 else (if items[0] == BlankItem() then 0 else 1) + NotBlankCount(items[1..])
  }

  function FirstNotBlank<D(==)>(items: seq<Item<D>>): (i: nat)
    requires NotBlankCount(items) > 0
    ensures i < |items|
  {
    if items[0] != BlankItem() then 0 else 1 + FirstNotBlank(items[1..])
  }

  lemma RefBlank<D>(H: Item<D> -> D, n: Node)
    ensures RefOf(H, n) == BlankItem() <==> n == Blank
  {
  }

  lemma {:induction false} CountItems<D>(H: Item<D> -> D, kids: seq<Node>, value: Bytes)
    ensures NotBlankCount(RefsOf(H, kids) + [Str(value)]) == Slots(kids, value)
    ensures Slots(kids, value) > 0 ==>
              FirstNotBlank(RefsOf(H, kids) + [Str(value)]) == if CountKids(kids) == 0 then |kids| else FirstKid(kids)
  {
    var items := RefsOf(H, kids) + [Str(value)];
    if kids == [] {
      assert items == [Str(value)];
      assert items[1..] == [];
    } else {
      assert items[1..] == RefsOf(H, kids[1..]) + [Str(value)];
      CountItems(H, kids[1..], value);
      RefBlank(H, kids[0]);
    }
  }

  // ---- building raw nodes ----

  function BlankItems<D>(): (items: seq<Item<D>>)
    ensures |items| == 17 && forall i :: 0 <= i < 17 ==> items[i] == BlankItem()
  {
    seq(17, (i: nat) => BlankItem())
  }

  lemma PackLeaf(key: Key)
    ensures WithTerminator(key) == key + [NIBBLE_TERMINATOR] && Packable(WithTerminator(key))
    ensures PackNibbles(WithTerminator(key)) == LeafKey(key)
  {
  }

  lemma PackExt(path: Key)
    ensures WithoutTerminator(path) == path && Packable(path) && PackNibbles(path) == ExtKey(path)
  {
  }

  lemma SetKid<D>(H: Item<D> -> D, kids: seq<Node>, value: Bytes, i: nat, kid: Node)
    requires i < |kids|
    ensures (RefsOf(H, kids) + [Str(value)])[i := RefOf(H, kid)] == RefsOf(H, kids[i := kid]) + [Str(value)]
  {
  }

  lemma SetValue<D>(H: Item<D> -> D, kids: seq<Node>, value: Bytes, value': Bytes)
    ensures (RefsOf(H, kids) + [Str(value)])[|kids| := Str(value')] == RefsOf(H, kids) + [Str(value')]
  {
  }

  lemma NoKidsItems<D>(H: Item<D> -> D)
    ensures BlankItems() == RefsOf(H, NoKids()) + [Str([])]
  {
  }

  /** A branch stays readable when one child is replaced by a readable one. */
  lemma BranchStored<D>(H: Item<D> -> D, db: map<D, Item<D>>, db': map<D, Item<D>>, kids: seq<Node>, value: Bytes,
      i: nat, kid: Node, value': Bytes)
    requires i < |kids| && Stored(H, db, Branch(kids, value)) && Extends(db, db')
    requires Stored(H, db', kid) && Linked(H, db', kid)
    ensures Stored(H, db', Branch(kids[i := kid], value'))
  {
    StoredExtends(H, db, db', Branch(kids, value));
  }

  /** The key of a node that swallows the path above it. */
  lemma JoinedKey(prefix: Key, sub: Node, newKey: seq<TNibble>)
    requires (sub.Leaf? && newKey == prefix + (sub.key + [NIBBLE_TERMINATOR])) || (sub.Ext? && newKey == prefix + sub.path)
    ensures Packable(newKey)
    ensures PackNibbles(newKey) == if sub.Leaf? then LeafKey(prefix + sub.key) else ExtKey(prefix + sub.path)
  {
    if sub.Leaf? {
      assert newKey == (prefix + sub.key) + [NIBBLE_TERMINATOR];
    }
  }

  /** The raw leaf for a key. */
  function LeafNode<D>(key: Key, value: Bytes, ghost H: Item<D> -> D): (r: Item<D>)
    ensures r == ItemOf(H, Leaf(key, value))
  {
    PackLeaf(key);
    List([Str(PackNibbles(WithTerminator(key))), Str(value)])
  }

  /** A two-item node with the same payload and a shortened path. */
  function RestNode<D>(path: Key, isInner: bool, payload: Item<D>, ghost H: Item<D> -> D, ghost rest: Node): (r: Item<D>)
    requires if isInner then rest.Ext? && rest.path == path && payload == RefOf(H, rest.child)
             else rest.Leaf? && rest.key == path && payload == Str(rest.value)
    ensures r == ItemOf(H, rest)
  {
    PackLeaf(path);
    PackExt(path);
    List([Str(PackNibbles(AdaptTerminator(path, !isInner))), payload])
  }

  /** The node below a path, for a path that swallows it. */
  function JoinedTo(prefix: Key, n: Node): Node
    requires n.Leaf? || n.Ext?
  {
    if n.Leaf? then Leaf(prefix + n.key, n.value) else Ext(prefix + n.path, n.child)
  }

  function JoinNode<D>(prefix: Key, sub: Item<D>, ghost H: Item<D> -> D, ghost n: Node): (r: Item<D>)
    requires (n.Leaf? || n.Ext?) && sub == ItemOf(H, n)
    ensures r == ItemOf(H, JoinedTo(prefix, n))
  {
    UnpackKeys(if n.Leaf? then n.key else n.path);
    var newKey: seq<TNibble> := prefix + UnpackToNibbles(sub.items[0].s);
    JoinedKey(prefix, n, newKey);
    List([Str(PackNibbles(newKey)), sub.items[1]])
  }

  function ExtNode<D>(path: Key, encoded: Item<D>, ghost H: Item<D> -> D, ghost child: Node): (r: Item<D>)
    requires encoded == RefOf(H, child)
    ensures r == ItemOf(H, Ext(path, child))
  {
    PackExt(path);
    List([Str(PackNibbles(path)), encoded])
  }

  /** Deleting below a branch, by what became of the child. */
  lemma DeleteBranchForm(kids: seq<Node>, value: Bytes, key: Key)
    requires Shape(Branch(kids, value))
    ensures key == [] ==>
              && (Deletable(Branch(kids, value), key) <==> Slots(kids, []) >= 1)
              && (Slots(kids, []) >= 1 ==> Trie.Delete(Branch(kids, value), key) == NormalizeBranch(kids, []))
    ensures key != [] && !Deletable(kids[key[0]], key[1..]) ==> !Deletable(Branch(kids, value), key)
    ensures key != [] && Deletable(kids[key[0]], key[1..]) ==>
              var kid, sub := kids[key[0]], Trie.Delete(kids[key[0]], key[1..]);
              && (Deletable(Branch(kids, value), key) <==> sub == kid || sub != Blank || Slots(kids[key[0] := sub], value) >= 1)
              && (Deletable(Branch(kids, value), key) ==>
                    Trie.Delete(Branch(kids, value), key)
                    == if sub == kid then Branch(kids, value)
                       else if sub == Blank then NormalizeBranch(kids[key[0] := sub], value)
                       else Branch(kids[key[0] := sub], value))
  {
    if key != [] && Deletable(kids[key[0]], key[1..]) {
      CountUpdate(kids, key[0], Trie.Delete(kids[key[0]], key[1..]));
      BlankStays(kids[key[0]], key[1..]);
    }
  }

  lemma BlankStays(n: Node, key: Key)
    ensures Vanishes(n, key) ==> n != Blank
  {
  }

  /** Updating a leaf or an extension, by how far the keys agree. */
  lemma UpdateKvForm(n: Node, key: Key, value: Bytes, currKey: Key)
    requires (n.Leaf? && currKey == n.key) || (n.Ext? && currKey == n.path && Shape(n.child))
    ensures var p := CommonPrefix(currKey, key);
            var remainKey, remainCurrKey := key[p..], currKey[p..];
            && (remainKey != [] && remainCurrKey != [] ==> remainKey[0] != remainCurrKey[0])
            && Shape(n) && Trie.Update(n, key, value)
               == if remainKey == [] && remainCurrKey == [] && n.Leaf? then Leaf(n.key, value)
                  else Prefixed(currKey[..p],
                                if n.Leaf? then SplitLeaf(remainCurrKey, n.value, remainKey, value)
                                else if remainCurrKey == [] then Trie.Update(n.child, remainKey, value)
                                else SplitExt(remainCurrKey, n.child, remainKey, value))
  {
    if CommonPrefix(currKey, key) == |currKey| { assert currKey[..|currKey|] == currKey; }
  }

  /** What is known of the child of an extension. */
  lemma ExtParts<D>(H: Item<D> -> D, db: map<D, Item<D>>, n: Node)
    requires Stored(H, db, n) && Shape(n)
    ensures n.Ext? ==> Linked(H, db, n.child) && Stored(H, db, n.child) && Shape(n.child)
    ensures n.Ext? ==> ItemOf(H, n).List? && |ItemOf(H, n).items| == 2 && ItemOf(H, n).items[1] == RefOf(H, n.child)
    ensures n.Leaf? ==> ItemOf(H, n).List? && |ItemOf(H, n).items| == 2 && ItemOf(H, n).items[1] == Str(n.value)
    ensures Stored(H, db, Branch(NoKids(), []))
  {
  }

  /** A two-item node without the first nibble of its path, as it hangs in a branch. */
  function RestOf(n: Node, key: Key): Node
    requires (n.Leaf? || n.Ext?) && key != []
  {
    if n.Leaf? then Leaf(key[1..], n.value) else if |key| == 1 then n.child else Ext(key[1..], n.child)
  }

  lemma SplitIsFork(n: Node, currKey: Key, key: Key, value: Bytes)
    requires (n.Leaf? || n.Ext?) && currKey != []
    ensures (if n.Ext? then SplitExt(currKey, n.child, key, value) else SplitLeaf(currKey, n.value, key, value))
         == Fork(currKey[0], RestOf(n, currKey), key, value)
  {
  }

  // ---- the trie object ----

  class TrieObject<D(==,!new)> {
    const H: Item<D> -> D
    var db: map<D, Item<D>>
    var rootNode: Item<D>
    var rootHash: D
    /** The tree that the raw root node stands for. */
    ghost var tree: Node
    /** Every tree the root has stood for. */
    ghost var roots: set<Node>

    /** The store is sound: digests do not collide and entries sit under their own digest. */
    ghost predicate Sound()
      reads this`db
    {
      Injective(H) && Keyed(H, db)
    }

    ghost predicate Readable(t: Node)
      reads this`db
    {
      Shape(t) && Stored(H, db, t) && H(ItemOf(H, t)) in db
    }

    ghost predicate Valid()
      reads this
    {
      && Sound()
      && Shape(tree) && Stored(H, db, tree)
      && rootNode == ItemOf(H, tree) && rootHash == H(rootNode)
      && tree in roots
      && forall t :: t in roots ==> t == Blank || Readable(t)
    }

    /** An empty trie over an empty store. */
    constructor (hash: Item<D> -> D)
      requires Injective(hash)
      ensures Valid() && fresh(this) && H == hash && tree == Blank && roots == {Blank}
    {
      H := hash;
      db := map[];
      rootNode := BlankItem();
      rootHash := hash(BlankItem());
      tree := Blank;
      roots := {Blank};
    }

    method EncodeNode(node: Item<D>, ghost n: Node) returns (r: Item<D>)
      requires Sound() && node == ItemOf(H, n)
      modifies this`db
      ensures Sound() && Extends(old(db), db)
      ensures r == RefOf(H, n) && Linked(H, db, n)
    {
      if node == BlankItem() {
        return BlankItem();
      }
      if ItemLen(node) < 32 {
        return node;
      }
      PutExtends(H, db, node);
      db := db[H(node) := node];
      return Ref(H(node));
    }

    method DecodeToNode(encoded: Item<D>, ghost n: Node) returns (node: Item<D>)
      requires encoded == RefOf(H, n) && Linked(H, db, n)
      ensures node == ItemOf(H, n)
    {
      if encoded == BlankItem() {
        return BlankItem();
      }
      if encoded.List? {
        return encoded;
      }
      node := db[encoded.digest];
    }

    // ---- lookup ----

    method GetNode(node: Item<D>, key: Key, ghost n: Node) returns (value: Bytes)
      requires Shape(n) && Stored(H, db, n) && node == ItemOf(H, n)
      ensures value == Trie.Get(n, key)
      decreases n
    {
      var t := GetNodeType(node, H, n);
      match t
      case BLANK => return [];
      case BRANCH =>
        if key == [] {
          return node.items[16].s;
        }
        var sub := DecodeToNode(node.items[key[0]], n.kids[key[0]]);
        value := GetNode(sub, key[1..], n.kids[key[0]]);
      case LEAF =>
        var currKey := CurrKey(node, H, n);
        return if key == currKey then node.items[1].s else [];
      case EXTENSION =>
        var currKey := CurrKey(node, H, n);
        if StartsWith(key, currKey) {
          var sub := DecodeToNode(node.items[1], n.child);
          value := GetNode(sub, key[|currKey|..], n.child);
        } else {
          return [];
        }
    }

    method Get(key: Bytes) returns (value: Bytes)
      requires Valid()
      ensures value == Trie.Get(tree, BinToNibbles(key))
    {
      value := GetNode(rootNode, BinToNibbles(key), tree);
    }

    // ---- update ----

    /** The search for the longest common prefix. */
    method FindPrefix(currKey: Key, key: Key) returns (prefixLength: nat)
      ensures prefixLength == CommonPrefix(currKey, key)
    {
      prefixLength := 0;
      var bound := if |currKey| < |key| then |currKey| else |key|;
      for i := 0 to bound
        invariant prefixLength == i && currKey[..i] == key[..i]
      {
        if key[i] != currKey[i] {
          PrefixIs(currKey, key, i);
          return;
        }
        prefixLength := i + 1;
      }
      PrefixIs(currKey, key, bound);
    }

    method UpdateNode(node: Item<D>, key: Key, value: Bytes, ghost n: Node) returns (r: Item<D>)
      requires Sound() && Shape(n) && Stored(H, db, n) && node == ItemOf(H, n)
      modifies this`db
      ensures Sound() && Extends(old(db), db)
      ensures r == ItemOf(H, Trie.Update(n, key, value)) && Stored(H, db, Trie.Update(n, key, value))
      decreases n, 1
    {
      var t := GetNodeType(node, H, n);
      match t
      case BLANK =>
        return LeafNode(key, value, H);
      case BRANCH =>
        if key == [] {
          SetValue(H, n.kids, n.value, value);
          r := List(node.items[16 := Str(value)]);
        } else {
          ghost var kid := n.kids[key[0]];
          var sub := DecodeToNode(node.items[key[0]], kid);
          var newNode := UpdateNode(sub, key[1..], value, kid);
          ghost var kid' := Trie.Update(kid, key[1..], value);
          ghost var mid := db;
          var encoded := EncodeNode(newNode, kid');
          StoredExtends(H, mid, db, kid');
          SetKid(H, n.kids, n.value, key[0], kid');
          BranchStored(H, old(db), db, n.kids, n.value, key[0], kid', n.value);
          r := List(node.items[key[0] := encoded]);
        }
      case LEAF => r := UpdateKvNode(node, key, value, n);
      case EXTENSION => r := UpdateKvNode(node, key, value, n);
    }

    method UpdateKvNode(node: Item<D>, key: Key, value: Bytes, ghost n: Node) returns (r: Item<D>)
      requires Sound() && Shape(n) && Stored(H, db, n) && node == ItemOf(H, n) && (n.Leaf? || n.Ext?)
      modifies this`db
      ensures Sound() && Extends(old(db), db)
      ensures r == ItemOf(H, Trie.Update(n, key, value)) && Stored(H, db, Trie.Update(n, key, value))
      decreases n, 0
    {
      hide ItemLen, RefOf, RefsOf, LeafKey, ExtKey, Injective, Keyed, Linked, CommonPrefix, Trie.Update, SplitLeaf,
        SplitExt;
      ExtParts(H, db, n);
      var t := GetNodeType(node, H, n);
      var currKey := CurrKey(node, H, n);
      var isInner := t == EXTENSION;
      UpdateKvForm(n, key, value, currKey);
      var prefixLength := FindPrefix(currKey, key);
      var remainKey := key[prefixLength..];
      var remainCurrKey := currKey[prefixLength..];
      var newNode: Item<D>;
      ghost var model: Node;
      if remainKey == [] && remainCurrKey == [] && !isInner {
        return List([node.items[0], Str(value)]);
      }
      if remainCurrKey == [] && isInner {
        var sub := DecodeToNode(node.items[1], n.child);
        newNode := UpdateNode(sub, remainKey, value, n.child);
        model := Trie.Update(n.child, remainKey, value);
      } else if remainCurrKey == [] {
        newNode := SplitLeafNode(node.items[1].s, remainKey, value);
        model := SplitLeaf([], n.value, remainKey, value);
      } else {
        newNode := ForkNode(node, remainCurrKey, isInner, remainKey, value, n);
        model := if isInner then SplitExt(remainCurrKey, n.child, remainKey, value)
                 else SplitLeaf(remainCurrKey, n.value, remainKey, value);
      }
      if prefixLength != 0 {
        ghost var mid := db;
        var encoded := EncodeNode(newNode, model);
        StoredExtends(H, mid, db, model);
        return ExtNode(currKey[..prefixLength], encoded, H, model);
      } else {
        return newNode;
      }
    }

    /** A new key below a leaf: the leaf's value moves into a branch. */
    method SplitLeafNode(oldValue: Bytes, remainKey: Key, value: Bytes) returns (newNode: Item<D>)
      requires Sound() && remainKey != []
      modifies this`db
      ensures Sound() && Extends(old(db), db)
      ensures newNode == ItemOf(H, SplitLeaf([], oldValue, remainKey, value))
      ensures Stored(H, db, SplitLeaf([], oldValue, remainKey, value))
    {
      hide ItemLen, RefOf, RefsOf, LeafKey, ExtKey, NoKids, Injective, Keyed;
      ghost var leaf := Leaf(remainKey[1..], value);
      var encoded := EncodeNode(LeafNode(remainKey[1..], value, H), leaf);
      NoKidsItems(H);
      SetValue(H, NoKids(), [], oldValue);
      SetKid(H, NoKids(), oldValue, remainKey[0], leaf);
      newNode := List(BlankItems()[16 := Str(oldValue)][remainKey[0] := encoded]);
    }

    /** The paths part: a branch holds the rest of the old node and the new value. */
    method ForkNode(node: Item<D>, remainCurrKey: Key, isInner: bool, remainKey: Key, value: Bytes, ghost n: Node)
      returns (newNode: Item<D>)
      requires Sound() && Shape(n) && Stored(H, db, n) && node == ItemOf(H, n)
      requires if isInner then n.Ext? else n.Leaf?
      requires remainCurrKey != [] && (remainKey == [] || remainKey[0] != remainCurrKey[0])
      modifies this`db
      ensures Sound() && Extends(old(db), db)
      ensures var m := if isInner then SplitExt(remainCurrKey, n.child, remainKey, value)
                       else SplitLeaf(remainCurrKey, n.value, remainKey, value);
              newNode == ItemOf(H, m) && Stored(H, db, m)
    {
      hide ItemOf, ItemLen, RefOf, RefsOf, NoKids, Injective, Keyed, Linked, Stored, SplitExt, SplitLeaf, Shape;
      ExtParts(H, db, n);
      SplitIsFork(n, remainCurrKey, remainKey, value);
      var slot := remainCurrKey[0];
      var encoded := EncodeRest(node, remainCurrKey, isInner, n);
      NoKidsItems(H);
      SetKid(H, NoKids(), [], slot, RestOf(n, remainCurrKey));
      BranchStored(H, old(db), db, NoKids(), [], slot, RestOf(n, remainCurrKey), []);
      newNode := ForkValue(BlankItems()[slot := encoded], remainKey, value, NoKids()[slot := RestOf(n, remainCurrKey)]);
    }

    /** The old node without the first nibble of its path, as a branch holds it. */
    method EncodeRest(node: Item<D>, remainCurrKey: Key, isInner: bool, ghost n: Node) returns (encoded: Item<D>)
      requires Sound() && Shape(n) && Stored(H, db, n) && node == ItemOf(H, n)
      requires if isInner then n.Ext? else n.Leaf?
      requires remainCurrKey != []
      modifies this`db
      ensures Sound() && Extends(old(db), db)
      ensures var rest := RestOf(n, remainCurrKey);
              encoded == RefOf(H, rest) && Linked(H, db, rest) && Stored(H, db, rest)
    {
      hide ItemLen, RefOf, RefsOf, LeafKey, ExtKey, Injective, Keyed, Linked;
      ExtParts(H, db, n);
      if |remainCurrKey| == 1 && isInner {
        encoded := node.items[1];
      } else {
        ghost var rest := RestOf(n, remainCurrKey);
        encoded := EncodeNode(RestNode(remainCurrKey[1..], isInner, node.items[1], H, rest), rest);
        StoredExtends(H, old(db), db, n);
      }
    }

    /** Puts the new value into a branch, as its own or in a leaf. */
    method ForkValue(items: seq<Item<D>>, remainKey: Key, value: Bytes, ghost kids: seq<Node>)
      returns (newNode: Item<D>)
      requires Sound() && |kids| == 16 && items == RefsOf(H, kids) + [Str([])] && Stored(H, db, Branch(kids, []))
      modifies this`db
      ensures Sound() && Extends(old(db), db)
      ensures var m := if remainKey == [] then Branch(kids, value) else Branch(kids[remainKey[0] := Leaf(remainKey[1..], value)], []);
              newNode == ItemOf(H, m) && Stored(H, db, m)
    {
      hide ItemLen, RefOf, RefsOf, LeafKey, ExtKey, Injective, Keyed;
      if remainKey == [] {
        SetValue(H, kids, [], value);
        newNode := List(items[16 := Str(value)]);
      } else {
        ghost var leaf := Leaf(remainKey[1..], value);
        var e := EncodeNode(LeafNode(remainKey[1..], value, H), leaf);
        SetKid(H, kids, [], remainKey[0], leaf);
        BranchStored(H, old(db), db, kids, [], remainKey[0], leaf, []);
        newNode := List(items[remainKey[0] := e]);
      }
    }

    // ---- delete ----

    /** False stands for the assertion that fails when a branch has lost its last item. */
    method DeleteNode(node: Item<D>, key: Key, ghost n: Node) returns (ok: bool, r: Item<D>)
      requires Sound() && Shape(n) && Stored(H, db, n) && node == ItemOf(H, n)
      modifies this`db
      ensures Sound() && Extends(old(db), db)
      ensures ok <==> Deletable(n, key)
      ensures ok ==> r == ItemOf(H, Trie.Delete(n, key)) && Stored(H, db, Trie.Delete(n, key))
      decreases n, 1
    {
      var t := GetNodeType(node, H, n);
      match t
      case BLANK => return true, BlankItem();
      case BRANCH => ok, r := DeleteBranchNode(node, key, n);
      case LEAF => ok, r := DeleteKvNode(node, key, n);
      case EXTENSION => ok, r := DeleteKvNode(node, key, n);
    }

    method NormalizeBranchNode(node: Item<D>, ghost kids: seq<Node>, ghost value: Bytes) returns (ok: bool, r: Item<D>)
      requires Sound() && Shape(Branch(kids, value)) && Stored(H, db, Branch(kids, value))
      requires node == ItemOf(H, Branch(kids, value))
      modifies this`db
      ensures Sound() && Extends(old(db), db)
      ensures ok <==> Slots(kids, value) >= 1
      ensures ok ==> r == ItemOf(H, NormalizeBranch(kids, value)) && Stored(H, db, NormalizeBranch(kids, value))
    {
      CountItems(H, kids, value);
      var notBlankItemsCount := NotBlankCount(node.items);
      if notBlankItemsCount < 1 {
        return false, node;
      }
      if notBlankItemsCount > 1 {
        return true, node;
      }
      var notBlankIndex := FirstNotBlank(node.items);
      if notBlankIndex == 16 {
        return true, LeafNode([], node.items[16].s, H);
      }
      var i: Nibble := notBlankIndex;
      ghost var kid := kids[i];
      var sub := DecodeToNode(node.items[i], kid);
      var t := GetNodeType(sub, H, kid);
      if t == LEAF || t == EXTENSION {
        return true, JoinNode([i], sub, H, kid);
      } else {
        var encoded := EncodeNode(sub, kid);
        StoredExtends(H, old(db), db, kid);
        return true, ExtNode([i], encoded, H, kid);
      }
    }

    method DeleteBranchNode(node: Item<D>, key: Key, ghost n: Node) returns (ok: bool, r: Item<D>)
      requires Sound() && Shape(n) && n.Branch? && Stored(H, db, n) && node == ItemOf(H, n)
      modifies this`db
      ensures Sound() && Extends(old(db), db)
      ensures ok <==> Deletable(n, key)
      ensures ok ==> r == ItemOf(H, Trie.Delete(n, key)) && Stored(H, db, Trie.Delete(n, key))
      decreases n, 0
    {
      hide ItemLen, RefOf, LeafKey, ExtKey, Injective, Keyed, Trie.Delete, NormalizeBranch, CountKids, Deletable,
        Vanishes;
      DeleteBranchForm(n.kids, n.value, key);
      if key == [] {
        SetValue(H, n.kids, n.value, []);
        ok, r := NormalizeBranchNode(List(node.items[16 := BlankItem()]), n.kids, []);
        return;
      }
      ghost var kid := n.kids[key[0]];
      var sub := DecodeToNode(node.items[key[0]], kid);
      var newSub;
      ok, newSub := DeleteNode(sub, key[1..], kid);
      if !ok {
        return false, node;
      }
      ghost var kid' := Trie.Delete(kid, key[1..]);
      ghost var mid := db;
      var encoded := EncodeNode(newSub, kid');
      ItemInjective(H, kid', kid);
      RefBlank(H, kid');
      StoredExtends(H, old(db), db, n);
      if encoded == node.items[key[0]] {
        return true, node;
      }
      StoredExtends(H, mid, db, kid');
      SetKid(H, n.kids, n.value, key[0], kid');
      BranchStored(H, old(db), db, n.kids, n.value, key[0], kid', n.value);
      var changed := List(node.items[key[0] := encoded]);
      if encoded == BlankItem() {
        ok, r := NormalizeBranchNode(changed, n.kids[key[0] := kid'], n.value);
      } else {
        r := changed;
      }
    }

    method DeleteKvNode(node: Item<D>, key: Key, ghost n: Node) returns (ok: bool, r: Item<D>)
      requires Sound() && Shape(n) && (n.Leaf? || n.Ext?) && Stored(H, db, n) && node == ItemOf(H, n)
      modifies this`db
      ensures Sound() && Extends(old(db), db)
      ensures ok <==> Deletable(n, key)
      ensures ok ==> r == ItemOf(H, Trie.Delete(n, key)) && Stored(H, db, Trie.Delete(n, key))
      decreases n, 0
    {
      var t := GetNodeType(node, H, n);
      var currKey := CurrKey(node, H, n);
      if !StartsWith(key, currKey) {
        return true, node;
      }
      if t == LEAF {
        return true, if key == currKey then BlankItem() else node;
      }
      var sub := DecodeToNode(node.items[1], n.child);
      var newSub;
      ok, newSub := DeleteNode(sub, key[|currKey|..], n.child);
      if !ok {
        return false, node;
      }
      ghost var sub' := Trie.Delete(n.child, key[|currKey|..]);
      ghost var mid := db;
      var encoded := EncodeNode(newSub, sub');
      ItemInjective(H, sub', n.child);
      StoredExtends(H, old(db), db, n);
      if encoded == node.items[1] {
        return true, node;
      }
      StoredExtends(H, mid, db, sub');
      var newType := GetNodeType(newSub, H, sub');
      if newType == BLANK {
        return true, BlankItem();
      }
      if newType == LEAF || newType == EXTENSION {
        return true, JoinNode(currKey, newSub, H, sub');
      } else {
        return true, ExtNode(currKey, encoded, H, sub');
      }
    }

    // ---- the dictionary interface ----

    method UpdateRootHash()
      requires Sound() && Shape(tree) && Stored(H, db, tree) && rootNode == ItemOf(H, tree)
      requires forall t :: t in roots ==> t == Blank || Readable(t)
      modifies this`db, this`rootHash, this`roots
      ensures Valid() && Extends(old(db), db) && roots == old(roots) + {tree}
    {
      var key := H(rootNode);
      PutExtends(H, db, rootNode);
      ghost var db0 := db;
      db := db[key := rootNode];
      rootHash := key;
      roots := roots + {tree};
      forall t | t in roots ensures t == Blank || Readable(t) {
        if t != Blank { StoredExtends(H, db0, db, t); }
      }
      StoredExtends(H, db0, db, tree);
    }

    /** Stores a value; the empty value is stored too. */
    method Update(key: Bytes, value: Bytes)
      requires Valid()
      modifies this
      ensures Valid()
      ensures tree == Trie.Update(old(tree), BinToNibbles(key), value)
      ensures forall q :: Trie.Get(tree, q) == if q == BinToNibbles(key) then value else old(Trie.Get(tree, q))
      ensures old(Canonical(tree)) && value != [] ==> Canonical(tree)
      ensures roots == old(roots) + {tree}
    {
      ghost var k := BinToNibbles(key);
      rootNode := UpdateNode(rootNode, BinToNibbles(key), value, tree);
      UpdateShape(tree, k, value);
      forall q ensures Trie.Get(Trie.Update(tree, k, value), q) == if q == k then value else Trie.Get(tree, q) {
        UpdateGet(tree, k, value, q);
      }
      if Canonical(tree) && value != [] { UpdateCanonical(tree, k, value); }
      tree := Trie.Update(tree, k, value);
      forall t | t in roots ensures t == Blank || Readable(t) {
        if t != Blank { StoredExtends(H, old(db), db, t); }
      }
      UpdateRootHash();
    }

    /** Deletes a key; false stands for the exception on keys above 32 bytes, and for the assertion that fails when a
        branch has lost its last item. */
    method Delete(key: Bytes) returns (ok: bool)
      requires Valid()
      modifies this
      ensures Valid() && (old(Canonical(tree)) ==> Canonical(tree))
      ensures ok <==> |key| <= 32 && Deletable(old(tree), BinToNibbles(key))
      ensures tree == if ok then Trie.Delete(old(tree), BinToNibbles(key)) else old(tree)
      ensures ok ==> forall q :: Trie.Get(tree, q) == if q == BinToNibbles(key) then [] else old(Trie.Get(tree, q))
      ensures roots == old(roots) + {tree}
    {
      if |key| > 32 {
        return false;
      }
      hide ItemLen, RefOf, ItemOf, LeafKey, ExtKey, Injective, Keyed, Trie.Delete, Trie.Get, Deletable, Vanishes,
        Shape, Canonical, Stored, Extends;
      ghost var k := BinToNibbles(key);
      var newRoot;
      ok, newRoot := DeleteNode(rootNode, BinToNibbles(key), tree);
      forall t | t in roots ensures t == Blank || Readable(t) {
        if t != Blank { StoredExtends(H, old(db), db, t); }
      }
      StoredExtends(H, old(db), db, tree);
      if !ok {
        return;
      }
      rootNode := newRoot;
      if Canonical(tree) { DeleteCanonical(tree, k); }
      forall q ensures Trie.Get(Trie.Delete(tree, k), q) == if q == k then [] else Trie.Get(tree, q) {
        DeleteGet(tree, k, q);
      }
      tree := Trie.Delete(tree, k);
      UpdateRootHash();
    }

    /** Takes the tree t that is stored under a root hash, or the empty one; false stands for the exception on a missing
        hash. The hash of an earlier root brings back exactly the tree it stood for. */
    method SetRootHash(hash: D, ghost t: Node) returns (ok: bool)
      requires Valid()
      requires hash != H(BlankItem()) && hash in db ==> Readable(t) && hash == H(ItemOf(H, t))
      modifies this`rootNode, this`rootHash, this`tree, this`roots
      ensures Valid() && (ok <==> hash == H(BlankItem()) || hash in db)
      ensures rootHash == (if ok then hash else old(rootHash)) && roots == old(roots) + {tree}
      ensures tree == if !ok then old(tree) else if hash == H(BlankItem()) then Blank else t
      ensures ok ==> forall u :: u in old(roots) && H(ItemOf(H, u)) == hash ==> u == tree
    {
      ghost var target := if hash == H(BlankItem()) then Blank else t;
      if hash == H(BlankItem()) {
        rootNode := BlankItem();
      } else {
        if hash !in db {
          return false;
        }
        rootNode := db[hash];
      }
      forall u | u in roots && H(ItemOf(H, u)) == hash ensures u == target {
        ItemInjective(H, u, target);
      }
      rootHash, tree, roots := hash, target, roots + {target};
      return true;
    }
  }

  lemma {:induction false} PrefixIs(a: Key, b: Key, p: nat)
    requires p <= |a| && p <= |b| && a[..p] == b[..p]
    requires p < |a| && p < |b| ==> a[p] != b[p]
    ensures CommonPrefix(a, b) == p
  {
    if p > 0 {
      assert a[0] == a[..p][0] && b[0] == b[..p][0];
      assert a[1..][..p - 1] == a[..p][1..] && b[1..][..p - 1] == b[..p][1..];
      PrefixIs(a[1..], b[1..], p - 1);
    }
  }
}
