/** Checkpoint scores and the fork choice of ethereum/hybrid_casper/chain.py. */
module Casper {
  import opened ByteStrings
  import opened IntMath

  /** Hashes are only compared. */
  type Hash = nat

  datatype Block = Block(hash: Hash, prevhash: Hash, number: nat)

  // ---- the tree of checkpoints ----

  /** Every checkpoint but the root has a parent with a smaller number. */
  datatype Tree = Tree(parent: map<Hash, Hash>, number: map<Hash, nat>, root: Hash)

  ghost predicate ValidTree(t: Tree) {
    && t.root !in t.parent && t.root in t.number
    && forall c :: c in t.parent ==>
         && c in t.number && t.parent[c] in t.number
         && (t.parent[c] in t.parent || t.parent[c] == t.root)
         && t.number[t.parent[c]] < t.number[c]
  }

  /** d is c or lies below it. */
  ghost predicate Below(t: Tree, c: Hash, d: Hash)
    requires ValidTree(t)
    decreases if d in t.number then t.number[d] else 0
  {
    d == c || (d in t.parent && Below(t, c, t.parent[d]))
  }

  lemma {:induction false} BelowTransitive(t: Tree, a: Hash, b: Hash, c: Hash)
    requires ValidTree(t) && Below(t, a, b) && Below(t, b, c)
    ensures Below(t, a, c)
    decreases if c in t.number then t.number[c] else 0
  {
    if c != b { BelowTransitive(t, a, b, t.parent[c]); }
  }

  // ---- scores ----

  /** Checkpoint scores, subtree scores and child pointers. */
  datatype Scores = Scores(cp: map<Hash, real>, subtree: map<Hash, real>, child: map<Hash, Hash>)

  /** A checkpoint without a score has score 0. */
  function Score(s: Scores, c: Hash): real {
    if c in s.cp then s.cp[c] else 0.0
  }

  /** The stored subtree score; every checkpoint has one. */
  function Subtree(s: Scores, c: Hash): real {
    if c in s.subtree then s.subtree[c] else 0.0
  }

  ghost predicate IsChild(t: Tree, c: Hash, p: Hash) {
    c in t.parent && t.parent[c] == p
  }

  ghost predicate HasScores(t: Tree, s: Scores) {
    && (forall c :: c in t.parent ==> c in s.subtree)
    && (forall c :: Score(s, c) >= 0.0)
    && (forall c :: c in t.parent ==> Subtree(s, c) >= 0.0)
  }

  /** The child pointer of p names a child of maximal positive subtree score; there is none when all are 0. */
  ghost predicate PointsToBest(t: Tree, s: Scores, p: Hash) {
    if p in s.child then
      && IsChild(t, s.child[p], p) && Subtree(s, s.child[p]) > 0.0
      && forall c :: IsChild(t, c, p) ==> Subtree(s, c) <= Subtree(s, s.child[p])
    else forall c :: IsChild(t, c, p) ==> Subtree(s, c) == 0.0
  }

  ghost predicate AllPoint(t: Tree, s: Scores) {
    forall p :: PointsToBest(t, s, p)
  }

  /** The subtree score is the checkpoint's own score or that of its best child. */
  ghost predicate Attained(t: Tree, s: Scores, c: Hash) {
    Subtree(s, c) == Score(s, c) || (c in s.child && Subtree(s, s.child[c]) == Subtree(s, c))
  }

  /** Own scores are bounded, but for the start of a walk that still stands there. */
  ghost predicate OwnBounded(t: Tree, s: Scores, start: Hash, it: Hash, x: real) {
    forall c :: c in t.parent ==> Score(s, c) <= Subtree(s, c) || (c == it && it == start && Score(s, c) == x)
  }

  /** Children are bounded by their parents, but for the child the walk came from. */
  ghost predicate ChildBounded(t: Tree, s: Scores, it: Hash, x: real) {
    forall c, p :: IsChild(t, c, p) && p in t.parent ==> Subtree(s, c) <= Subtree(s, p) || (p == it && Subtree(s, c) == x)
  }

  /** Subtree scores are attained, but where the walk stands with a smaller one. */
  ghost predicate AllAttained(t: Tree, s: Scores, it: Hash, x: real) {
    forall c :: c in t.parent ==> Attained(t, s, c) || (c == it && Subtree(s, c) < x)
  }

  /** What holds whenever the walk from `start` with the score x stands at `it`. */
  ghost predicate Walking(t: Tree, s: Scores, start: Hash, it: Hash, x: real) {
    && ValidTree(t) && HasScores(t, s) && AllPoint(t, s)
    && OwnBounded(t, s, start, it, x) && ChildBounded(t, s, it, x) && AllAttained(t, s, it, x)
    && (it in t.parent || it == t.root)
    && (it in t.parent && it != start ==> it in s.child && Subtree(s, s.child[it]) >= x)
    && (it in t.parent && it == start ==> Score(s, it) == x)
    && (it in t.parent ==> start in t.number && t.number[it] <= t.number[start])
  }

  /** What holds even where subtree scores are wrong: there are scores, and child pointers name children. */
  ghost predicate Loose(t: Tree, s: Scores) {
    && ValidTree(t) && HasScores(t, s)
    && forall p :: p in s.child ==> IsChild(t, s.child[p], p)
  }

  /** Subtree scores do not grow downwards. */
  ghost predicate Ordered(t: Tree, s: Scores) {
    forall c, p :: IsChild(t, c, p) && p in t.parent ==> Subtree(s, c) <= Subtree(s, p)
  }

  /** The invariant between calls. */
  ghost predicate Settled(t: Tree, s: Scores) {
    && ValidTree(t) && HasScores(t, s) && AllPoint(t, s) && Ordered(t, s)
    && (forall c :: c in t.parent ==> Score(s, c) <= Subtree(s, c) && Attained(t, s, c))
  }

  /** One turn of the walk. */
  function Raise(t: Tree, s: Scores, it: Hash, x: real): Scores
    requires it in t.parent
  {
    var p := t.parent[it];
    var s1 := s.(subtree := s.subtree[it := x]);
    if p !in s.child || Subtree(s1, s.child[p]) < x then s1.(child := s.child[p := it]) else s1
  }

  lemma RaiseScores(t: Tree, s: Scores, it: Hash, x: real)
    requires it in t.parent
    ensures var s' := Raise(t, s, it, x);
            && (forall c :: Score(s', c) == Score(s, c))
            && (forall c :: Subtree(s', c) == if c == it then x else Subtree(s, c))
            && (forall q :: q != t.parent[it] ==> (q in s'.child <==> q in s.child) && (q in s.child ==> s'.child[q] == s.child[q]))
  {
  }

  lemma RaiseLoose(t: Tree, s: Scores, it: Hash, x: real)
    requires Loose(t, s) && it in t.parent && x >= 0.0
    ensures Loose(t, Raise(t, s, it, x))
  {
    var s' := Raise(t, s, it, x);
    RaiseScores(t, s, it, x);
    hide Subtree, Score;
    assert forall c :: c in t.parent ==> c in s'.subtree;
  }

  lemma RaisePoints(t: Tree, s: Scores, it: Hash, x: real)
    requires ValidTree(t) && HasScores(t, s) && AllPoint(t, s) && it in t.parent && Subtree(s, it) < x && x > 0.0
    ensures AllPoint(t, Raise(t, s, it, x))
  {
    var s' := Raise(t, s, it, x);
    RaiseScores(t, s, it, x);
    hide Subtree, Score, Raise, ValidTree, HasScores;
    forall q ensures PointsToBest(t, s', q) {
      assert PointsToBest(t, s, q);
      if q == t.parent[it] {
        BestOfTwo(t, s, it, x);
      }
    }
  }

  /** The pointer of the parent after the comparison. */
  lemma BestOfTwo(t: Tree, s: Scores, it: Hash, x: real)
    requires it in t.parent && Subtree(s, it) < x && x > 0.0 && PointsToBest(t, s, t.parent[it])
    ensures PointsToBest(t, Raise(t, s, it, x), t.parent[it])
    ensures var s' := Raise(t, s, it, x); t.parent[it] in s'.child && Subtree(s', s'.child[t.parent[it]]) >= x
  {
  }

  lemma RaiseBounds(t: Tree, s: Scores, start: Hash, it: Hash, x: real)
    requires Walking(t, s, start, it, x) && it in t.parent && Subtree(s, it) < x && x > 0.0
    ensures var s' := Raise(t, s, it, x);
            OwnBounded(t, s', start, t.parent[it], x) && ChildBounded(t, s', t.parent[it], x)
  {
    var s' := Raise(t, s, it, x);
    RaiseScores(t, s, it, x);
    hide Subtree, Score, Raise, HasScores, AllPoint, AllAttained;
    forall c, p | IsChild(t, c, p) && p in t.parent
      ensures Subtree(s', c) <= Subtree(s', p) || (p == t.parent[it] && Subtree(s', c) == x) {
      assert Subtree(s, c) <= Subtree(s, p) || (p == it && Subtree(s, c) == x);
    }
  }

  lemma RaiseAttained(t: Tree, s: Scores, start: Hash, it: Hash, x: real)
    requires Walking(t, s, start, it, x) && it in t.parent && Subtree(s, it) < x && x > 0.0
    ensures AllAttained(t, Raise(t, s, it, x), t.parent[it], x)
  {
    var p := t.parent[it];
    var s' := Raise(t, s, it, x);
    RaiseScores(t, s, it, x);
    assert it != start ==> Subtree(s, s.child[it]) == x by {
      if it != start {
        assert PointsToBest(t, s, it);
        assert IsChild(t, s.child[it], it);
      }
    }
    ParentPointer(t, s, it, x);
    forall c | c in t.parent ensures Attained(t, s', c) || (c == p && Subtree(s', c) < x) {
      assert Attained(t, s, c) || (c == it && Subtree(s, c) < x);
      assert PointsToBest(t, s, c);
    }
  }

  /** The parent's pointer changes only where it named a smaller subtree. */
  lemma ParentPointer(t: Tree, s: Scores, it: Hash, x: real)
    requires it in t.parent
    ensures var p := t.parent[it];
            var s' := Raise(t, s, it, x);
            p in s.child && s.child[p] != it && Subtree(s, s.child[p]) >= x ==> p in s'.child && s'.child[p] == s.child[p]
  {
  }

  lemma RaiseWalks(t: Tree, s: Scores, start: Hash, it: Hash, x: real)
    requires Walking(t, s, start, it, x) && it in t.parent && Subtree(s, it) < x && x > 0.0
    ensures Walking(t, Raise(t, s, it, x), start, t.parent[it], x)
  {
    RaisePoints(t, s, it, x);
    RaiseBounds(t, s, start, it, x);
    RaiseAttained(t, s, start, it, x);
    RaiseScores(t, s, it, x);
    assert PointsToBest(t, s, t.parent[it]);
    BestOfTwo(t, s, it, x);
    hide Raise, PointsToBest, Attained, OwnBounded, ChildBounded, AllAttained, AllPoint, Score, Subtree;
  }

  /** One turn for any scores that are at least loose. */
  lemma Turn(t: Tree, s: Scores, start: Hash, it: Hash, x: real, raised: bool)
    requires Loose(t, s) && it in t.parent && it in s.subtree && s.subtree[it] < x && (raised ==> Walking(t, s, start, it, x))
    ensures Loose(t, Raise(t, s, it, x)) && (raised ==> Walking(t, Raise(t, s, it, x), start, t.parent[it], x))
  {
    hide Walking, Raise;
    RaiseLoose(t, s, it, x);
    if raised { RaiseWalks(t, s, start, it, x); }
  }

  lemma WalkEnds(t: Tree, s: Scores, start: Hash, it: Hash, x: real)
    requires Walking(t, s, start, it, x) && (it == t.root || (it in s.subtree && s.subtree[it] >= x))
    ensures Settled(t, s)
  {
    assert it in s.subtree ==> Subtree(s, it) == s.subtree[it];
    hide PointsToBest, Attained, Score, Subtree;
    forall c, p | IsChild(t, c, p) && p in t.parent ensures Subtree(s, c) <= Subtree(s, p) {
      assert Subtree(s, c) <= Subtree(s, p) || (p == it && Subtree(s, c) == x);
    }
  }

  // ---- what the scores mean ----

  /** A subtree score bounds every score below. */
  lemma {:induction false} SubtreeBounds(t: Tree, s: Scores, c: Hash, d: Hash)
    requires Settled(t, s) && c in t.parent && Below(t, c, d)
    ensures d in t.parent && Score(s, d) <= Subtree(s, d) <= Subtree(s, c)
    decreases if d in t.number then t.number[d] else 0
  {
    hide PointsToBest, Attained, AllPoint, Score, Subtree;
    if d != c {
      SubtreeBounds(t, s, c, t.parent[d]);
      assert IsChild(t, d, t.parent[d]);
    }
  }

  /** Following child pointers from c; the checkpoints passed. */
  ghost function Path(t: Tree, s: Scores, c: Hash, top: nat): (path: seq<Hash>)
    requires Settled(t, s) && c in t.number && (forall d :: d in t.number ==> t.number[d] <= top)
    ensures path != [] && path[0] == c
    decreases top - t.number[c]
  {
    assert PointsToBest(t, s, c);
    if c in s.child then [c] + Path(t, s, s.child[c], top) else [c]
  }

  lemma SettledRoot(t: Tree, s: Scores)
    requires Settled(t, s)
    ensures t.root in t.number && forall c :: c in t.parent ==> c in t.number
  {
  }

  lemma PathStep(t: Tree, s: Scores, c: Hash, top: nat)
    requires Settled(t, s) && c in t.number && (forall d :: d in t.number ==> t.number[d] <= top)
    ensures c !in s.child ==> Path(t, s, c, top) == [c]
    ensures c in s.child ==> IsChild(t, s.child[c], c) && s.child[c] in t.number && t.number[c] < t.number[s.child[c]]
    ensures c in s.child ==> Path(t, s, c, top) == [c] + Path(t, s, s.child[c], top)
  {
    assert PointsToBest(t, s, c);
  }

  // ---- descendants of a block ----

  /** d is the block h or descends from it. */
  ghost predicate Descends(blocks: map<Hash, Block>, genesis: Block, epoch: nat, h: Hash, d: Hash)
    requires ValidBlocks(blocks, genesis, epoch)
    decreases if d in blocks then blocks[d].number else 0
  {
    d == h || (d in blocks && d != genesis.hash && Descends(blocks, genesis, epoch, h, blocks[d].prevhash))
  }

  function ChildrenOf(children: map<Hash, seq<Hash>>, h: Hash): seq<Hash> {
    if h in children then children[h] else []
  }

  /** The child records list exactly the stored blocks that name a block as their parent. */
  ghost predicate ChildIndex(blocks: map<Hash, Block>, genesis: Block, children: map<Hash, seq<Hash>>) {
    forall h, c :: c in ChildrenOf(children, h) <==> c in blocks && c != genesis.hash && blocks[c].prevhash == h
  }

  lemma {:induction false} DescendsTransitive(blocks: map<Hash, Block>, genesis: Block, epoch: nat, a: Hash, b: Hash,
      c: Hash)
    requires ValidBlocks(blocks, genesis, epoch) && Descends(blocks, genesis, epoch, a, b) && Descends(blocks, genesis, epoch, b, c)
    ensures Descends(blocks, genesis, epoch, a, c)
    decreases if c in blocks then blocks[c].number else 0
  {
    if c != b { DescendsTransitive(blocks, genesis, epoch, a, b, blocks[c].prevhash); }
  }

  /** A proper descendant descends from a child. */
  lemma {:induction false} ThroughChild(blocks: map<Hash, Block>, genesis: Block, epoch: nat, h: Hash, d: Hash)
    returns (c: Hash)
    requires ValidBlocks(blocks, genesis, epoch) && Descends(blocks, genesis, epoch, h, d) && d != h
    ensures c in blocks && c != genesis.hash && blocks[c].prevhash == h && Descends(blocks, genesis, epoch, c, d)
    decreases blocks[d].number
  {
    if blocks[d].prevhash == h {
      c := d;
    } else {
      c := ThroughChild(blocks, genesis, epoch, h, blocks[d].prevhash);
    }
  }

  /** `add_child` keeps the records exact. */
  lemma IndexGrows(blocks: map<Hash, Block>, genesis: Block, children: map<Hash, seq<Hash>>, b: Block)
    requires ChildIndex(blocks, genesis, children) && b.hash !in blocks && b.hash != genesis.hash
    ensures ChildIndex(blocks[b.hash := b], genesis, children[b.prevhash := ChildrenOf(children, b.prevhash) + [b.hash]])
    ensures b.hash !in ChildrenOf(children, b.prevhash)
  {
    var children' := children[b.prevhash := ChildrenOf(children, b.prevhash) + [b.hash]];
    forall h, c ensures c in ChildrenOf(children', h) <==> c in blocks[b.hash := b] && c != genesis.hash && blocks[b.hash := b][c].prevhash == h {
      assert c in ChildrenOf(children, h) <==> c in blocks && c != genesis.hash && blocks[c].prevhash == h;
    }
  }

  lemma ChildFacts(blocks: map<Hash, Block>, genesis: Block, epoch: nat, children: map<Hash, seq<Hash>>, h: Hash,
      c: Hash)
    requires ValidBlocks(blocks, genesis, epoch) && ChildIndex(blocks, genesis, children) && c in ChildrenOf(children, h)
    ensures c in blocks && h in blocks && blocks[c].number == blocks[h].number + 1 && Descends(blocks, genesis, epoch, h, c)
  {
    assert Descends(blocks, genesis, epoch, h, h);
  }

  lemma InIndex(blocks: map<Hash, Block>, genesis: Block, children: map<Hash, seq<Hash>>, h: Hash, c: Hash)
    requires ChildIndex(blocks, genesis, children) && c in blocks && c != genesis.hash && blocks[c].prevhash == h
    ensures c in ChildrenOf(children, h)
  {
  }

  lemma HighestBlock(blocks: map<Hash, Block>) returns (top: nat)
    ensures forall h :: h in blocks ==> blocks[h].number <= top
  {
    var number := map h | h in blocks :: blocks[h].number;
    top := Highest(number);
    assert forall h :: h in blocks ==> number[h] == blocks[h].number;
  }

  lemma {:induction false} PathBelow(t: Tree, s: Scores, c: Hash, top: nat, i: nat)
    requires Settled(t, s) && c in t.number && (forall d :: d in t.number ==> t.number[d] <= top)
    requires i < |Path(t, s, c, top)|
    ensures Below(t, c, Path(t, s, c, top)[i])
    decreases top - t.number[c]
  {
    hide Path, AllPoint, Ordered, Attained, HasScores;
    PathStep(t, s, c, top);
    if i > 0 {
      var d := s.child[c];
      PathBelow(t, s, d, top, i - 1);
      assert Below(t, c, d) by { assert Below(t, c, c); }
      BelowTransitive(t, c, d, Path(t, s, d, top)[i - 1]);
    }
  }

  /** The path from c passes a checkpoint whose own score is the subtree score of c. */
  lemma {:induction false} PathAttains(t: Tree, s: Scores, c: Hash, top: nat) returns (i: nat)
    requires Settled(t, s) && c in t.parent && (forall d :: d in t.number ==> t.number[d] <= top)
    ensures i < |Path(t, s, c, top)| && Score(s, Path(t, s, c, top)[i]) == Subtree(s, c)
    decreases top - t.number[c]
  {
    PathStep(t, s, c, top);
    assert Attained(t, s, c) && PointsToBest(t, s, c);
    if Subtree(s, c) == Score(s, c) {
      i := 0;
    } else {
      var k := PathAttains(t, s, s.child[c], top);
      i := k + 1;
    }
  }

  /** For every checkpoint but the root, the subtree score is the greatest score at or below it. */
  lemma SubtreeIsMax(t: Tree, s: Scores, c: Hash, top: nat) returns (best: Hash)
    requires Settled(t, s) && c in t.parent && (forall d :: d in t.number ==> t.number[d] <= top)
    ensures Below(t, c, best) && Score(s, best) == Subtree(s, c)
    ensures forall d :: Below(t, c, d) ==> Score(s, d) <= Subtree(s, c)
  {
    var i := PathAttains(t, s, c, top);
    best := Path(t, s, c, top)[i];
    PathBelow(t, s, c, top, i);
    forall d | Below(t, c, d) ensures Score(s, d) <= Subtree(s, c) {
      SubtreeBounds(t, s, c, d);
    }
  }

  /** The walk down from any checkpoint passes one that has the greatest score at or below it. */
  lemma PathPassesBest(t: Tree, s: Scores, root: Hash, top: nat) returns (i: nat)
    requires Settled(t, s) && (root in t.parent || root == t.root) && (forall d :: d in t.number ==> t.number[d] <= top)
    ensures i < |Path(t, s, root, top)|
    ensures forall d :: Below(t, root, d) ==> Score(s, d) <= Score(s, Path(t, s, root, top)[i])
  {
    hide Path, Attained, Ordered, Score, Subtree;
    SettledRoot(t, s);
    PathStep(t, s, root, top);
    if root in t.parent {
      i := PathAttains(t, s, root, top);
      forall d | Below(t, root, d) ensures Score(s, d) <= Subtree(s, root) { SubtreeBounds(t, s, root, d); }
    } else {
      assert PointsToBest(t, s, root);
      i := 0;
      if root in s.child && Subtree(s, s.child[root]) > Score(s, root) {
        var k := PathAttains(t, s, s.child[root], top);
        i := k + 1;
      }
      forall d | Below(t, root, d) ensures Score(s, d) <= Score(s, Path(t, s, root, top)[i]) {
        if d != root {
          var c := TopBelow(t, d);
          SubtreeBounds(t, s, c, d);
        }
      }
    }
  }

  /** The ancestor right below the root. */
  lemma {:induction false} TopBelow(t: Tree, d: Hash) returns (c: Hash)
    requires ValidTree(t) && d in t.parent
    ensures c in t.parent && t.parent[c] == t.root && Below(t, c, d)
    decreases t.number[d]
  {
    if t.parent[d] == t.root {
      c := d;
    } else {
      c := TopBelow(t, t.parent[d]);
    }
  }

  // ---- growing the tree and raising a score ----

  /** A new checkpoint comes with subtree score 0 and no score of its own. */
  lemma AddLeaf(t: Tree, s: Scores, c: Hash, p: Hash, n: nat)
    requires Settled(t, s) && c !in t.number && c !in s.cp && p in t.number && t.number[p] < n
    requires p in t.parent || p == t.root
    ensures Settled(Tree(t.parent[c := p], t.number[c := n], t.root), s.(subtree := s.subtree[c := 0.0]))
  {
    var t', s' := Tree(t.parent[c := p], t.number[c := n], t.root), s.(subtree := s.subtree[c := 0.0]);
    assert forall d :: Subtree(s', d) == if d == c then 0.0 else Subtree(s, d);
    assert forall d :: Score(s', d) == Score(s, d);
    LeafPoints(t, s, c, p, n);
    LeafOrdered(t, s, c, p, n);
    LeafTree(t, s, c, p, n);
    hide ValidTree, HasScores, PointsToBest, AllPoint, Ordered, Score, Subtree, IsChild, Attained;
    forall d | d in t'.parent ensures Score(s', d) <= Subtree(s', d) && Attained(t', s', d) {
      LeafAttained(t, s, c, p, n, d);
    }
  }

  /** A subtree score of 0 that was greater stays wrong as long as its own score and those of its children stay. */
  lemma StaysWrong(t: Tree, s: Scores, s': Scores, c: Hash)
    requires Settled(t, s) && c in t.parent && Subtree(s, c) != 0.0 && Subtree(s', c) == 0.0
    requires Score(s', c) == Score(s, c) && forall e :: IsChild(t, e, c) ==> Subtree(s', e) == Subtree(s, e)
    ensures !Settled(t, s')
  {
    if Score(s, c) == Subtree(s, c) {
      assert Score(s', c) > Subtree(s', c);
    } else {
      assert Attained(t, s, c) && PointsToBest(t, s, c);
      assert IsChild(t, s.child[c], c) && Subtree(s', s.child[c]) > Subtree(s', c);
    }
  }

  /** Resetting the subtree score of a checkpoint leaves it wrong, unless it was 0. */
  lemma ResetSettled(t: Tree, s: Scores, c: Hash)
    requires Settled(t, s) && c in t.parent
    ensures Settled(t, s.(subtree := s.subtree[c := 0.0])) <==> Subtree(s, c) == 0.0
  {
    var s' := s.(subtree := s.subtree[c := 0.0]);
    if Subtree(s, c) == 0.0 {
      assert s'.subtree == s.subtree;
    } else {
      hide PointsToBest, Attained;
      StaysWrong(t, s, s', c);
    }
  }

  /** The scores are settled, or at least no more than the subtree score of one checkpoint was reset. */
  lemma SettledIsLoose(t: Tree, s: Scores, c: Hash)
    requires Settled(t, s)
    ensures Loose(t, s) && Loose(t, s.(subtree := s.subtree[c := 0.0]))
  {
    var s' := s.(subtree := s.subtree[c := 0.0]);
    assert forall d :: Subtree(s', d) == if d == c then 0.0 else Subtree(s, d);
    assert forall d :: Score(s', d) == Score(s, d);
    assert forall d :: d in s.subtree ==> d in s'.subtree;
    hide Attained, Ordered, Subtree, Score, PointsToBest;
    assert HasScores(t, s');
    forall p | p in s.child ensures IsChild(t, s.child[p], p) {
      assert PointsToBest(t, s, p);
    }
  }

  lemma LooseAt(t: Tree, s: Scores, c: Hash)
    requires Loose(t, s) && c in t.parent
    ensures c in s.subtree && (t.parent[c] in t.parent || t.parent[c] == t.root)
    ensures t.parent[c] in t.parent ==> t.parent[c] in s.subtree
    ensures t.parent[c] in s.child ==> s.child[t.parent[c]] in s.subtree
  {
  }

  lemma LooseScores(t: Tree, s: Scores, c: Hash)
    requires Loose(t, s)
    ensures ValidTree(t) && Score(s, c) >= 0.0
  {
  }

  /** Recording a score leaves what holds even for wrong subtree scores. */
  lemma RecordLoose(t: Tree, s: Scores, c: Hash, x: real)
    requires Loose(t, s) && x >= 0.0
    ensures Loose(t, s.(cp := s.cp[c := x]))
  {
    var s' := s.(cp := s.cp[c := x]);
    assert forall d :: Score(s', d) == if d == c then x else Score(s, d);
  }

  lemma LeafOrdered(t: Tree, s: Scores, c: Hash, p: Hash, n: nat)
    requires Settled(t, s) && c !in t.number && p in t.number
    ensures var t', s' := Tree(t.parent[c := p], t.number[c := n], t.root), s.(subtree := s.subtree[c := 0.0]);
            Ordered(t', s')
  {
    var t', s' := Tree(t.parent[c := p], t.number[c := n], t.root), s.(subtree := s.subtree[c := 0.0]);
    assert forall d :: Subtree(s', d) == if d == c then 0.0 else Subtree(s, d);
    hide PointsToBest, Score, Subtree, Attained, AllPoint;
    forall d, q | IsChild(t', d, q) && q in t'.parent ensures Subtree(s', d) <= Subtree(s', q) {
      if d == c {
        assert q == p && Subtree(s, p) >= 0.0;
      } else {
        assert IsChild(t, d, q) && q != c;
      }
    }
  }

  lemma LeafTree(t: Tree, s: Scores, c: Hash, p: Hash, n: nat)
    requires Settled(t, s) && c !in t.number && p in t.number && t.number[p] < n && (p in t.parent || p == t.root)
    ensures var t', s' := Tree(t.parent[c := p], t.number[c := n], t.root), s.(subtree := s.subtree[c := 0.0]);
            ValidTree(t') && HasScores(t', s')
  {
    hide AllPoint, Ordered, Attained;
    var s' := s.(subtree := s.subtree[c := 0.0]);
    assert forall d :: Subtree(s', d) == if d == c then 0.0 else Subtree(s, d);
    assert forall d :: Score(s', d) == Score(s, d);
  }

  lemma LeafPoints(t: Tree, s: Scores, c: Hash, p: Hash, n: nat)
    requires Settled(t, s) && c !in t.number && p in t.number
    ensures AllPoint(Tree(t.parent[c := p], t.number[c := n], t.root), s.(subtree := s.subtree[c := 0.0]))
  {
    var t', s' := Tree(t.parent[c := p], t.number[c := n], t.root), s.(subtree := s.subtree[c := 0.0]);
    assert forall d :: Subtree(s', d) == if d == c then 0.0 else Subtree(s, d);
    hide Subtree, Score, Attained;
    forall q ensures PointsToBest(t', s', q) {
      assert PointsToBest(t, s, q);
    }
  }

  lemma LeafAttained(t: Tree, s: Scores, c: Hash, p: Hash, n: nat, d: Hash)
    requires Settled(t, s) && c !in t.number && c !in s.cp && p in t.number && (d in t.parent || d == c)
    ensures var t', s' := Tree(t.parent[c := p], t.number[c := n], t.root), s.(subtree := s.subtree[c := 0.0]);
            Attained(t', s', d) && Score(s', d) <= Subtree(s', d)
  {
    if d != c {
      assert Attained(t, s, d) && PointsToBest(t, s, d);
    }
  }

  /** The state right after the score of c was raised: settled again, or at the start of a walk. */
  ghost predicate Raised(t: Tree, s: Scores, c: Hash) {
    if c in t.parent && Score(s, c) > Subtree(s, c) then Walking(t, s, c, c, Score(s, c))
    else Settled(t, s)
  }

  lemma RaiseScore(t: Tree, s: Scores, c: Hash, x: real)
    requires Settled(t, s) && x >= Score(s, c) && (c in t.parent || c == t.root)
    ensures Raised(t, s.(cp := s.cp[c := x]), c)
  {
    var s' := s.(cp := s.cp[c := x]);
    assert forall d :: Score(s', d) == if d == c then x else Score(s, d);
    assert forall d :: Subtree(s', d) == Subtree(s, d);
    forall q ensures PointsToBest(t, s', q) {
      assert PointsToBest(t, s, q);
    }
    hide Score, Subtree, PointsToBest;
    forall d | d in t.parent ensures Attained(t, s', d) || (d == c && Subtree(s', d) < x) {
      assert Attained(t, s, d);
    }
  }

  // ---- blocks ----

  ghost predicate ValidBlocks(blocks: map<Hash, Block>, genesis: Block, epoch: nat) {
    && epoch > 0 && genesis.number % epoch == 0
    && genesis.hash in blocks && blocks[genesis.hash] == genesis && genesis.prevhash !in blocks
    && forall h :: h in blocks ==>
         && blocks[h].hash == h
         && (h != genesis.hash ==> blocks[h].prevhash in blocks && blocks[h].number == blocks[blocks[h].prevhash].number + 1)
  }

  /** k steps towards the genesis block; None when the parent of a block is not stored. */
  function Walk(blocks: map<Hash, Block>, h: Hash, k: nat): Option<Hash>
    decreases k
  {
    if h !in blocks then None else if k == 0 then Some(h) else Walk(blocks, blocks[h].prevhash, k - 1)
  }

  function Distance(number: nat, epoch: nat): (d: nat)
    requires epoch > 0
    ensures 1 <= d <= epoch
  {
    if number % epoch == 0 then epoch else number % epoch
  }

  /** The last checkpoint strictly before a block. */
  function PrevCheckpoint(blocks: map<Hash, Block>, epoch: nat, h: Hash): Option<Hash>
    requires epoch > 0 && h in blocks
  {
    Walk(blocks, h, Distance(blocks[h].number, epoch))
  }

  predicate IsCheckpoint(blocks: map<Hash, Block>, epoch: nat, h: Hash)
    requires epoch > 0
  {
    h in blocks && blocks[h].number % epoch == 0
  }

  function ParentCheckpoint(blocks: map<Hash, Block>, epoch: nat, h: Hash): Hash
    requires epoch > 0 && h in blocks
  {
    var p := PrevCheckpoint(blocks, epoch, h);
    if p.Some? then p.value else h
  }

  /** The checkpoints among the blocks. */
  ghost function Checkpoints(blocks: map<Hash, Block>, genesis: Block, epoch: nat): Tree
    requires epoch > 0
  {
    Tree(map h | h in blocks && h != genesis.hash && IsCheckpoint(blocks, epoch, h) :: ParentCheckpoint(blocks, epoch, h),
         map h | h in blocks && IsCheckpoint(blocks, epoch, h) :: blocks[h].number,
         genesis.hash)
  }

  lemma {:induction false} AboveGenesis(blocks: map<Hash, Block>, genesis: Block, epoch: nat, h: Hash)
    requires ValidBlocks(blocks, genesis, epoch) && h in blocks
    ensures blocks[h].number >= genesis.number && (h != genesis.hash ==> blocks[h].number > genesis.number)
    decreases blocks[h].number
  {
    if h != genesis.hash { AboveGenesis(blocks, genesis, epoch, blocks[h].prevhash); }
  }

  /** Every number down to that of the genesis block is reached. */
  lemma {:induction false} WalkReaches(blocks: map<Hash, Block>, genesis: Block, epoch: nat, h: Hash, k: nat)
    requires ValidBlocks(blocks, genesis, epoch) && h in blocks && blocks[h].number - k >= genesis.number
    ensures var w := Walk(blocks, h, k); w.Some? && w.value in blocks && blocks[w.value].number == blocks[h].number - k
    decreases k
  {
    if k > 0 {
      AboveGenesis(blocks, genesis, epoch, h);
      WalkReaches(blocks, genesis, epoch, blocks[h].prevhash, k - 1);
    }
  }

  lemma {:induction false} WalkSum(blocks: map<Hash, Block>, h: Hash, i: nat, k: nat)
    requires Walk(blocks, h, i).Some?
    ensures Walk(blocks, h, i + k) == Walk(blocks, Walk(blocks, h, i).value, k)
    decreases i
  {
    if i > 0 { WalkSum(blocks, blocks[h].prevhash, i - 1, k); }
  }

  lemma MultiplesApart(x: int, y: int, m: nat)
    requires m > 0 && x % m == 0 && y % m == 0 && x < y
    ensures y - x >= m
  {
    var a, b := x / m, y / m;
    assert x == m * a && y == m * b;
    if b <= a { MulMonotone(m, b, a); }
    MulMonotone(m, a + 1, b);
    assert m * (a + 1) == m * a + m;
  }

  lemma BackToMultiple(n: nat, epoch: nat)
    requires epoch > 0
    ensures (n - Distance(n, epoch)) % epoch == 0
  {
    var a := n / epoch;
    assert n == epoch * a + n % epoch;
    if n % epoch == 0 {
      assert epoch * (a - 1) == epoch * a - epoch;
      MultipleIsZero(epoch, a - 1);
    } else {
      MultipleIsZero(epoch, a);
    }
  }

  lemma MultipleIsZero(m: nat, a: int)
    requires m > 0
    ensures (m * a) % m == 0
  {
    DivModUnique(m * a, m, a, 0);
  }

  lemma MultipleBelow(n: nat, g: nat, epoch: nat)
    requires epoch > 0 && g % epoch == 0 && g < n
    ensures n - Distance(n, epoch) >= g && (n - Distance(n, epoch)) % epoch == 0
  {
    BackToMultiple(n, epoch);
    if n - Distance(n, epoch) < g {
      MultiplesApart(n - Distance(n, epoch), g, epoch);
    }
  }

  /** Every block but the genesis block has a checkpoint before it, an epoch back when it is one itself. */
  lemma CheckpointBefore(blocks: map<Hash, Block>, genesis: Block, epoch: nat, h: Hash)
    requires ValidBlocks(blocks, genesis, epoch) && h in blocks && h != genesis.hash
    ensures var p := PrevCheckpoint(blocks, epoch, h);
            && p == Some(ParentCheckpoint(blocks, epoch, h)) && IsCheckpoint(blocks, epoch, p.value)
            && blocks[p.value].number == blocks[h].number - Distance(blocks[h].number, epoch)
  {
    AboveGenesis(blocks, genesis, epoch, h);
    MultipleBelow(blocks[h].number, genesis.number, epoch);
    WalkReaches(blocks, genesis, epoch, h, Distance(blocks[h].number, epoch));
  }

  lemma NoCheckpointBeforeGenesis(blocks: map<Hash, Block>, genesis: Block, epoch: nat)
    requires ValidBlocks(blocks, genesis, epoch)
    ensures PrevCheckpoint(blocks, epoch, genesis.hash) == None
  {
    assert Walk(blocks, genesis.prevhash, epoch - 1) == None;
  }

  /** A block between a block and its previous checkpoint has the same previous checkpoint. */
  lemma SamePrevCheckpoint(blocks: map<Hash, Block>, genesis: Block, epoch: nat, h: Hash, i: nat)
    requires ValidBlocks(blocks, genesis, epoch) && h in blocks && i < Distance(blocks[h].number, epoch)
    requires Walk(blocks, h, i).Some? && Walk(blocks, h, i).value in blocks
    requires blocks[Walk(blocks, h, i).value].number == blocks[h].number - i
    ensures PrevCheckpoint(blocks, epoch, Walk(blocks, h, i).value) == PrevCheckpoint(blocks, epoch, h)
  {
    var n := blocks[h].number;
    if i > 0 {
      DistanceInside(n, epoch, i);
      WalkSum(blocks, h, i, Distance(n, epoch) - i);
    }
  }

  lemma DistanceInside(n: nat, epoch: nat, i: nat)
    requires epoch > 0 && 0 < i < Distance(n, epoch) && i <= n
    ensures Distance(n - i, epoch) == Distance(n, epoch) - i
  {
    var a := n / epoch;
    assert n == epoch * a + n % epoch;
    if n % epoch == 0 {
      assert epoch * a - epoch == epoch * (a - 1);
      DivModUnique(n - i, epoch, a - 1, epoch - i);
    } else {
      DivModUnique(n - i, epoch, a, n % epoch - i);
    }
  }

  // ---- a new block ----

  lemma {:induction false} WalkFrame(blocks: map<Hash, Block>, genesis: Block, epoch: nat, b: Block, h: Hash, k: nat)
    requires ValidBlocks(blocks, genesis, epoch) && b.hash !in blocks && b.hash != genesis.prevhash && h in blocks
    ensures Walk(blocks[b.hash := b], h, k) == Walk(blocks, h, k)
    decreases k
  {
    if k > 0 && h != genesis.hash { WalkFrame(blocks, genesis, epoch, b, blocks[h].prevhash, k - 1); }
  }

  /** The block's parent is stored and it follows it. */
  predicate Fits(blocks: map<Hash, Block>, genesis: Block, b: Block) {
    && b.hash !in blocks && b.hash != genesis.prevhash
    && b.prevhash in blocks && b.number == blocks[b.prevhash].number + 1
  }

  /** The block is stored already. */
  predicate Known(blocks: map<Hash, Block>, genesis: Block, b: Block) {
    b.hash in blocks && blocks[b.hash] == b && b.hash != genesis.hash
  }

  lemma NewBlock(blocks: map<Hash, Block>, genesis: Block, epoch: nat, b: Block)
    requires ValidBlocks(blocks, genesis, epoch) && Fits(blocks, genesis, b)
    ensures ValidBlocks(blocks[b.hash := b], genesis, epoch)
    ensures forall h :: h in blocks ==> PrevCheckpoint(blocks[b.hash := b], epoch, h) == PrevCheckpoint(blocks, epoch, h)
  {
    var blocks' := blocks[b.hash := b];
    forall h | h in blocks ensures PrevCheckpoint(blocks', epoch, h) == PrevCheckpoint(blocks, epoch, h) {
      WalkFrame(blocks, genesis, epoch, b, h, Distance(blocks[h].number, epoch));
    }
  }

  /** The tree grows by a leaf exactly when the new block is a checkpoint. */
  lemma NewCheckpoints(blocks: map<Hash, Block>, genesis: Block, epoch: nat, b: Block)
    requires ValidBlocks(blocks, genesis, epoch) && Fits(blocks, genesis, b)
    ensures ValidBlocks(blocks[b.hash := b], genesis, epoch)
    ensures var t, t' := Checkpoints(blocks, genesis, epoch), Checkpoints(blocks[b.hash := b], genesis, epoch);
            && b.hash !in t.number
            && t' == if b.number % epoch != 0 then t
                     else Tree(t.parent[b.hash := ParentCheckpoint(blocks[b.hash := b], epoch, b.hash)], t.number[b.hash := b.number], t.root)
  {
    hide ValidBlocks, PrevCheckpoint;
    NewBlock(blocks, genesis, epoch, b);
    GenesisIn(blocks, genesis, epoch);
    var t, t' := Checkpoints(blocks, genesis, epoch), Checkpoints(blocks[b.hash := b], genesis, epoch);
    if b.number % epoch != 0 {
      assert t'.parent == t.parent && t'.number == t.number;
    } else {
      assert t'.parent == t.parent[b.hash := ParentCheckpoint(blocks[b.hash := b], epoch, b.hash)];
      assert t'.number == t.number[b.hash := b.number];
    }
  }

  lemma GenesisIn(blocks: map<Hash, Block>, genesis: Block, epoch: nat)
    requires ValidBlocks(blocks, genesis, epoch)
    ensures genesis.hash in blocks && epoch > 0
  {
  }

  lemma WalkOne(blocks: map<Hash, Block>, genesis: Block, epoch: nat, b: Hash)
    requires ValidBlocks(blocks, genesis, epoch) && b in blocks
    ensures Walk(blocks, b, 1) == if blocks[b].prevhash in blocks then Some(blocks[b].prevhash) else None
    ensures blocks[b].prevhash in blocks ==> b != genesis.hash && blocks[blocks[b].prevhash].number == blocks[b].number - 1
  {
    assert blocks[b].prevhash in blocks ==> Walk(blocks, blocks[b].prevhash, 0) == Some(blocks[b].prevhash);
  }

  /** Running out of blocks before the distance is walked is having no previous checkpoint. */
  lemma WalkAll(blocks: map<Hash, Block>, genesis: Block, epoch: nat, h: Hash, i: nat, b: Hash)
    requires ValidBlocks(blocks, genesis, epoch) && h in blocks && i < Distance(blocks[h].number, epoch)
    requires Walk(blocks, h, i) == Some(b) && b in blocks
    ensures blocks[b].prevhash !in blocks ==> PrevCheckpoint(blocks, epoch, h) == None
  {
    var d := Distance(blocks[h].number, epoch);
    WalkSum(blocks, h, i, d - i);
    if blocks[b].prevhash !in blocks {
      assert Walk(blocks, blocks[b].prevhash, d - i - 1) == None;
    }
  }

  lemma PrevIsWalk(blocks: map<Hash, Block>, epoch: nat, h: Hash)
    requires epoch > 0 && h in blocks
    ensures PrevCheckpoint(blocks, epoch, h) == Walk(blocks, h, Distance(blocks[h].number, epoch))
  {
  }

  lemma RaisedFacts(t: Tree, s: Scores, c: Hash)
    requires Raised(t, s, c) && (c in t.parent || c == t.root) && c in s.cp
    ensures c in t.parent ==> c in s.subtree
    ensures c !in t.parent || (c in s.subtree && s.cp[c] <= s.subtree[c]) ==> Settled(t, s)
    ensures c in t.parent && s.cp[c] > s.subtree[c] ==> Walking(t, s, c, c, s.cp[c])
  {
  }

  lemma TreeParent(blocks: map<Hash, Block>, genesis: Block, epoch: nat, c: Hash)
    requires ValidBlocks(blocks, genesis, epoch) && c in Checkpoints(blocks, genesis, epoch).parent
    ensures c in blocks && PrevCheckpoint(blocks, epoch, c) == Some(Checkpoints(blocks, genesis, epoch).parent[c])
    ensures var p := Checkpoints(blocks, genesis, epoch).parent[c]; p in blocks && blocks[p].number < blocks[c].number
  {
    CheckpointBefore(blocks, genesis, epoch, c);
  }

  /** The subtree scores of blocks with a number above n are the same. */
  ghost predicate KeptAbove(blocks: map<Hash, Block>, n: nat, s: Scores, s': Scores) {
    forall d :: d in blocks && blocks[d].number > n ==> Subtree(s', d) == Subtree(s, d)
  }

  lemma KeptRaise(blocks: map<Hash, Block>, n: nat, s0: Scores, t: Tree, s: Scores, it: Hash, x: real)
    requires KeptAbove(blocks, n, s0, s) && it in t.parent && it in blocks && blocks[it].number <= n
    ensures KeptAbove(blocks, n, s0, Raise(t, s, it, x))
  {
    RaiseScores(t, s, it, x);
    hide Subtree, Raise;
  }

  lemma KeptSelf(blocks: map<Hash, Block>, n: nat, s: Scores)
    ensures KeptAbove(blocks, n, s, s)
  {
  }

  lemma ResetMeans(s: Scores, s1: Scores, c: Hash)
    requires s1.subtree == s.subtree[c := 0.0]
    ensures forall d :: Subtree(s1, d) == if d == c then 0.0 else Subtree(s, d)
  {
  }

  /** A reset score that was greater than 0 stays wrong when scores change only from the previous checkpoint upwards. */
  lemma ResetStays(blocks: map<Hash, Block>, genesis: Block, epoch: nat, s: Scores, s1: Scores, s': Scores, c: Hash)
    requires ValidBlocks(blocks, genesis, epoch) && IsCheckpoint(blocks, epoch, c) && c != genesis.hash
    requires Settled(Checkpoints(blocks, genesis, epoch), s) && Subtree(s, c) != 0.0 && s1.subtree == s.subtree[c := 0.0]
    requires var p := PrevCheckpoint(blocks, epoch, c);
             && p.Some? && p.value in blocks && KeptAbove(blocks, blocks[p.value].number, s1, s')
             && forall d :: d != p.value ==> Score(s', d) == Score(s, d)
    ensures !Settled(Checkpoints(blocks, genesis, epoch), s')
  {
    GenesisIn(blocks, genesis, epoch);
    hide ValidBlocks, Settled, PrevCheckpoint;
    var t := Checkpoints(blocks, genesis, epoch);
    TreeParent(blocks, genesis, epoch, c);
    ResetMeans(s, s1, c);
    hide Subtree, Score, Checkpoints;
    forall e | IsChild(t, e, c) ensures Subtree(s', e) == Subtree(s, e) {
      TreeParent(blocks, genesis, epoch, e);
    }
    StaysWrong(t, s, s', c);
  }

  /** Subtree scores only grow, and a child pointer moves only away from a subtree with less than the new score. */
  ghost predicate Moved(s: Scores, s': Scores, x: real) {
    && (forall c :: Subtree(s', c) >= Subtree(s, c))
    && forall p :: p in s.child ==> p in s'.child && (s'.child[p] == s.child[p] || Subtree(s, s.child[p]) < x)
  }

  lemma MovedSelf(s: Scores, x: real)
    ensures Moved(s, s, x)
  {
  }

  lemma MovedRaise(s0: Scores, t: Tree, s: Scores, it: Hash, x: real)
    requires Moved(s0, s, x) && it in t.parent && it in s.subtree && s.subtree[it] < x
    ensures Moved(s0, Raise(t, s, it, x), x)
  {
    RaiseScores(t, s, it, x);
    var s' := Raise(t, s, it, x);
    forall p | p in s0.child ensures p in s'.child && (s'.child[p] == s0.child[p] || Subtree(s0, s0.child[p]) < x) {
      assert Subtree(s, s0.child[p]) >= Subtree(s0, s0.child[p]);
    }
  }

  lemma TreeRoot(blocks: map<Hash, Block>, genesis: Block, epoch: nat)
    requires epoch > 0
    ensures var t := Checkpoints(blocks, genesis, epoch); t.root == genesis.hash && t.root !in t.parent
  {
  }

  lemma RaiseForm(t: Tree, s: Scores, it: Hash, x: real)
    requires it in t.parent
    ensures var p := t.parent[it];
            var subtree := s.subtree[it := x];
            p in s.child && s.child[p] in subtree ==>
              Raise(t, s, it, x) == Scores(s.cp, subtree, if subtree[s.child[p]] < x then s.child[p := it] else s.child)
    ensures t.parent[it] !in s.child ==> Raise(t, s, it, x) == Scores(s.cp, s.subtree[it := x], s.child[t.parent[it] := it])
  {
  }

  lemma FitsFacts(blocks: map<Hash, Block>, genesis: Block, b: Block)
    ensures Fits(blocks, genesis, b) ==> b.hash !in blocks
  {
  }

  lemma InTree(blocks: map<Hash, Block>, genesis: Block, epoch: nat, c: Hash)
    requires epoch > 0 && IsCheckpoint(blocks, epoch, c)
    ensures var t := Checkpoints(blocks, genesis, epoch); c in t.parent || c == t.root
  {
  }

  /** The scores stay settled when a block comes in. */
  lemma NewSettled(blocks: map<Hash, Block>, genesis: Block, epoch: nat, b: Block, s: Scores)
    requires ValidBlocks(blocks, genesis, epoch) && Fits(blocks, genesis, b)
    requires Settled(Checkpoints(blocks, genesis, epoch), s) && b.hash !in s.cp
    ensures Settled(Checkpoints(blocks[b.hash := b], genesis, epoch),
                    if b.number % epoch == 0 then s.(subtree := s.subtree[b.hash := 0.0]) else s)
  {
    hide Settled;
    NewCheckpoints(blocks, genesis, epoch, b);
    if b.number % epoch == 0 {
      var blocks' := blocks[b.hash := b];
      NewBlock(blocks, genesis, epoch, b);
      CheckpointBefore(blocks', genesis, epoch, b.hash);
      var p := ParentCheckpoint(blocks', epoch, b.hash);
      assert p != b.hash;
      AddLeaf(Checkpoints(blocks, genesis, epoch), s, b.hash, p, b.number);
    }
  }

  /** A block that comes in again resets the subtree score of a checkpoint. */
  lemma StoredAgain(blocks: map<Hash, Block>, genesis: Block, epoch: nat, b: Block, s: Scores)
    requires epoch > 0 && Known(blocks, genesis, b) && Settled(Checkpoints(blocks, genesis, epoch), s)
    ensures var s' := if b.number % epoch == 0 then s.(subtree := s.subtree[b.hash := 0.0]) else s;
            Settled(Checkpoints(blocks, genesis, epoch), s') <==> b.number % epoch != 0 || Subtree(s, b.hash) == 0.0
  {
    hide Settled, Subtree;
    if b.number % epoch == 0 {
      ResetSettled(Checkpoints(blocks, genesis, epoch), s, b.hash);
    }
  }

  ghost function Highest(number: map<Hash, nat>): (top: nat)
    ensures forall d :: d in number ==> number[d] <= top
    decreases |number|
  {
    if number == map[] then 0
    else
      var c :| c in number;
      var rest := Highest(number - {c});
      assert forall d :: d in number && d != c ==> d in number - {c};
      if number[c] > rest then number[c] else rest
  }

  // ---- the chain object ----

  class Chain {
    const genesis: Block
    const epochLength: nat
    var blocks: map<Hash, Block>
    var cpScore: map<Hash, real>
    var cpSubtreeScore: map<Hash, real>
    var cpChild: map<Hash, Hash>
    var prevCp: map<Hash, Hash>
    var children: map<Hash, seq<Hash>>

    ghost function Table(): Scores
      reads this
    {
      Scores(cpScore, cpSubtreeScore, cpChild)
    }

    ghost function CpTree(): Tree
      requires epochLength > 0
      reads this
    {
      Checkpoints(blocks, genesis, epochLength)
    }

    /** The blocks are linked, and every remembered previous checkpoint is the right one. */
    ghost predicate Linked()
      reads this
    {
      && ValidBlocks(blocks, genesis, epochLength)
      && (forall h :: h in prevCp ==> h in blocks && PrevCheckpoint(blocks, epochLength, h) == Some(prevCp[h]))
      && (forall h :: h in cpScore ==> h in blocks)
      && genesis.hash in cpSubtreeScore
      && ChildIndex(blocks, genesis, children)
    }

    ghost predicate Valid()
      reads this
    {
      Linked() && Settled(CpTree(), Table())
    }

    constructor (genesis: Block, epochLength: nat)
      requires epochLength > 0 && genesis.number % epochLength == 0 && genesis.prevhash != genesis.hash
      ensures Valid() && this.genesis == genesis && this.epochLength == epochLength
      ensures blocks == map[genesis.hash := genesis] && cpScore == map[]
    {
      this.genesis := genesis;
      this.epochLength := epochLength;
      blocks := map[genesis.hash := genesis];
      cpScore := map[];
      cpSubtreeScore := map[genesis.hash := 2.0 / 3.0];
      cpChild := map[];
      prevCp := map[];
      children := map[];
      new;
      assert CpTree().parent == map[];
      assert genesis.hash in CpTree().number;
    }

    /** Walks back to the previous checkpoint and remembers it; None is the exception for the genesis block. */
    method GetPrevCheckpointHash(h: Hash) returns (r: Option<Hash>)
      requires Linked() && h in blocks
      modifies `prevCp
      ensures Linked() && r == PrevCheckpoint(blocks, epochLength, h)
    {
      hide PrevCheckpoint, ValidBlocks;
      GenesisIn(blocks, genesis, epochLength);
      if h in prevCp {
        return Some(prevCp[h]);
      }
      var distance := Distance(blocks[h].number, epochLength);
      if h != genesis.hash { CheckpointBefore(blocks, genesis, epochLength, h); }
      var b := h;
      for i := 0 to distance
        invariant b in blocks && Walk(blocks, h, i) == Some(b) && blocks[b].number == blocks[h].number - i
        invariant prevCp == old(prevCp)
      {
        SamePrevCheckpoint(blocks, genesis, epochLength, h, i);
        if b in prevCp {
          r := Some(prevCp[b]);
          prevCp := prevCp[h := prevCp[b]];
          return;
        }
        WalkSum(blocks, h, i, 1);
        WalkOne(blocks, genesis, epochLength, b);
        WalkAll(blocks, genesis, epochLength, h, i, b);
        if blocks[b].prevhash !in blocks {
          return None;
        }
        b := blocks[b].prevhash;
      }
      PrevIsWalk(blocks, epochLength, h);
      prevCp := prevCp[h := b];
      return Some(b);
    }

    /** Carries a score up to the root or to a checkpoint that has at least as much below it: if only this score was
        raised, all are settled again. No score below changes. False stands for the early return. */
    method UpdateSubtreeScoresAndChildPointers(checkpointHash: Hash) returns (updated: bool)
      requires Linked() && Loose(CpTree(), Table())
      requires IsCheckpoint(blocks, epochLength, checkpointHash) && checkpointHash in cpScore
      modifies `cpSubtreeScore, `cpChild, `prevCp
      ensures Linked() && CpTree() == old(CpTree()) && Loose(CpTree(), Table())
      ensures old(Raised(CpTree(), Table(), checkpointHash)) ==> Valid()
      ensures KeptAbove(blocks, blocks[checkpointHash].number, old(Table()), Table())
      ensures Moved(old(Table()), Table(), cpScore[checkpointHash])
    {
      hide PrevCheckpoint, ValidBlocks, Settled, Walking, Raised, Checkpoints, Raise, ChildIndex, Loose, ValidTree,
        HasScores, Subtree, Score, KeptAbove, Moved;
      GenesisIn(blocks, genesis, epochLength);
      TreeRoot(blocks, genesis, epochLength);
      InTree(blocks, genesis, epochLength, checkpointHash);
      ghost var t, s0 := CpTree(), Table();
      if checkpointHash in t.parent { LooseAt(t, s0, checkpointHash); }
      KeptSelf(blocks, blocks[checkpointHash].number, s0);
      ghost var raised := Raised(t, s0, checkpointHash);
      if raised { RaisedFacts(t, s0, checkpointHash); }
      var newCpScore := cpScore[checkpointHash];
      MovedSelf(s0, newCpScore);
      if newCpScore <= cpSubtreeScore[checkpointHash] {
        return false;
      }
      if checkpointHash == genesis.hash {
        return true;
      }
      var cpIterator := checkpointHash;
      while cpIterator != genesis.hash && cpSubtreeScore[cpIterator] < newCpScore
        invariant Linked() && CpTree() == t && cpScore == old(cpScore)
        invariant Loose(t, Table()) && (raised ==> Walking(t, Table(), checkpointHash, cpIterator, newCpScore))
        invariant cpIterator in t.parent || cpIterator == genesis.hash
        invariant cpIterator in cpSubtreeScore && t.root == genesis.hash
        invariant cpIterator in blocks && blocks[cpIterator].number <= blocks[checkpointHash].number
        invariant KeptAbove(blocks, blocks[checkpointHash].number, s0, Table()) && Moved(s0, Table(), newCpScore)
        decreases blocks[cpIterator].number
      {
        ghost var s := Table();
        LooseAt(t, s, cpIterator);
        TreeParent(blocks, genesis, epochLength, cpIterator);
        Turn(t, s, checkpointHash, cpIterator, newCpScore, raised);
        KeptRaise(blocks, blocks[checkpointHash].number, s0, t, s, cpIterator, newCpScore);
        MovedRaise(s0, t, s, cpIterator, newCpScore);
        RaiseForm(t, s, cpIterator, newCpScore);
        cpSubtreeScore := cpSubtreeScore[cpIterator := newCpScore];
        var parent := GetPrevCheckpointHash(cpIterator);
        var parentIterator := parent.value;
        if parentIterator !in cpChild || cpSubtreeScore[cpChild[parentIterator]] < newCpScore {
          cpChild := cpChild[parentIterator := cpIterator];
        }
        assert Table() == Raise(t, s, cpIterator, newCpScore);
        cpIterator := parentIterator;
      }
      if raised { WalkEnds(t, Table(), checkpointHash, cpIterator, newCpScore); }
      return true;
    }

    /** Storing the block keeps the scores right: it is new, or its subtree score is not reset, or was 0. */
    predicate Keeps(b: Block)
      requires epochLength > 0
      reads this
    {
      Fits(blocks, genesis, b) || b.number % epochLength != 0 || Subtree(Scores(cpScore, cpSubtreeScore, cpChild), b.hash) == 0.0
    }

    /** Stores a block; a checkpoint gets the subtree score 0, even when it is stored a second time. */
    method StoreBlock(b: Block)
      requires Valid() && (Fits(blocks, genesis, b) || Known(blocks, genesis, b))
      modifies `blocks, `cpSubtreeScore, `children
      ensures blocks == old(blocks)[b.hash := b] && (Valid() <==> old(Keeps(b)))
      ensures Linked() && Loose(CpTree(), Table())
      ensures !old(Keeps(b)) ==> CpTree() == old(CpTree()) && cpSubtreeScore == old(cpSubtreeScore)[b.hash := 0.0]
    {
      hide PrevCheckpoint, ValidBlocks, Settled, Checkpoints, ParentCheckpoint, Fits, ChildIndex, Subtree;
      FitsFacts(blocks, genesis, b);
      GenesisIn(blocks, genesis, epochLength);
      ghost var t, s := CpTree(), Table();
      if b.hash !in blocks {
        NewBlock(blocks, genesis, epochLength, b);
        NewSettled(blocks, genesis, epochLength, b, s);
        IndexGrows(blocks, genesis, children, b);
      } else {
        assert blocks[b.hash := b] == blocks;
        InIndex(blocks, genesis, children, b.prevhash, b.hash);
        StoredAgain(blocks, genesis, epochLength, b, s);
        SettledIsLoose(t, s, b.hash);
      }
      blocks := blocks[b.hash := b];
      if b.hash !in ChildrenOf(children, b.prevhash) {
        children := children[b.prevhash := ChildrenOf(children, b.prevhash) + [b.hash]];
      }
      if b.number % epochLength == 0 {
        cpSubtreeScore := cpSubtreeScore[b.hash := 0.0];
      }
      if old(Keeps(b)) { SettledIsLoose(CpTree(), Table(), b.hash); }
    }

    /** Records a score for a checkpoint if it is better, or the first one. */
    method RecordScore(cpHash: Hash, newScore: real)
      requires Linked() && Loose(CpTree(), Table()) && IsCheckpoint(blocks, epochLength, cpHash) && newScore >= 0.0
      modifies `cpScore
      ensures Linked() && Loose(CpTree(), Table()) && cpHash in cpScore
      ensures old(Valid()) ==> Raised(CpTree(), Table(), cpHash)
      ensures var known := Score(old(Table()), cpHash);
              cpScore == if known < newScore || known == 0.0 then old(cpScore)[cpHash := newScore] else old(cpScore)
    {
      hide PrevCheckpoint, ValidBlocks, Settled, Raised, Checkpoints;
      GenesisIn(blocks, genesis, epochLength);
      InTree(blocks, genesis, epochLength, cpHash);
      ghost var s := Table();
      LooseScores(CpTree(), s, cpHash);
      var known := if cpHash in cpScore then cpScore[cpHash] else 0.0;
      ghost var score := if known < newScore || known == 0.0 then newScore else known;
      if old(Valid()) { RaiseScore(CpTree(), s, cpHash, score); }
      RecordLoose(CpTree(), s, cpHash, score);
      if known < newScore || known == 0.0 {
        cpScore := cpScore[cpHash := newScore];
      } else {
        assert s.cp[cpHash := known] == s.cp;
      }
    }

    /** The part of `add_block` that keeps the scores: stores the block, records the score the contract reports for its
        previous checkpoint, and carries it upwards. A reset score below that checkpoint stays wrong. */
    method AddBlock(b: Block, newScore: real)
      requires Valid() && (Fits(blocks, genesis, b) || Known(blocks, genesis, b)) && newScore >= 0.0
      modifies this
      ensures (Valid() <==> old(Keeps(b))) && Linked() && blocks == old(blocks)[b.hash := b]
      ensures var p := ParentCheckpoint(blocks, epochLength, b.hash);
              var known := Score(old(Table()), p);
              cpScore == if known < newScore || known == 0.0 then old(cpScore)[p := newScore] else old(cpScore)
    {
      hide PrevCheckpoint, ValidBlocks, Settled, Raised, Checkpoints, ParentCheckpoint, Fits, Loose, KeptAbove;
      FitsFacts(blocks, genesis, b);
      GenesisIn(blocks, genesis, epochLength);
      ghost var s := Table();
      StoreBlock(b);
      CheckpointBefore(blocks, genesis, epochLength, b.hash);
      TreeRoot(blocks, genesis, epochLength);
      var cp := GetPrevCheckpointHash(b.hash);
      var cpHash := cp.value;
      InTree(blocks, genesis, epochLength, cpHash);
      RecordScore(cpHash, newScore);
      ghost var s1 := Table();
      var updated := UpdateSubtreeScoresAndChildPointers(cpHash);
      if !old(Keeps(b)) {
        ResetStays(blocks, genesis, epochLength, s, s1, Table(), b.hash);
      }
    }

    /** Follows the child pointers; somewhere on the way is a checkpoint with the greatest score at or below the root. */
    method ChooseHeadCheckpoint(rootHash: Hash) returns (head: Hash, ghost path: seq<Hash>)
      requires Valid() && (rootHash in CpTree().parent || rootHash == genesis.hash)
      ensures head !in cpChild
      ensures path != [] && path[0] == rootHash && path[|path| - 1] == head
      ensures forall i :: 0 <= i < |path| - 1 ==> path[i] in cpChild && cpChild[path[i]] == path[i + 1]
      ensures exists i :: 0 <= i < |path| && forall d :: Below(CpTree(), rootHash, d) ==> Score(Table(), d) <= Score(Table(), path[i])
    {
      hide ValidBlocks, Checkpoints, Settled, Path, Score, Below, ChildIndex, Subtree, IsCheckpoint;
      GenesisIn(blocks, genesis, epochLength);
      TreeRoot(blocks, genesis, epochLength);
      ghost var t, s := CpTree(), Table();
      ghost var top := Highest(t.number);
      SettledRoot(t, s);
      path := [rootHash];
      head := rootHash;
      ghost var full := Path(t, s, rootHash, top);
      while head in cpChild
        invariant head in t.number && |path| > 0 && path[0] == rootHash && path[|path| - 1] == head
        invariant forall i :: 0 <= i < |path| - 1 ==> path[i] in cpChild && cpChild[path[i]] == path[i + 1]
        invariant path[..|path| - 1] + Path(t, s, head, top) == full
        decreases top - t.number[head]
      {
        PathStep(t, s, head, top);
        head := cpChild[head];
        path := path + [head];
      }
      PathStep(t, s, head, top);
      assert path == full;
      ghost var i := PathPassesBest(t, s, rootHash, top);
    }

    /** The heaviest block at or below a block, by total difficulty. */
    method FindHeaviestPowBlock(root: Hash, difficulty: Hash -> int) returns (maxchild: Hash, maxscore: int)
      requires Linked() && root in blocks
      ensures Descends(blocks, genesis, epochLength, root, maxchild) && maxscore == difficulty(maxchild)
      ensures forall d :: Descends(blocks, genesis, epochLength, root, d) ==> difficulty(d) <= maxscore
      ensures maxchild == root || FirstHeaviest(root, maxchild, difficulty)
    {
      ghost var top := HighestBlock(blocks);
      maxchild, maxscore := HeaviestBelow(root, difficulty, top);
    }

    /** The block itself is lighter, and so is all below the children that come before the one this block descends from. */
    ghost predicate FirstHeaviest(root: Hash, best: Hash, difficulty: Hash -> int)
      requires ValidBlocks(blocks, genesis, epochLength)
      reads this
    {
      var cs := ChildrenOf(children, root);
      && difficulty(root) < difficulty(best)
      && exists i :: 0 <= i < |cs| && BestFrom(root, best, difficulty, i)
    }

    ghost predicate BestFrom(root: Hash, best: Hash, difficulty: Hash -> int, i: nat)
      requires ValidBlocks(blocks, genesis, epochLength) && i < |ChildrenOf(children, root)|
      reads this
    {
      var cs := ChildrenOf(children, root);
      && Descends(blocks, genesis, epochLength, cs[i], best)
      && forall j, d :: 0 <= j < i && Descends(blocks, genesis, epochLength, cs[j], d) ==> difficulty(d) < difficulty(best)
    }

    /** The recursion over the children; no block has a number above `top`. */
    method HeaviestBelow(root: Hash, difficulty: Hash -> int, ghost top: nat) returns (maxchild: Hash, maxscore: int)
      requires Linked() && root in blocks && (forall h :: h in blocks ==> blocks[h].number <= top)
      ensures Descends(blocks, genesis, epochLength, root, maxchild) && maxscore == difficulty(maxchild)
      ensures forall d :: Descends(blocks, genesis, epochLength, root, d) ==> difficulty(d) <= maxscore
      ensures maxchild == root || FirstHeaviest(root, maxchild, difficulty)
      decreases top - blocks[root].number
    {
      hide ValidBlocks, PrevCheckpoint, ChildIndex;
      maxchild, maxscore := root, difficulty(root);
      var cs := ChildrenOf(children, root);
      for i := 0 to |cs|
        invariant Descends(blocks, genesis, epochLength, root, maxchild) && maxscore == difficulty(maxchild) >= difficulty(root)
        invariant forall j, d :: 0 <= j < i && Descends(blocks, genesis, epochLength, cs[j], d) ==> difficulty(d) <= maxscore
        invariant maxchild == root || FirstHeaviest(root, maxchild, difficulty)
      {
        ChildFacts(blocks, genesis, epochLength, children, root, cs[i]);
        var maxc, s := HeaviestBelow(cs[i], difficulty, top);
        if s > maxscore {
          DescendsTransitive(blocks, genesis, epochLength, root, cs[i], maxc);
          maxchild, maxscore := maxc, s;
          assert BestFrom(root, maxc, difficulty, i);
        }
      }
      forall d | Descends(blocks, genesis, epochLength, root, d) ensures difficulty(d) <= maxscore {
        if d != root {
          var c := ThroughChild(blocks, genesis, epochLength, root, d);
          InIndex(blocks, genesis, children, root, c);
        }
      }
    }
  }
}
