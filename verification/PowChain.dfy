/** PowChain: the block database of ethereum/pow/chain.py, its canonical index, scores and queues. */
module PowChain {
  import opened ByteStrings

  type Hash = nat
  type Tx = nat

  /** A block by what the chain looks at; transactions by their hashes. */
  datatype Block = Block(hash: Hash, prevhash: Hash, number: nat, timestamp: int, difficulty: nat, transactions: seq<Tx>)

  datatype Position = Position(number: nat, index: nat)

  /** What `apply_block` makes of a block: it is applied, it is rejected and undone, or it is rejected by an exception that is
      not caught there, so that the state stays as it was left. */
  datatype Verdict = Applies | Undoes | Escapes

  /** The header checks with the seal do not depend on the state. The verdict is for the state stored for the block's parent, if
      the list is empty, and else for that of the first block of the list, as applying all of the list in turn has left it. */
  datatype Rules = Rules(wellFormed: Block -> bool, verdict: (seq<Block>, Block) -> Verdict)

  /** A header's hash commits to the whole block, and the genesis block is not one that can be added. */
  ghost predicate Commits(rules: Rules, genesis: Block) {
    && (forall a, b :: rules.wellFormed(a) && rules.wellFormed(b) && a.hash == b.hash ==> a == b)
    && (forall a :: rules.wellFormed(a) ==> a.hash != genesis.hash)
  }

  /** The block follows its stored parent, and its checks succeed. */
  predicate Fits(rules: Rules, blocks: map<Hash, Block>, b: Block) {
    b.prevhash in blocks && b.number == blocks[b.prevhash].number + 1 && rules.wellFormed(b)
  }

  /** It can be applied to the stored state of its parent, too. */
  predicate Acceptable(rules: Rules, blocks: map<Hash, Block>, b: Block) {
    Fits(rules, blocks, b) && rules.verdict([], b) == Applies
  }

  // ---- what the database holds ----

  ghost predicate BlocksOk(rules: Rules, genesis: Block, blocks: map<Hash, Block>) {
    && genesis.hash in blocks && blocks[genesis.hash] == genesis
    && forall h :: h in blocks ==> blocks[h].hash == h && (h != genesis.hash ==> Fits(rules, blocks, blocks[h]))
  }

  /** The difference of two scores: the difficulty and a random part of at most a millionth of it. */
  predicate ScoreStep(below: int, difficulty: nat, score: int) {
    below + difficulty <= score <= below + difficulty + difficulty / 1000000
  }

  ghost predicate ScoresOk(genesis: Block, blocks: map<Hash, Block>, scores: map<Hash, int>) {
    && genesis.hash in scores && scores[genesis.hash] == 0
    && forall h :: h in scores ==> h in blocks && (h == genesis.hash || Scored(blocks, scores, h))
  }

  ghost predicate Scored(blocks: map<Hash, Block>, scores: map<Hash, int>, h: Hash)
    requires h in scores && h in blocks
  {
    blocks[h].prevhash in scores && ScoreStep(scores[blocks[h].prevhash], blocks[h].difficulty, scores[h])
  }

  /** The canonical hash at a height; the genesis block is indexed at height 0, whatever its number. */
  function At(genesis: Block, index: map<nat, Hash>, n: nat): Option<Hash> {
    if n == genesis.number then Some(genesis.hash) else if n in index then Some(index[n]) else None
  }

  ghost predicate OnChain(genesis: Block, blocks: map<Hash, Block>, index: map<nat, Hash>, n: nat) {
    && n > 0 && n in index && index[n] in blocks && index[n] != genesis.hash && blocks[index[n]].number == n
    && At(genesis, index, n - 1) == Some(blocks[index[n]].prevhash)
  }

  /** The index holds a chain from the genesis block to the head and nothing above it. */
  ghost predicate IndexOk(genesis: Block, blocks: map<Hash, Block>, index: map<nat, Hash>, head: Hash) {
    && head in blocks && 0 in index && index[0] == genesis.hash
    && genesis.number <= blocks[head].number
    && (forall n :: n in index ==> n == 0 || genesis.number < n <= blocks[head].number)
    && (forall n :: genesis.number < n <= blocks[head].number ==> OnChain(genesis, blocks, index, n))
    && At(genesis, index, blocks[head].number) == Some(head)
  }

  /** Every transaction entry points at a canonical block that holds the transaction there. */
  ghost predicate TxOk(blocks: map<Hash, Block>, index: map<nat, Hash>, txindex: map<Tx, Position>) {
    forall t :: t in txindex ==> PointsAt(blocks, index, t, txindex[t])
  }

  ghost predicate PointsAt(blocks: map<Hash, Block>, index: map<nat, Hash>, t: Tx, p: Position) {
    && p.number in index && index[p.number] in blocks
    && p.index < |blocks[index[p.number]].transactions| && blocks[index[p.number]].transactions[p.index] == t
  }

  function ChildrenOf(children: map<Hash, seq<Hash>>, h: Hash): seq<Hash> {
    if h in children then children[h] else []
  }

  /** The child index lists exactly the stored children, each once. */
  ghost predicate ChildrenOk(genesis: Block, blocks: map<Hash, Block>, children: map<Hash, seq<Hash>>) {
    forall p :: Lists(genesis, blocks, p, ChildrenOf(children, p))
  }

  ghost predicate Lists(genesis: Block, blocks: map<Hash, Block>, p: Hash, cs: seq<Hash>) {
    && (forall c :: c in cs <==> c in blocks && c != genesis.hash && blocks[c].prevhash == p)
    && (forall i, j :: 0 <= i < j < |cs| ==> cs[i] != cs[j])
  }

  /** Blocks wait under the hash of a parent that is not stored, except for the parents being served. */
  ghost predicate QueueOk(blocks: map<Hash, Block>, queue: map<Hash, seq<Block>>, received: set<Block>, busy: set<Hash>)
  {
    && (forall p :: p in queue && p in blocks ==> p in busy)
    && (forall p, i :: p in queue && 0 <= i < |queue[p]| ==>
          queue[p][i].prevhash == p && queue[p][i] in received)
  }

  /** No block that waits for its parent is from after the time. */
  ghost predicate NoneEarly(queue: map<Hash, seq<Block>>, time: int) {
    forall p, i :: p in queue && 0 <= i < |queue[p]| ==> queue[p][i].timestamp <= time
  }

  /** Blocks of the set that are from after the time were delayed. */
  ghost predicate Delays(before: seq<Block>, after: seq<Block>, some: set<Block>, time: int) {
    && multiset(before) <= multiset(after)
    && (forall b :: b in after ==> b in before || (b in some && b.timestamp > time))
    && (forall i :: 0 <= i < |before| && before[i].timestamp <= time ==> i < |after| && after[i] == before[i])
    && (forall i :: 0 <= i < |after| && after[i].timestamp <= time ==> i < |before| && before[i] == after[i])
  }

  /** The block stands before the first one that is not earlier. */
  predicate InsertedAt(before: seq<Block>, after: seq<Block>, b: Block, i: nat)
    requires i <= |before|
  {
    && after == before[..i] + [b] + before[i..] && (forall j :: 0 <= j < i ==> before[j].timestamp < b.timestamp)
    && (i < |before| ==> b.timestamp <= before[i].timestamp)
  }

  ghost function All(queue: seq<Block>): set<Block> {
    set b | b in queue
  }

  /** Of the blocks that had come in, some were handled, and the others delayed. */
  ghost predicate Handles(before: seq<Block>, after: seq<Block>, had: set<Block>, has: set<Block>, time: int) {
    has <= had && (forall b :: b in had ==> b in has || b in after) && Delays(before, after, had, time)
  }

  predicate Stored(blocks: map<Hash, Block>, b: Block) {
    b.hash in blocks && blocks[b.hash] == b
  }

  /** A received block is stored if it can be, unless the head state was spoiled; it waits if its parent is missing or being
      served. */
  ghost predicate ReceivedOk(rules: Rules, genesis: Block, blocks: map<Hash, Block>, queue: map<Hash, seq<Block>>,
      received: set<Block>, busy: set<Hash>, spoiled: bool)
  {
    && (forall h :: h in blocks && h != genesis.hash ==> blocks[h] in received && (spoiled || rules.verdict([], blocks[h]) == Applies))
    && (forall b :: b in received ==> HandledOk(rules, blocks, queue, b, busy, spoiled))
  }

  ghost predicate HandledOk(rules: Rules, blocks: map<Hash, Block>, queue: map<Hash, seq<Block>>, b: Block,
      busy: set<Hash>, spoiled: bool)
  {
    if b.prevhash !in blocks then b.prevhash in queue && b in queue[b.prevhash]
    else Settled(rules, blocks, b, spoiled) || (b.prevhash in busy && b.prevhash in queue && b in queue[b.prevhash])
  }

  ghost predicate Settled(rules: Rules, blocks: map<Hash, Block>, b: Block, spoiled: bool) {
    spoiled || (Acceptable(rules, blocks, b) ==> Stored(blocks, b))
  }

  /** What was tried on the head state since it was left changed, after one more block. */
  function Try(tried: seq<Block>, v: Verdict, b: Block): seq<Block> {
    if tried == [] && v != Escapes then [] else tried + [b]
  }

  /** The head state is as stored until a block escapes on it. */
  ghost predicate EscapedOk(rules: Rules, received: set<Block>, escaped: set<Block>, tried: seq<Block>) {
    && escaped <= received
    && (forall b :: b in escaped ==> rules.verdict([], b) == Escapes)
    && (tried != [] ==> escaped != {})
  }

  // ---- consequences ----

  /** k steps towards the genesis block. */
  function Back(blocks: map<Hash, Block>, h: Hash, k: nat): Option<Hash>
    decreases k
  {
    if h !in blocks then None else if k == 0 then Some(h) else Back(blocks, blocks[h].prevhash, k - 1)
  }

  /** What the index holds at a height is the head's ancestor there. */
  lemma {:induction false} IndexHoldsAncestors(genesis: Block, blocks: map<Hash, Block>, index: map<nat, Hash>,
      head: Hash, n: nat, m: nat)
    requires IndexOk(genesis, blocks, index, head) && genesis.hash in blocks
    requires genesis.number <= n <= m <= blocks[head].number
    ensures At(genesis, index, m).Some? && Back(blocks, At(genesis, index, m).value, m - n) == At(genesis, index, n)
    decreases m
  {
    assert m > genesis.number ==> OnChain(genesis, blocks, index, m);
    if n < m {
      IndexHoldsAncestors(genesis, blocks, index, head, n, m - 1);
    }
  }

  lemma CanonicalIndex(genesis: Block, blocks: map<Hash, Block>, index: map<nat, Hash>, head: Hash, n: nat)
    requires IndexOk(genesis, blocks, index, head) && genesis.hash in blocks
    ensures genesis.number < n <= blocks[head].number ==> n in index && Some(index[n]) == Back(blocks, head, blocks[head].number - n)
    ensures n > blocks[head].number && n > 0 ==> n !in index
  {
    if genesis.number < n <= blocks[head].number {
      IndexHoldsAncestors(genesis, blocks, index, head, n, blocks[head].number);
      assert OnChain(genesis, blocks, index, n);
    }
  }

  /** Everything received that can be stored is, and nothing else is stored. */
  ghost predicate Complete(rules: Rules, genesis: Block, blocks: map<Hash, Block>, received: set<Block>) {
    && BlocksOk(rules, genesis, blocks)
    && (forall h :: h in blocks && h != genesis.hash ==> blocks[h] in received && rules.verdict([], blocks[h]) == Applies)
    && (forall b :: b in received && Acceptable(rules, blocks, b) ==> Stored(blocks, b))
  }

  lemma {:induction false} StoredInBoth(rules: Rules, genesis: Block, one: map<Hash, Block>, two: map<Hash, Block>,
      received: set<Block>, h: Hash)
    requires Complete(rules, genesis, one, received) && Complete(rules, genesis, two, received) && h in one
    ensures h in two && two[h] == one[h]
    decreases one[h].number
  {
    if h != genesis.hash {
      StoredInBoth(rules, genesis, one, two, received, one[h].prevhash);
      assert Acceptable(rules, two, one[h]);
    }
  }

  lemma CompleteUnique(rules: Rules, genesis: Block, one: map<Hash, Block>, two: map<Hash, Block>, received: set<Block>)
    requires Complete(rules, genesis, one, received) && Complete(rules, genesis, two, received)
    ensures one == two
  {
    forall h | h in one ensures h in two && two[h] == one[h] { StoredInBoth(rules, genesis, one, two, received, h); }
    forall h | h in two ensures h in one && two[h] == one[h] { StoredInBoth(rules, genesis, two, one, received, h); }
  }

  // ---- a new block ----

  lemma NewBlock(rules: Rules, genesis: Block, blocks: map<Hash, Block>, b: Block)
    requires Commits(rules, genesis) && BlocksOk(rules, genesis, blocks) && Fits(rules, blocks, b)
    ensures BlocksOk(rules, genesis, blocks[b.hash := b])
    ensures forall h :: h in blocks ==> blocks[b.hash := b][h] == blocks[h]
    ensures b.hash != genesis.hash && b.prevhash != b.hash
  {
  }

  lemma AboveGenesis(rules: Rules, genesis: Block, blocks: map<Hash, Block>, h: Hash)
    requires BlocksOk(rules, genesis, blocks) && h in blocks
    ensures blocks[h].number >= genesis.number && (h != genesis.hash ==> blocks[h].number > genesis.number)
    decreases blocks[h].number
  {
    if h != genesis.hash { AboveGenesis(rules, genesis, blocks, blocks[h].prevhash); }
  }

  lemma IndexFrame(genesis: Block, blocks: map<Hash, Block>, more: map<Hash, Block>, index: map<nat, Hash>, head: Hash,
      txindex: map<Tx, Position>)
    requires IndexOk(genesis, blocks, index, head) && TxOk(blocks, index, txindex)
    requires forall h :: h in blocks ==> h in more && more[h] == blocks[h]
    ensures IndexOk(genesis, more, index, head) && TxOk(more, index, txindex)
  {
    forall n | genesis.number < n <= more[head].number ensures OnChain(genesis, more, index, n) {
      assert OnChain(genesis, blocks, index, n);
    }
    forall t | t in txindex ensures PointsAt(more, index, t, txindex[t]) {
      assert PointsAt(blocks, index, t, txindex[t]);
    }
  }

  lemma IndexExtends(genesis: Block, blocks: map<Hash, Block>, index: map<nat, Hash>, head: Hash, b: Block)
    requires IndexOk(genesis, blocks, index, head) && Stored(blocks, b) && b.hash != genesis.hash
    requires b.prevhash == head && b.number == blocks[head].number + 1
    ensures IndexOk(genesis, blocks, index[b.number := b.hash], b.hash) && b.number !in index
  {
    var index' := index[b.number := b.hash];
    forall n | genesis.number < n <= b.number ensures OnChain(genesis, blocks, index', n) {
      if n < b.number { assert OnChain(genesis, blocks, index, n); }
    }
  }

  /** The entries after those of one more canonical block were written. */
  ghost predicate TxPut(before: map<Tx, Position>, number: nat, txs: seq<Tx>, after: map<Tx, Position>) {
    && (forall t :: t in after <==> t in before || t in txs)
    && (forall t :: t in after ==>
          if t in txs then after[t].number == number && after[t].index < |txs| && txs[after[t].index] == t else after[t] == before[t])
  }

  lemma PutOk(blocks: map<Hash, Block>, index: map<nat, Hash>, before: map<Tx, Position>, b: Block,
      after: map<Tx, Position>)
    requires TxOk(blocks, index, before) && b.number !in index && Stored(blocks, b)
    requires TxPut(before, b.number, b.transactions, after)
    ensures TxOk(blocks, index[b.number := b.hash], after)
  {
    forall t | t in after ensures PointsAt(blocks, index[b.number := b.hash], t, after[t]) {
      if t !in b.transactions { assert PointsAt(blocks, index, t, before[t]); }
    }
  }

  lemma DropOk(blocks: map<Hash, Block>, index: map<nat, Hash>, txindex: map<Tx, Position>, n: nat)
    requires TxOk(blocks, index, txindex) && n in index && index[n] in blocks
    ensures TxOk(blocks, index - {n}, txindex - set t | t in blocks[index[n]].transactions)
  {
    var after := txindex - set t | t in blocks[index[n]].transactions;
    forall t | t in after ensures PointsAt(blocks, index - {n}, t, after[t]) {
      assert PointsAt(blocks, index, t, txindex[t]);
    }
  }

  // ---- reorganisation ----

  /** The new blocks by number, from b up to the new head. */
  ghost predicate NewChain(genesis: Block, blocks: map<Hash, Block>, chain: map<nat, Block>, b: Block, top: Block) {
    && b.number <= top.number
    && (forall n :: n in chain <==> b.number <= n <= top.number)
    && chain[b.number] == b && chain[top.number] == top
    && (forall n :: n in chain ==> Stored(blocks, chain[n]) && chain[n].number == n && chain[n].hash != genesis.hash)
    && (forall n :: b.number < n <= top.number ==> chain[n].prevhash == chain[n - 1].hash)
  }

  /** The index already holds the parent of b just below it. */
  ghost predicate Joined(genesis: Block, index: map<nat, Hash>, b: Block) {
    b.number > genesis.number && At(genesis, index, b.number - 1) == Some(b.prevhash)
  }

  /** Heights from b's up to i are rewritten. */
  ghost predicate Rewritten(before: map<nat, Hash>, chain: map<nat, Block>, first: nat, i: nat, after: map<nat, Hash>) {
    && (forall n :: n in after <==> if first <= n < i then n in chain else n in before)
    && (forall n :: n in after ==> after[n] == if first <= n < i && n in chain then chain[n].hash else if n in before then before[n] else 0)
  }

  lemma NewChainGrows(genesis: Block, blocks: map<Hash, Block>, chain: map<nat, Block>, b: Block, top: Block,
      parent: Block)
    requires NewChain(genesis, blocks, chain, b, top) && Stored(blocks, parent) && parent.hash != genesis.hash
    requires b.prevhash == parent.hash && b.number == parent.number + 1
    ensures NewChain(genesis, blocks, chain[parent.number := parent], parent, top)
  {
  }

  lemma IndexRewritten(genesis: Block, blocks: map<Hash, Block>, before: map<nat, Hash>, head: Hash,
      chain: map<nat, Block>, b: Block, top: Block, i: nat, after: map<nat, Hash>)
    requires IndexOk(genesis, blocks, before, head) && NewChain(genesis, blocks, chain, b, top)
    requires Joined(genesis, before, b)
    requires Rewritten(before, chain, b.number, i, after) && i >= b.number && i !in chain && i !in before
    ensures IndexOk(genesis, blocks, after, top.hash)
  {
    assert i > genesis.number && (i <= blocks[head].number ==> OnChain(genesis, blocks, before, i));
    forall n | genesis.number < n <= top.number ensures OnChain(genesis, blocks, after, n) {
      RewrittenOnChain(genesis, blocks, before, head, chain, b, top, i, after, n);
    }
  }

  lemma RewrittenOnChain(genesis: Block, blocks: map<Hash, Block>, before: map<nat, Hash>, head: Hash,
      chain: map<nat, Block>, b: Block, top: Block, i: nat, after: map<nat, Hash>, n: nat)
    requires IndexOk(genesis, blocks, before, head) && NewChain(genesis, blocks, chain, b, top)
    requires Joined(genesis, before, b)
    requires Rewritten(before, chain, b.number, i, after) && i > top.number && i > blocks[head].number
    requires genesis.number < n <= top.number
    ensures OnChain(genesis, blocks, after, n)
  {
    if n < b.number {
      JoinedBelow(genesis, blocks, before, head, b);
      assert OnChain(genesis, blocks, before, n);
    } else {
      assert chain[n].number == n;
    }
  }

  lemma JoinedBelow(genesis: Block, blocks: map<Hash, Block>, index: map<nat, Hash>, head: Hash, b: Block)
    requires IndexOk(genesis, blocks, index, head) && Joined(genesis, index, b)
    ensures b.number - 1 <= blocks[head].number
  {
  }

  // ---- scores ----

  /** Blocks without a score, the lowest first; the parent of the lowest is `key`, and the last one is `top`. */
  ghost predicate Unscored(genesis: Block, blocks: map<Hash, Block>, scores: map<Hash, int>, fills: seq<Block>,
      key: Hash, top: Block)
  {
    && (forall j :: 0 <= j < |fills| ==> Stored(blocks, fills[j]) && fills[j].hash !in scores && fills[j].hash != genesis.hash)
    && (forall j :: 0 <= j < |fills| ==> fills[j].prevhash == Below(fills, key, j) && fills[j].number == fills[0].number + j)
    && Below(fills, key, |fills|) == top.hash
  }

  function Below(fills: seq<Block>, key: Hash, j: nat): Hash
    requires j <= |fills|
  {
    if j == 0 then key else fills[j - 1].hash
  }

  lemma UnscoredGrows(genesis: Block, blocks: map<Hash, Block>, scores: map<Hash, int>, fills: seq<Block>, key: Hash,
      top: Block, b: Block)
    requires Unscored(genesis, blocks, scores, fills, key, top) && Stored(blocks, b) && b.hash == key
    requires key !in scores && key != genesis.hash
    requires fills != [] ==> fills[0].number == b.number + 1
    ensures Unscored(genesis, blocks, scores, [b] + fills, b.prevhash, top)
  {
    var more := [b] + fills;
    forall j | 0 <= j < |more|
      ensures Stored(blocks, more[j]) && more[j].hash !in scores && more[j].hash != genesis.hash
      ensures more[j].prevhash == Below(more, b.prevhash, j) && more[j].number == more[0].number + j {
      if j > 0 {
        assert more[j] == fills[j - 1];
        assert fills[j - 1].prevhash == Below(fills, key, j - 1);
      }
    }
  }

  lemma ScoreAdded(genesis: Block, blocks: map<Hash, Block>, scores: map<Hash, int>, b: Block, score: int)
    requires ScoresOk(genesis, blocks, scores) && Stored(blocks, b) && b.hash !in scores && b.hash != genesis.hash
    requires b.prevhash in scores && ScoreStep(scores[b.prevhash], b.difficulty, score)
    ensures ScoresOk(genesis, blocks, scores[b.hash := score])
  {
    var more := scores[b.hash := score];
    forall h | h in more ensures h in blocks && (h == genesis.hash || Scored(blocks, more, h)) {
      assert h != b.hash && h != genesis.hash ==> Scored(blocks, scores, h);
    }
  }

  lemma ScoresFrame(genesis: Block, blocks: map<Hash, Block>, more: map<Hash, Block>, scores: map<Hash, int>)
    requires ScoresOk(genesis, blocks, scores) && forall h :: h in blocks ==> h in more && more[h] == blocks[h]
    ensures ScoresOk(genesis, more, scores)
  {
    forall h | h in scores ensures h in more && (h == genesis.hash || Scored(more, scores, h)) {
      assert h == genesis.hash || Scored(blocks, scores, h);
    }
  }

  ghost predicate Best(scores: map<Hash, int>, head: Hash) {
    head in scores && forall h :: h in scores ==> scores[h] <= scores[head]
  }

  // ---- scores and work ----

  /** The sum of the difficulties from a block down to the genesis block, which counts nothing. */
  ghost function Work(rules: Rules, genesis: Block, blocks: map<Hash, Block>, h: Hash): nat
    requires BlocksOk(rules, genesis, blocks) && h in blocks
    decreases blocks[h].number
  {
    if h == genesis.hash then 0 else Work(rules, genesis, blocks, blocks[h].prevhash) + blocks[h].difficulty
  }

  /** A score is the work and at most a millionth more. */
  lemma {:induction false} ScoreIsWork(rules: Rules, genesis: Block, blocks: map<Hash, Block>, scores: map<Hash, int>,
      h: Hash)
    requires BlocksOk(rules, genesis, blocks) && ScoresOk(genesis, blocks, scores) && h in scores
    ensures var work := Work(rules, genesis, blocks, h); work <= scores[h] && (scores[h] - work) * 1000000 <= work
    decreases blocks[h].number
  {
    if h != genesis.hash {
      assert Scored(blocks, scores, h);
      ScoreIsWork(rules, genesis, blocks, scores, blocks[h].prevhash);
    }
  }

  // ---- the chain object ----

  class Chain {
    const genesis: Block
    const rules: Rules
    var localtime: int
    var blocks: map<Hash, Block>
    var index: map<nat, Hash>
    var scores: map<Hash, int>
    var children: map<Hash, seq<Hash>>
    var txindex: map<Tx, Position>
    var headHash: Hash
    var timeQueue: seq<Block>
    var parentQueue: map<Hash, seq<Block>>
    /** What was tried on the head state since a rejected block left it changed. */
    var tried: seq<Block>
    /** The blocks received that are not delayed. */
    ghost var received: set<Block>
    /** The blocks that left the head state changed. */
    ghost var escaped: set<Block>

    /** The block as it will be stored is known along with those that are. */
    ghost predicate Knows(known: map<Hash, Block>, b: Block)
      reads `blocks
    {
      && BlocksOk(rules, genesis, known) && Stored(known, b)
      && (forall h :: h in blocks ==> h in known && known[h] == blocks[h])
      && (forall h :: h in known ==> h in blocks || h == b.hash)
      && (b.hash == genesis.hash || b.prevhash in blocks)
    }

    lemma KnowsFacts(b: Block, known: map<Hash, Block>)
      requires Knows(known, b)
      ensures Stored(known, b) && forall h :: h in blocks ==> h in known && known[h] == blocks[h]
      ensures forall h :: h in known ==> (h in blocks || h == b.hash) && known[h].hash == h
    {
    }

    /** The memoised score of a block: scores missing on the way down are filled in on the way up. */
    method GetScore(block: Block, ghost known: map<Hash, Block>) returns (score: int)
      requires ScoresOk(genesis, known, scores) && (block.hash !in scores ==> Knows(known, block))
      modifies `scores
      ensures ScoresOk(genesis, known, scores)
      ensures block.hash in scores && score == scores[block.hash]
      ensures forall h :: h in old(scores) ==> h in scores && scores[h] == old(scores)[h]
    {
      hide ScoresOk, Unscored, BlocksOk;
      GenesisScored(genesis, known, scores);
      var fills: seq<Block> := [];
      var key := block.hash;
      var b := block;
      NoneUnscored(genesis, known, scores, block);
      while key !in scores
        invariant scores == old(scores) && (key == block.hash || block.hash !in scores)
        invariant block.hash !in scores ==> Stored(known, b) && key == b.hash && b.number <= block.number
        invariant Unscored(genesis, known, scores, fills, key, block)
        invariant fills != [] ==> fills[0].number == b.number + 1
        decreases b.number
      {
        UnscoredGrows(genesis, known, scores, fills, key, block, b);
        ParentKnown(rules, genesis, blocks, known, block, b);
        fills := [b] + fills;
        key := b.prevhash;
        b := blocks[key];
      }
      score := scores[key];
      ghost var was := scores;
      for j := 0 to |fills|
        invariant ScoresOk(genesis, known, scores)
        invariant forall h :: h in was ==> h in scores && scores[h] == was[h]
        invariant forall h :: h in scores ==> h in was || exists k :: 0 <= k < j && fills[k].hash == h
        invariant Below(fills, key, j) in scores && scores[Below(fills, key, j)] == score
      {
        UnscoredAt(genesis, known, was, fills, key, block, j);
        var difficulty := fills[j].difficulty;
        var draw: int :| 0 <= draw <= difficulty / 1000000;
        ScoreAdded(genesis, known, scores, fills[j], score + difficulty + draw);
        score := score + difficulty + draw;
        scores := scores[fills[j].hash := score];
      }
      UnscoredTop(genesis, known, was, fills, key, block);
    }

    /** Enters the positions of a block's transactions. */
    method PutTransactions(number: nat, txs: seq<Tx>)
      modifies `txindex
      ensures TxPut(old(txindex), number, txs, txindex)
    {
      for i := 0 to |txs|
        invariant TxPut(old(txindex), number, txs[..i], txindex)
      {
        txindex := txindex[txs[i] := Position(number, i)];
        assert txs[..i + 1] == txs[..i] + [txs[i]];
      }
      assert txs[..|txs|] == txs;
    }

    /** Deletes the entries of a block's transactions, whatever they point at. */
    method DropTransactions(txs: seq<Tx>)
      modifies `txindex
      ensures txindex == old(txindex) - set t | t in txs
    {
      for i := 0 to |txs|
        invariant txindex == old(txindex) - set t | t in txs[..i]
      {
        assert txs[..i + 1] == txs[..i] + [txs[i]];
        if txs[i] in txindex {
          txindex := txindex - {txs[i]};
        }
      }
      assert txs[..|txs|] == txs;
    }

    /** The index, the transaction entries and the scores fit the blocks known and a head. */
    ghost predicate Indexed(known: map<Hash, Block>, head: Hash)
      reads `index, `txindex, `scores
    {
      && IndexOk(genesis, known, index, head)
      && TxOk(known, index, txindex)
      && ScoresOk(genesis, known, scores)
    }

    /** A block on the head becomes the head. */
    method ExtendHead(block: Block, ghost known: map<Hash, Block>)
      requires Knows(known, block) && block.hash != genesis.hash
      requires Indexed(known, headHash) && Best(scores, headHash) && scores.Keys == blocks.Keys
      requires block.prevhash == headHash
      modifies `index, `scores, `headHash, `txindex
      ensures headHash == block.hash && Indexed(known, headHash) && Best(scores, headHash) && scores.Keys == known.Keys
      ensures TxPut(old(txindex), block.number, block.transactions, txindex)
    {
      hide IndexOk, TxOk, ScoresOk, Best;
      KnownNumber(rules, genesis, known, block);
      hide BlocksOk;
      IndexExtends(genesis, known, index, headHash, block);
      index := index[block.number := block.hash];
      ghost var was := scores;
      var blockScore := GetScore(block, known);
      NewBest(genesis, known, was, headHash, scores, block);
      headHash := block.hash;
      ghost var before := txindex;
      PutTransactions(block.number, block.transactions);
      PutOk(known, old(index), before, block, txindex);
    }

    /** Walks from the new head down to the first block that is on the chain already, or stands on the genesis block. */
    method FindCommonAncestor(block: Block, ghost known: map<Hash, Block>) returns (newChain: map<nat, Block>, b: Block)
      requires Knows(known, block) && block.hash != genesis.hash && IndexOk(genesis, known, index, headHash)
      ensures NewChain(genesis, known, newChain, b, block) && Joined(genesis, index, b)
    {
      hide NewChain, IndexOk, Joined;
      b := block;
      newChain := map[];
      OneBlock(genesis, known, block);
      KnownNumber(rules, genesis, known, block);
      while b.number >= genesis.number
        invariant NewChain(genesis, known, newChain[b.number := b], b, block)
        invariant Stored(known, b) && b.hash != genesis.hash && genesis.number < b.number <= block.number
        decreases b.number
      {
        newChain := newChain[b.number := b];
        ParentKnown(rules, genesis, blocks, known, block, b);
        KnownNumber(rules, genesis, known, b);
        if b.number in index && index[b.number] == b.hash {
          OnChainJoined(genesis, known, index, headHash, b);
          break;
        }
        if b.prevhash !in blocks || b.prevhash == genesis.hash {
          OnGenesisJoined(genesis, index, b);
          break;
        }
        NewChainGrows(genesis, known, newChain, b, block, blocks[b.prevhash]);
        b := blocks[b.prevhash];
      }
    }

    /** Replaces what the old chain has at one height by what the new one has there. */
    method RewriteHeight(i: nat, newChain: map<nat, Block>, ghost known: map<Hash, Block>)
      requires TxOk(known, index, txindex)
      requires i in index ==> index[i] in blocks && index[i] in known && known[index[i]] == blocks[index[i]]
      requires i in newChain ==> Stored(known, newChain[i]) && newChain[i].number == i
      modifies `index, `txindex
      ensures TxOk(known, index, txindex)
      ensures index == if i in newChain then (old(index) - {i})[i := newChain[i].hash] else old(index) - {i}
      ensures forall t :: t in txindex <==> (t in old(txindex) && !HeldBy(blocks, old(index), i, t)) || t in NewTransactions(newChain, i)
    {
      hide TxOk;
      if i in index {
        var orig := blocks[index[i]];
        DropOk(known, index, txindex, i);
        index := index - {i};
        DropTransactions(orig.transactions);
      }
      assert index == old(index) - {i};
      if i in newChain {
        ghost var entries := txindex;
        PutTransactions(i, newChain[i].transactions);
        PutOk(known, index, entries, newChain[i], txindex);
        index := index[i := newChain[i].hash];
      }
    }

    /** Rewrites the index and the transaction entries from the common ancestor up to where neither chain has a block. */
    method Reorganise(block: Block, ghost known: map<Hash, Block>)
      returns (ghost newChain: map<nat, Block>, ghost first: nat, ghost last: nat)
      requires Knows(known, block) && block.hash != genesis.hash
      requires IndexOk(genesis, blocks, index, headHash) && TxOk(blocks, index, txindex)
      modifies `index, `txindex
      ensures IndexOk(genesis, known, index, block.hash) && TxOk(known, index, txindex)
      ensures forall n :: n in newChain <==> first <= n <= block.number
      ensures last > block.number && last > known[headHash].number
      ensures forall n :: n in newChain ==> n in index && index[n] == newChain[n].hash
      ensures forall t :: t in txindex <==> Kept(blocks, old(index), newChain, old(txindex).Keys, first, last, t)
    {
      hide IndexOk, TxOk, BlocksOk, NewChain, Joined, Rewritten, At, HeldBy, NewTransactions, Kept;
      KnowsFacts(block, known);
      hide Chain.Knows;
      ghost var before := index;
      IndexFrame(genesis, blocks, known, index, headHash, txindex);
      var chain, b := FindCommonAncestor(block, known);
      newChain, first := chain, b.number;
      ghost var limit := (if block.number > known[headHash].number then block.number else known[headHash].number) + 1;
      var i := b.number;
      NothingRewritten(before, chain, i);
      KeptStart(blocks, before, chain, old(txindex).Keys, i);
      while i in chain || i in index
        invariant i >= b.number && Rewritten(before, chain, b.number, i, index) && TxOk(known, index, txindex)
        invariant forall t :: t in txindex <==> Kept(blocks, before, chain, old(txindex).Keys, b.number, i, t)
        decreases limit - i
      {
        KeptStep(blocks, before, chain, old(txindex).Keys, b.number, i, index);
        RewriteStep(before, chain, b.number, i, index);
        RewriteBounds(genesis, known, before, headHash, chain, b, block, i, index);
        if i in index { AtHeight(genesis, blocks, known, before, headHash, chain, b, i, index); }
        if i in chain { NewAt(genesis, known, chain, b, block, i); }
        RewriteHeight(i, chain, known);
        i := i + 1;
      }
      last := i;
      NewChainFacts(genesis, known, before, headHash, chain, b, block, i, index);
      NotBelow(before, chain, b.number, i, index);
      IndexRewritten(genesis, known, before, headHash, chain, b, block, i, index);
    }

    /** A block on another stored block; it becomes the head if its score is greater. */
    method AddToSide(block: Block, ghost known: map<Hash, Block>)
      requires Knows(known, block) && block.hash != genesis.hash
      requires Indexed(blocks, headHash) && Best(scores, headHash) && scores.Keys == blocks.Keys
      modifies `index, `scores, `headHash, `txindex, `tried
      ensures Indexed(known, headHash) && Best(scores, headHash) && scores.Keys == known.Keys
      ensures old(headHash) in scores && block.hash in scores
      ensures headHash == if scores[block.hash] > scores[old(headHash)] then block.hash else old(headHash)
      ensures headHash == old(headHash) ==> index == old(index) && txindex == old(txindex)
      ensures tried == if scores[block.hash] > scores[old(headHash)] then [] else old(tried)
    {
      hide IndexOk, TxOk, ScoresOk, Best, BlocksOk, At;
      KnowsFacts(block, known);
      hide Chain.Knows;
      IndexFrame(genesis, blocks, known, index, headHash, txindex);
      ScoresFrame(genesis, blocks, known, scores);
      HeadFacts(genesis, blocks, index, headHash, scores);
      ghost var was := scores;
      var blockScore := GetScore(block, known);
      var headScore := GetScore(blocks[headHash], known);
      BestOfTwo(genesis, known, was, headHash, scores, block);
      if blockScore > headScore {
        ghost var newChain, first, last := Reorganise(block, known);
        headHash := block.hash;
        tried := [];
      }
    }

    /** Lists a block as a child of its parent. */
    method AddChild(child: Block, ghost known: map<Hash, Block>)
      requires Knows(known, child) && child.hash != genesis.hash && ChildrenOk(genesis, blocks, children)
      modifies `children
      ensures ChildrenOk(genesis, known, children)
    {
      hide ChildrenOk, BlocksOk;
      var existing := ChildrenOf(children, child.prevhash);
      ChildListed(genesis, blocks, known, children, child);
      if child.hash !in existing {
        children := children[child.prevhash := existing + [child.hash]];
      }
    }

    /** The blocks and everything derived from them fit together. */
    ghost predicate ChainOk()
      reads `blocks, `index, `scores, `children, `txindex, `headHash
    {
      && Commits(rules, genesis) && BlocksOk(rules, genesis, blocks)
      && Indexed(blocks, headHash) && Best(scores, headHash) && scores.Keys == blocks.Keys
      && ChildrenOk(genesis, blocks, children)
    }

    lemma ChainFacts()
      requires ChainOk()
      ensures Commits(rules, genesis) && BlocksOk(rules, genesis, blocks) && genesis.hash in blocks
      ensures headHash in blocks
      ensures IndexOk(genesis, blocks, index, headHash) && Best(scores, headHash) && scores.Keys == blocks.Keys
    {
    }

    /** A block that fits its stored parent and was applied. */
    method Accept(block: Block)
      requires ChainOk() && Fits(rules, blocks, block)
      modifies `blocks, `index, `scores, `children, `txindex, `headHash, `tried
      ensures ChainOk() && blocks == old(blocks)[block.hash := block]
      ensures old(headHash) in scores && block.hash in scores
      ensures headHash == if block.prevhash == old(headHash) || scores[block.hash] > scores[old(headHash)] then block.hash else old(headHash)
      ensures headHash == old(headHash) ==> index == old(index) && txindex == old(txindex)
      ensures tried == if block.prevhash == old(headHash) then Try(old(tried), Applies, block) else if headHash == old(headHash) then old(tried) else []
    {
      hide Best, ChildrenOk, BlocksOk, Commits, IndexOk, TxOk, ScoresOk, Fits;
      ghost var known := blocks[block.hash := block];
      NewBlock(rules, genesis, blocks, block);
      IndexAndScoresFrame(known);
      KnowsNew(block, known);
      hide Chain.Knows;
      if block.prevhash == headHash {
        ExtendHead(block, known);
        tried := Try(tried, Applies, block);
      } else {
        AddToSide(block, known);
      }
      AddChild(block, known);
      blocks := blocks[block.hash := block];
    }

    lemma KnowsNew(block: Block, known: map<Hash, Block>)
      requires BlocksOk(rules, genesis, known) && Fits(rules, blocks, block)
      requires known == blocks[block.hash := block]
      requires forall h :: h in blocks ==> known[h] == blocks[h]
      ensures Knows(known, block)
    {
    }

    lemma IndexAndScoresFrame(known: map<Hash, Block>)
      requires Indexed(blocks, headHash) && forall h :: h in blocks ==> h in known && known[h] == blocks[h]
      ensures Indexed(known, headHash)
    {
      IndexFrame(genesis, blocks, known, index, headHash, txindex);
      ScoresFrame(genesis, blocks, known, scores);
    }

    /** Holds between calls for no busy parents, and inside the recursion for the parents being served. */
    ghost predicate ValidWith(busy: set<Hash>)
      reads this
    {
      && ChainOk()
      && QueueOk(blocks, parentQueue, received, busy)
      && ReceivedOk(rules, genesis, blocks, parentQueue, received, busy, escaped != {})
      && EscapedOk(rules, received, escaped, tried)
      && Sorted(timeQueue)
      && forall h :: h in busy ==> h in blocks && h in parentQueue
    }

    ghost predicate Valid()
      reads this
    {
      ValidWith({})
    }

    constructor (genesis: Block, rules: Rules, localtime: int)
      requires Commits(rules, genesis)
      ensures Valid() && this.genesis == genesis && this.rules == rules && this.localtime == localtime
      ensures blocks == map[genesis.hash := genesis] && received == {} && headHash == genesis.hash
      ensures timeQueue == [] && parentQueue == map[]
      ensures tried == [] && escaped == {}
    {
      hide BlocksOk, IndexOk, TxOk, ScoresOk, Best, ChildrenOk, QueueOk, ReceivedOk, EscapedOk, Commits;
      OnlyGenesis(rules, genesis);
      this.genesis, this.rules, this.localtime := genesis, rules, localtime;
      blocks, index, scores := map[genesis.hash := genesis], map[0 := genesis.hash], map[genesis.hash := 0];
      children, txindex, headHash := map[], map[], genesis.hash;
      timeQueue, parentQueue, tried, received, escaped := [], map[], [], {}, {};
    }

    /** The blocks received. */
    ghost function Met(): set<Block>
      reads `received, `timeQueue
    {
      received + All(timeQueue)
    }

    /** Blocks from the future are kept in the order of their times. */
    method Delay(block: Block)
      requires Sorted(timeQueue)
      modifies `timeQueue
      ensures Sorted(timeQueue) && multiset(timeQueue) == multiset(old(timeQueue)) + multiset{block}
      ensures forall time | time < block.timestamp :: Delays(old(timeQueue), timeQueue, {block}, time)
      ensures exists i: nat :: i <= |old(timeQueue)| && InsertedAt(old(timeQueue), timeQueue, block, i)
    {
      hide Sorted, Delays;
      var i := 0;
      while i < |timeQueue| && block.timestamp > timeQueue[i].timestamp
        invariant 0 <= i <= |timeQueue| && forall j :: 0 <= j < i ==> timeQueue[j].timestamp < block.timestamp
      {
        i := i + 1;
      }
      InsertSorted(timeQueue, i, block);
      InsertDelays(timeQueue, i, block);
      assert InsertedAt(timeQueue, timeQueue[..i] + [block] + timeQueue[i..], block, i);
      timeQueue := timeQueue[..i] + [block] + timeQueue[i..];
    }

    /** A block on the head is applied to the head state, any other one to the state stored for its parent. */
    function VerdictOn(block: Block): Verdict
      reads `headHash, `tried
    {
      rules.verdict(if block.prevhash == headHash then tried else [], block)
    }

    ghost function TriedWith(block: Block): seq<Block>
      reads `headHash, `tried
    {
      if block.prevhash == headHash then Try(tried, VerdictOn(block), block) else tried
    }

    /** `add_block`, inside the recursion over waiting blocks; no block met here has a number above `top`. */
    method Add(block: Block, ghost busy: set<Hash>, ghost top: nat) returns (ok: bool)
      requires ValidWith(busy) && QueueBelow(parentQueue, top) && block.number <= top
      requires forall h :: h in busy && block.prevhash in blocks ==> blocks[h].number <= blocks[block.prevhash].number
      modifies `blocks, `index, `scores, `children, `txindex, `headHash, `timeQueue, `parentQueue, `tried, `received, `escaped
      ensures ValidWith(busy) && QueueBelow(parentQueue, top)
      ensures Grows(old(blocks), blocks)
      ensures forall h :: h in busy ==> h in parentQueue && parentQueue[h] == old(parentQueue[h])
      ensures Handles(old(timeQueue), timeQueue, old(received) + {block}, received, localtime)
      ensures block.timestamp > localtime ==> received == old(received) && multiset(timeQueue) == multiset(old(timeQueue)) + multiset{block}
      ensures block.timestamp > localtime ==> block in timeQueue
      ensures old(NoneEarly(parentQueue, localtime)) ==> NoneEarly(parentQueue, localtime)
      ensures old(NoneEarly(parentQueue, localtime)) && block.timestamp <= localtime ==>
        received == old(received) + {block} && timeQueue == old(timeQueue)
      ensures ok <==> block.timestamp <= localtime && Fits(rules, old(blocks), block) && old(VerdictOn(block)) == Applies
      ensures ok ==> Stored(blocks, block)
      ensures !ok ==> blocks == old(blocks) && index == old(index) && headHash == old(headHash) && txindex == old(txindex)
      ensures !ok ==> tried == if block.timestamp > localtime then old(tried) else old(TriedWith(block))
      ensures !ok && block.timestamp <= localtime ==> received == old(received) + {block} && timeQueue == old(timeQueue)
      ensures old(escaped) <= escaped
      ensures block.timestamp <= localtime && block.prevhash in old(blocks) ==> Settled(rules, blocks, block, escaped != {})
      ensures !ok && (block.timestamp > localtime || block.prevhash in old(blocks)) ==> parentQueue == old(parentQueue)
      decreases top + 1 - (if block.prevhash in blocks then blocks[block.prevhash].number else 0), 1
    {
      hide QueueOk, ReceivedOk, Commits, BlocksOk, Sorted, Chain.ChainOk, QueueBelow, EscapedOk, Fits, Settled,
        Stored, Try, Grows, Handles, Delays, NoneEarly;
      GrowsFacts(blocks);
      FitsParent(rules, blocks, block);
      HandlesAll(timeQueue, received + {block}, localtime);
      if block.timestamp > localtime {
        Delay(block);
        HandlesEarly(old(timeQueue), timeQueue, received, block, localtime);
        return false;
      }
      if block.prevhash !in blocks {
        Enqueue(block, busy, top);
        return false;
      }
      CleanHead(rules, received, escaped, tried);
      if VerdictOn(block) != Applies || !Fits(rules, blocks, block) {
        Reject(block, busy);
        return false;
      }
      Store(block, busy, top);
      StoredSettled(rules, blocks, block, escaped != {});
      return true;
    }

    /** A block without a stored parent waits for it. */
    method Enqueue(block: Block, ghost busy: set<Hash>, ghost top: nat)
      requires ValidWith(busy) && QueueBelow(parentQueue, top) && block.number <= top
      requires block.timestamp <= localtime && block.prevhash !in blocks
      modifies `parentQueue, `received
      ensures ValidWith(busy) && QueueBelow(parentQueue, top) && received == old(received) + {block}
      ensures forall h :: h in busy ==> h in parentQueue && parentQueue[h] == old(parentQueue[h])
      ensures tried == old(TriedWith(block)) && (old(NoneEarly(parentQueue, localtime)) ==> NoneEarly(parentQueue, localtime))
    {
      hide QueueOk, ReceivedOk, Commits, BlocksOk, Sorted, Chain.ChainOk, QueueBelow, EscapedOk, Waiting, NoneEarly;
      StillNoneEarly(parentQueue, localtime, block);
      ChainFacts();
      EnqueuedOk(rules, genesis, blocks, parentQueue, received, busy, escaped != {}, block);
      StillEscaped(rules, received, escaped, tried, block);
      StillBelow(parentQueue, top, block);
      received := received + {block};
      parentQueue := parentQueue[block.prevhash := Waiting(parentQueue, block.prevhash) + [block]];
    }

    /** A rejected block is only remembered; the head state stays changed if the block was tried on it and escaped. */
    method Reject(block: Block, ghost busy: set<Hash>)
      requires ValidWith(busy) && block.prevhash in blocks
      requires VerdictOn(block) != Applies || !Fits(rules, blocks, block)
      modifies `tried, `received, `escaped
      ensures ValidWith(busy) && received == old(received) + {block} && old(escaped) <= escaped
      ensures tried == old(TriedWith(block)) && Settled(rules, blocks, block, escaped != {})
    {
      hide QueueOk, ReceivedOk, Commits, BlocksOk, Sorted, Chain.ChainOk, EscapedOk, Fits, Settled, Try;
      var v := VerdictOn(block);
      CleanHead(rules, received, escaped, tried);
      if block.prevhash == headHash {
        escaped := if tried == [] && v == Escapes then escaped + {block} else escaped;
        tried := Try(tried, v, block);
      }
      EscapedGrows(rules, received, old(escaped), old(tried), escaped, tried, block);
      RejectedOk(rules, genesis, blocks, parentQueue, received, busy, old(escaped) != {}, escaped != {}, block);
      received := received + {block};
    }

    /** Stores a block that was applied and adds those that waited for it. */
    method Store(block: Block, ghost busy: set<Hash>, ghost top: nat)
      requires ValidWith(busy) && QueueBelow(parentQueue, top) && block.number <= top
      requires Fits(rules, blocks, block) && (escaped != {} || rules.verdict([], block) == Applies)
      requires forall h :: h in busy ==> blocks[h].number <= blocks[block.prevhash].number
      modifies `blocks, `index, `scores, `children, `txindex, `headHash, `timeQueue, `parentQueue, `tried, `received, `escaped
      ensures ValidWith(busy) && QueueBelow(parentQueue, top)
      ensures Grows(old(blocks), blocks)
      ensures forall h :: h in busy ==> h in parentQueue && parentQueue[h] == old(parentQueue[h])
      ensures Stored(blocks, block) && old(escaped) <= escaped
      ensures Handles(old(timeQueue), timeQueue, old(received) + {block}, received, localtime)
      ensures old(NoneEarly(parentQueue, localtime)) ==> NoneEarly(parentQueue, localtime)
      ensures old(NoneEarly(parentQueue, localtime)) ==> received == old(received) + {block} && timeQueue == old(timeQueue)
      decreases top + 1 - blocks[block.prevhash].number, 0
    {
      hide QueueOk, ReceivedOk, Commits, BlocksOk, Sorted, Chain.ChainOk, QueueBelow, EscapedOk, Fits, Chain.ValidWith, Handles, Delays,
        NoneEarly;
      FitsParent(rules, blocks, block);
      HandlesAll(timeQueue, received + {block}, localtime);
      Place(block, busy);
      if block.hash in parentQueue {
        Serve(block.hash, busy, top);
      }
    }

    /** Stores a block that was applied; the blocks that waited for it are still to be served. */
    method Place(block: Block, ghost busy: set<Hash>)
      requires ValidWith(busy) && Fits(rules, blocks, block) && (escaped != {} || rules.verdict([], block) == Applies)
      requires forall h :: h in busy ==> blocks[h].number <= blocks[block.prevhash].number
      modifies `blocks, `index, `scores, `children, `txindex, `headHash, `tried, `received
      ensures ValidWith(if block.hash in parentQueue then busy + {block.hash} else busy) && block.hash !in busy
      ensures received == old(received) + {block} && blocks == old(blocks)[block.hash := block]
      ensures Grows(old(blocks), blocks) && Stored(blocks, block)
      ensures forall h :: h in busy ==> h in blocks && h in parentQueue && blocks[h].number <= old(blocks)[block.prevhash].number
    {
      hide QueueOk, ReceivedOk, Commits, BlocksOk, Sorted, Chain.ChainOk, EscapedOk, Fits, Try, Grows;
      ChainFacts();
      FitsParent(rules, blocks, block);
      AcceptedOk(rules, genesis, blocks, parentQueue, received, busy, escaped != {}, block);
      StillEscaped(rules, received, escaped, tried, block);
      EscapedApplies(rules, received + {block}, escaped, tried, block);
      hide HandledOk, Waiting;
      NotBusy(rules, genesis, blocks, block, busy);
      assert Stored(blocks[block.hash := block], block);
      ghost var busy' := if block.hash in parentQueue then busy + {block.hash} else busy;
      Accept(block);
      received := received + {block};
      assert EscapedOk(rules, received, escaped, tried);
      assert ReceivedOk(rules, genesis, blocks, parentQueue, received, busy', escaped != {});
      assert QueueOk(blocks, parentQueue, received, busy');
    }

    /** `add_block`: returns whether the block was stored now. */
    method AddBlock(block: Block) returns (ok: bool)
      requires Valid()
      modifies `blocks, `index, `scores, `children, `txindex, `headHash, `timeQueue, `parentQueue, `tried, `received, `escaped
      ensures Valid() && Grows(old(blocks), blocks)
      ensures Met() == old(Met()) + {block} && Handles(old(timeQueue), timeQueue, old(received) + {block}, received, localtime)
      ensures block.timestamp > localtime ==> received == old(received) && multiset(timeQueue) == multiset(old(timeQueue)) + multiset{block}
      ensures old(NoneEarly(parentQueue, localtime)) ==> NoneEarly(parentQueue, localtime)
      ensures old(NoneEarly(parentQueue, localtime)) && block.timestamp <= localtime ==>
        received == old(received) + {block} && timeQueue == old(timeQueue)
      ensures ok <==> block.timestamp <= localtime && Fits(rules, old(blocks), block) && old(VerdictOn(block)) == Applies
      ensures ok ==> Stored(blocks, block)
      ensures !ok ==> blocks == old(blocks) && index == old(index) && headHash == old(headHash) && txindex == old(txindex)
      ensures !ok ==> tried == if block.timestamp > localtime then old(tried) else old(TriedWith(block))
      ensures old(escaped) <= escaped
    {
      hide Chain.ChainOk, ReceivedOk, Sorted, EscapedOk, Fits, Handles, Delays, NoneEarly, All;
      ghost var top := Highest(received + {block});
      TopBounds(blocks, parentQueue, received, block, top);
      ok := Add(block, {}, top);
      AllMet(old(timeQueue), timeQueue, old(received) + {block}, received, localtime);
    }

    /** Adds the delayed blocks whose time has come. None is lost; some are left for the next time only where a block that
        waits for its parent is from after the new time, since the clock was set back. */
    method ProcessTimeQueue(newTime: int)
      requires Valid()
      modifies this
      ensures Valid() && localtime == newTime && Grows(old(blocks), blocks) && Met() == old(Met())
      ensures forall b :: b in timeQueue ==> b in old(timeQueue) || (b in old(Met()) && b.timestamp > newTime)
      ensures old(NoneEarly(parentQueue, newTime)) ==> NoneEarly(parentQueue, newTime)
      ensures old(NoneEarly(parentQueue, newTime)) ==> forall b :: b in timeQueue ==> b in old(timeQueue) && b.timestamp > newTime
    {
      hide Chain.ChainOk, ReceivedOk, QueueOk, Sorted, NoneEarly, EscapedOk, Fits, Grows, Handles, All;
      GrowsFacts(blocks);
      localtime := newTime;
      var i := 0;
      ghost var prompt := NoneEarly(parentQueue, newTime);
      ghost var due: nat := Due(timeQueue, newTime);
      while i < |timeQueue| && timeQueue[i].timestamp <= localtime
        invariant Valid() && localtime == newTime && Grows(old(blocks), blocks) && Met() == old(Met())
        invariant forall b :: b in timeQueue ==> b in old(timeQueue) || (b in old(Met()) && b.timestamp > newTime)
        invariant prompt ==> NoneEarly(parentQueue, newTime) && i == 0 && forall b :: b in timeQueue ==> b in old(timeQueue)
        invariant i <= due + 1 && DueFirst(timeQueue, newTime, due)
        decreases due - i
      {
        var before := |timeQueue|;
        var b := timeQueue[i];
        TakeOut(timeQueue, newTime, due, i, received);
        timeQueue := timeQueue[..i] + timeQueue[i + 1..];
        ghost var was, rest, had := blocks, timeQueue, received;
        var added := AddBlock(b);
        GrowsOn(old(blocks), was, blocks);
        PutBack(rest, timeQueue, newTime, due - 1, had + {b}, received);
        due := due - 1;
        if |timeQueue| == before {
          i := i + 1;
        }
      }
    }

    /** Between calls the index holds the head's ancestors at their heights, and nothing above the head. */
    lemma CanonicalChain(n: nat)
      requires Valid()
      ensures headHash in blocks
      ensures genesis.number < n <= blocks[headHash].number ==>
        n in index && Some(index[n]) == Back(blocks, headHash, blocks[headHash].number - n)
      ensures n > blocks[headHash].number && n > 0 ==> n !in index
    {
      hide ReceivedOk, QueueOk, Sorted, Back, Chain.ChainOk, BlocksOk;
      ChainFacts();
      CanonicalIndex(genesis, blocks, index, headHash, n);
    }

    /** Between calls no stored block scores more than the head, and none of them is waited for. */
    lemma BestHead(h: Hash)
      requires Valid() && h in blocks
      ensures h in scores && headHash in scores && scores[h] <= scores[headHash]
      ensures h !in parentQueue
    {
      hide ReceivedOk, Sorted, Chain.ChainOk, BlocksOk, IndexOk;
      ChainFacts();
    }

    /** Between calls no stored block has more work below it than the head, but for a millionth of that. */
    lemma MostWork(h: Hash)
      requires Valid() && h in blocks
      ensures BlocksOk(rules, genesis, blocks) && headHash in blocks
      ensures Work(rules, genesis, blocks, h) * 1000000 <= Work(rules, genesis, blocks, headHash) * 1000001
    {
      hide ReceivedOk, QueueOk, Sorted, BlocksOk, IndexOk, TxOk, ScoresOk;
      ChainFacts();
      BestHead(h);
      ScoreIsWork(rules, genesis, blocks, scores, h);
      ScoreIsWork(rules, genesis, blocks, scores, headHash);
    }

    /** Between calls every block received that can be stored is stored, and no other, unless a block escaped on the head. */
    lemma StoresAllItCan()
      requires Valid()
      ensures escaped == {} ==> Complete(rules, genesis, blocks, received)
      ensures escaped <= received && forall b :: b in escaped ==> rules.verdict([], b) == Escapes
    {
      hide ReceivedOk, QueueOk, Sorted, Chain.ChainOk, BlocksOk, IndexOk, Complete;
      ChainFacts();
      if escaped == {} { NothingMissing(rules, genesis, blocks, parentQueue, received); }
    }

    /** Adds the blocks that waited for a block that is stored now. */
    method Serve(p: Hash, ghost busy: set<Hash>, ghost top: nat)
      requires ValidWith(busy + {p}) && p !in busy && QueueBelow(parentQueue, top)
      requires forall h :: h in busy ==> blocks[h].number <= blocks[p].number
      modifies `blocks, `index, `scores, `children, `txindex, `headHash, `timeQueue, `parentQueue, `tried, `received, `escaped
      ensures ValidWith(busy) && QueueBelow(parentQueue, top)
      ensures Grows(old(blocks), blocks)
      ensures forall h :: h in busy ==> h in parentQueue && parentQueue[h] == old(parentQueue[h])
      ensures Handles(old(timeQueue), timeQueue, old(received), received, localtime) && old(escaped) <= escaped
      ensures old(NoneEarly(parentQueue, localtime)) ==>
        NoneEarly(parentQueue, localtime) && received == old(received) && timeQueue == old(timeQueue)
      decreases top + 1 - blocks[p].number, 2
    {
      hide QueueOk, ReceivedOk, Sorted, Chain.ChainOk, QueueBelow, Served, Acceptable, Stored, EscapedOk, Fits, Settled,
        Handles, Delays, NoneEarly;
      var waiting := parentQueue[p];
      ghost var queue := parentQueue;
      ServeStart(rules, genesis, blocks, parentQueue, received, busy + {p}, escaped != {}, p, timeQueue, localtime);
      HandlesAll(timeQueue, received, localtime);
      for k := 0 to |waiting|
        invariant ValidWith(busy + {p}) && QueueBelow(parentQueue, top) && Grows(old(blocks), blocks)
        invariant forall h :: h in busy ==> h in parentQueue && parentQueue[h] == old(parentQueue[h])
        invariant parentQueue[p] == waiting && Handles(old(timeQueue), timeQueue, old(received), received, localtime)
        invariant NoneEarly(queue, localtime) ==>
          NoneEarly(parentQueue, localtime) && received == old(received) && timeQueue == old(timeQueue)
        invariant Served(rules, blocks, received, waiting, p, k, escaped != {}, timeQueue, localtime) && old(escaped) <= escaped
      {
        WaitingFacts(blocks, parentQueue, received, busy + {p}, top, p, k, localtime);
        ghost var was, spoiled, had, delayed := blocks, escaped != {}, received, timeQueue;
        var added := Add(waiting[k], busy + {p}, top);
        assert had + {waiting[k]} == had;
        HandlesOn(old(timeQueue), delayed, timeQueue, old(received), had, received, localtime);
        ServeStep(rules, was, blocks, had, received, waiting, p, k, spoiled, escaped != {}, delayed, timeQueue, localtime);
      }
      ghost var had := received;
      Forget(p, busy, top);
      HandlesLess(old(timeQueue), timeQueue, old(received), had, received, localtime);
    }

    /** Forgets who waited for a block once they were served; those that were delayed count as not received yet. */
    method Forget(p: Hash, ghost busy: set<Hash>, ghost top: nat)
      requires ValidWith(busy + {p}) && p !in busy && QueueBelow(parentQueue, top)
      requires Served(rules, blocks, received, parentQueue[p], p, |parentQueue[p]|, escaped != {}, timeQueue, localtime)
      modifies `parentQueue, `received
      ensures ValidWith(busy) && QueueBelow(parentQueue, top) && parentQueue == old(parentQueue) - {p}
      ensures received <= old(received) && forall b :: b in old(received) ==> b in received || b in timeQueue
      ensures old(NoneEarly(parentQueue, localtime)) ==> NoneEarly(parentQueue, localtime) && received == old(received)
    {
      hide QueueOk, ReceivedOk, Sorted, Chain.ChainOk, QueueBelow, EscapedOk, NoneEarly, Late, BlocksOk, IndexOk,
        Best, Commits;
      ChainFacts();
      ServeEnd(rules, genesis, blocks, parentQueue, received, busy, escaped != {}, p, timeQueue, localtime);
      StillEscapedWithout(rules, blocks, received, escaped, tried, p);
      FewerBelow(parentQueue, top, p);
      FewerEarly(parentQueue, localtime, p);
      received := received - Late(rules, blocks, received, p, escaped != {});
      parentQueue := parentQueue - {p};
    }
  }

  /** The stored blocks depend on which blocks were received, not on the order, as long as none escaped on the head. */
  lemma ArrivalOrderIrrelevant(one: Chain, two: Chain)
    requires one.Valid() && two.Valid() && one.genesis == two.genesis && one.rules == two.rules
    requires one.received == two.received && one.escaped == {} && two.escaped == {}
    ensures one.blocks == two.blocks
  {
    hide Chain.Valid, Complete;
    one.StoresAllItCan();
    two.StoresAllItCan();
    CompleteUnique(one.rules, one.genesis, one.blocks, two.blocks, one.received);
  }

  /** None does if no received block would escape on the state stored for its parent, which does not depend on the order. */
  lemma NoneEscapes(chain: Chain)
    requires chain.Valid() && forall b :: b in chain.received ==> chain.rules.verdict([], b) != Escapes
    ensures chain.escaped == {}
  {
    hide Chain.Valid, Complete;
    chain.StoresAllItCan();
  }

  /** Two blocks on the genesis block; the first one escapes and leaves behind what keeps the second one out. */
  ghost predicate Rivals(rules: Rules, genesis: Block, x: Block, y: Block, now: int) {
    && Commits(rules, genesis) && rules.wellFormed(x) && rules.wellFormed(y)
    && x.prevhash == genesis.hash && x.number == genesis.number + 1 && x.timestamp <= now
    && y.prevhash == genesis.hash && y.number == genesis.number + 1 && y.timestamp <= now
    && rules.verdict([], x) == Escapes && rules.verdict([], y) == Applies && rules.verdict([x], y) != Applies
  }

  /** Then the order matters: received first, the second block is stored; received last, it is not. */
  method OrderMatters(rules: Rules, genesis: Block, x: Block, y: Block, now: int) returns (one: Chain, two: Chain)
    requires Rivals(rules, genesis, x, y, now)
    ensures one.Valid() && one.rules == rules && one.genesis == genesis && one.received == {x, y} && !Stored(one.blocks, y)
    ensures two.Valid() && two.rules == rules && two.genesis == genesis && two.received == {x, y} && Stored(two.blocks, y)
  {
    hide Chain.Valid, Rivals, Stored;
    FitGenesis(rules, genesis, x, y, now);
    one := AddInTurn(rules, genesis, x, y, now, x, y);
    two := AddInTurn(rules, genesis, x, y, now, y, x);
  }

  method AddInTurn(rules: Rules, genesis: Block, ghost x: Block, ghost y: Block, now: int, a: Block, b: Block)
    returns (chain: Chain)
    requires Rivals(rules, genesis, x, y, now) && ((a == x && b == y) || (a == y && b == x))
    ensures chain.Valid() && chain.rules == rules && chain.genesis == genesis && chain.received == {a, b}
    ensures Stored(chain.blocks, y) <==> a == y
  {
    hide Chain.Valid, Fits, Commits, Grows, Stored;
    FitGenesis(rules, genesis, x, y, now);
    chain := new Chain(genesis, rules, now);
    var r := chain.AddBlock(a);
    ghost var middle := chain.blocks;
    r := chain.AddBlock(b);
    if a == y { GrowsStored(middle, chain.blocks, y); }
  }

  lemma GrowsStored(before: map<Hash, Block>, after: map<Hash, Block>, b: Block)
    requires Grows(before, after) && Stored(before, b)
    ensures Stored(after, b)
  {
  }

  lemma FitGenesis(rules: Rules, genesis: Block, x: Block, y: Block, now: int)
    requires Rivals(rules, genesis, x, y, now)
    ensures Commits(rules, genesis)
    ensures var blocks := map[genesis.hash := genesis];
            Fits(rules, blocks, x) && Fits(rules, blocks, y) && !Stored(blocks, y)
    ensures x != y && Try([], Escapes, x) == [x]
  {
  }

  lemma OnlyGenesis(rules: Rules, genesis: Block)
    ensures var blocks := map[genesis.hash := genesis];
            && BlocksOk(rules, genesis, blocks)
            && IndexOk(genesis, blocks, map[0 := genesis.hash], genesis.hash)
            && TxOk(blocks, map[0 := genesis.hash], map[])
            && ScoresOk(genesis, blocks, map[genesis.hash := 0])
            && Best(map[genesis.hash := 0], genesis.hash)
            && ChildrenOk(genesis, blocks, map[])
            && QueueOk(blocks, map[], {}, {})
            && ReceivedOk(rules, genesis, blocks, map[], {}, {}, false)
            && EscapedOk(rules, {}, {}, [])
  {
    forall p ensures Lists(genesis, map[genesis.hash := genesis], p, ChildrenOf(map[], p)) {
      assert ChildrenOf(map[], p) == [];
    }
  }

  lemma ParentKnown(rules: Rules, genesis: Block, blocks: map<Hash, Block>, known: map<Hash, Block>, block: Block,
      b: Block)
    requires BlocksOk(rules, genesis, known) && Stored(known, b) && b.hash != genesis.hash && b.number <= block.number
    requires forall h :: h in known ==> h in blocks || h == block.hash
    requires Stored(known, block) && forall h :: h in blocks ==> h in known && known[h] == blocks[h]
    ensures b.prevhash in blocks && blocks[b.prevhash].hash == b.prevhash && blocks[b.prevhash].number == b.number - 1
    ensures b.number > 0
    ensures Stored(known, blocks[b.prevhash])
  {
  }

  lemma GenesisScored(genesis: Block, blocks: map<Hash, Block>, scores: map<Hash, int>)
    requires ScoresOk(genesis, blocks, scores)
    ensures genesis.hash in scores
  {
  }

  lemma NoneUnscored(genesis: Block, blocks: map<Hash, Block>, scores: map<Hash, int>, b: Block)
    ensures Unscored(genesis, blocks, scores, [], b.hash, b)
  {
  }

  lemma UnscoredTop(genesis: Block, blocks: map<Hash, Block>, scores: map<Hash, int>, fills: seq<Block>, key: Hash,
      top: Block)
    requires Unscored(genesis, blocks, scores, fills, key, top)
    ensures Below(fills, key, |fills|) == top.hash
  {
  }

  lemma UnscoredAt(genesis: Block, blocks: map<Hash, Block>, scores: map<Hash, int>, fills: seq<Block>, key: Hash,
      top: Block, j: nat)
    requires Unscored(genesis, blocks, scores, fills, key, top) && j < |fills|
    ensures Stored(blocks, fills[j]) && fills[j].hash !in scores && fills[j].hash != genesis.hash
    ensures fills[j].prevhash == Below(fills, key, j)
    ensures forall k :: 0 <= k < j ==> fills[k].hash != fills[j].hash
  {
    forall k | 0 <= k < j ensures fills[k].hash != fills[j].hash {
      assert fills[k].number != fills[j].number && Stored(blocks, fills[k]);
    }
  }

  lemma KnownNumber(rules: Rules, genesis: Block, known: map<Hash, Block>, b: Block)
    requires BlocksOk(rules, genesis, known) && Stored(known, b) && b.hash != genesis.hash
    ensures b.prevhash in known && b.number == known[b.prevhash].number + 1 && b.number > genesis.number
    ensures known[b.prevhash].hash == b.prevhash
    ensures (b.prevhash != genesis.hash ==> known[b.prevhash].number > genesis.number)
    ensures b.prevhash == genesis.hash ==> b.number == genesis.number + 1
  {
    AboveGenesis(rules, genesis, known, b.hash);
    AboveGenesis(rules, genesis, known, b.prevhash);
  }

  /** A block on the best one is best. */
  lemma NewBest(genesis: Block, known: map<Hash, Block>, was: map<Hash, int>, head: Hash, scores: map<Hash, int>,
      b: Block)
    requires Best(was, head) && ScoresOk(genesis, known, scores) && b.hash in scores && b.hash != genesis.hash
    requires Stored(known, b) && b.prevhash == head
    requires forall h :: h in was ==> h in scores && scores[h] == was[h]
    requires forall h :: h in known ==> h in was || h == b.hash
    ensures Best(scores, b.hash) && scores.Keys == known.Keys
  {
    assert Scored(known, scores, b.hash);
  }

  lemma OneBlock(genesis: Block, known: map<Hash, Block>, b: Block)
    requires Stored(known, b) && b.hash != genesis.hash
    ensures NewChain(genesis, known, map[][b.number := b], b, b)
  {
  }

  lemma OnGenesisJoined(genesis: Block, index: map<nat, Hash>, b: Block)
    requires b.prevhash == genesis.hash && b.number == genesis.number + 1
    ensures Joined(genesis, index, b)
  {
  }

  lemma OnChainJoined(genesis: Block, known: map<Hash, Block>, index: map<nat, Hash>, head: Hash, b: Block)
    requires IndexOk(genesis, known, index, head) && Stored(known, b) && b.number > genesis.number
    requires b.number in index && index[b.number] == b.hash
    ensures Joined(genesis, index, b)
  {
    assert OnChain(genesis, known, index, b.number);
  }

  lemma NothingRewritten(before: map<nat, Hash>, chain: map<nat, Block>, first: nat)
    ensures Rewritten(before, chain, first, first, before)
  {
  }

  lemma RewriteStep(before: map<nat, Hash>, chain: map<nat, Block>, first: nat, i: nat, after: map<nat, Hash>)
    requires Rewritten(before, chain, first, i, after) && first <= i
    ensures Rewritten(before, chain, first, i + 1, if i in chain then (after - {i})[i := chain[i].hash] else after - {i})
  {
  }

  lemma RewriteBounds(genesis: Block, known: map<Hash, Block>, before: map<nat, Hash>, head: Hash,
      chain: map<nat, Block>, b: Block, top: Block, i: nat, after: map<nat, Hash>)
    requires IndexOk(genesis, known, before, head) && NewChain(genesis, known, chain, b, top)
    requires Joined(genesis, before, b)
    requires Rewritten(before, chain, b.number, i, after) && i >= b.number && (i in chain || i in after)
    ensures i <= top.number || i <= known[head].number
  {
  }

  lemma AtHeight(genesis: Block, blocks: map<Hash, Block>, known: map<Hash, Block>, before: map<nat, Hash>, head: Hash,
      chain: map<nat, Block>, b: Block, i: nat, after: map<nat, Hash>)
    requires IndexOk(genesis, blocks, before, head) && Joined(genesis, before, b)
    requires Rewritten(before, chain, b.number, i, after) && i >= b.number && i in after
    requires forall h :: h in blocks ==> h in known && known[h] == blocks[h]
    ensures after[i] in blocks && after[i] in known && known[after[i]] == blocks[after[i]]
  {
    assert OnChain(genesis, blocks, before, i);
  }

  lemma NewAt(genesis: Block, known: map<Hash, Block>, chain: map<nat, Block>, b: Block, top: Block, i: nat)
    requires NewChain(genesis, known, chain, b, top) && i in chain
    ensures Stored(known, chain[i]) && chain[i].number == i
  {
  }

  lemma NotBelow(before: map<nat, Hash>, chain: map<nat, Block>, first: nat, i: nat, after: map<nat, Hash>)
    requires Rewritten(before, chain, first, i, after) && i >= first && i !in after
    ensures i !in before
  {
  }

  lemma HeadFacts(genesis: Block, blocks: map<Hash, Block>, index: map<nat, Hash>, head: Hash, scores: map<Hash, int>)
    requires IndexOk(genesis, blocks, index, head) && Best(scores, head)
    ensures head in blocks && head in scores
  {
  }

  /** The better one of the head and the new block is best. */
  lemma BestOfTwo(genesis: Block, known: map<Hash, Block>, was: map<Hash, int>, head: Hash, scores: map<Hash, int>,
      b: Block)
    requires Best(was, head) && ScoresOk(genesis, known, scores) && b.hash in scores
    requires forall h :: h in was ==> h in scores && scores[h] == was[h]
    requires forall h :: h in known ==> h in was || h == b.hash
    ensures head in scores && scores.Keys == known.Keys
    ensures if scores[b.hash] > scores[head] then Best(scores, b.hash) else Best(scores, head)
  {
  }

  lemma ChildListed(genesis: Block, blocks: map<Hash, Block>, known: map<Hash, Block>, children: map<Hash, seq<Hash>>,
      b: Block)
    requires ChildrenOk(genesis, blocks, children) && Stored(known, b) && b.hash != genesis.hash
    requires forall h :: h in blocks ==> h in known && known[h] == blocks[h]
    requires forall h :: h in known ==> h in blocks || h == b.hash
    ensures var cs := ChildrenOf(children, b.prevhash);
            ChildrenOk(genesis, known, if b.hash in cs then children else children[b.prevhash := cs + [b.hash]])
  {
    var cs := ChildrenOf(children, b.prevhash);
    var after := if b.hash in cs then children else children[b.prevhash := cs + [b.hash]];
    forall p ensures Lists(genesis, known, p, ChildrenOf(after, p)) {
      assert Lists(genesis, blocks, p, ChildrenOf(children, p));
    }
  }

  // ---- waiting blocks ----

  lemma NothingMissing(rules: Rules, genesis: Block, blocks: map<Hash, Block>, queue: map<Hash, seq<Block>>,
      received: set<Block>)
    requires BlocksOk(rules, genesis, blocks) && ReceivedOk(rules, genesis, blocks, queue, received, {}, false)
    ensures Complete(rules, genesis, blocks, received)
  {
    hide BlocksOk;
    forall b | b in received && Acceptable(rules, blocks, b) ensures Stored(blocks, b) {
      assert HandledOk(rules, blocks, queue, b, {}, false);
    }
  }

  ghost predicate Sorted(queue: seq<Block>) {
    forall i, j :: 0 <= i < j < |queue| ==> queue[i].timestamp <= queue[j].timestamp
  }

  ghost predicate QueueBelow(queue: map<Hash, seq<Block>>, top: nat) {
    forall p, i :: p in queue && 0 <= i < |queue[p]| ==> queue[p][i].number <= top
  }

  ghost predicate Grows(before: map<Hash, Block>, after: map<Hash, Block>) {
    forall h :: h in before ==> h in after && after[h] == before[h]
  }

  lemma GrowsFacts(blocks: map<Hash, Block>)
    ensures Grows(blocks, blocks)
  {
  }

  lemma GrowsOn(a: map<Hash, Block>, b: map<Hash, Block>, c: map<Hash, Block>)
    requires Grows(a, b) && Grows(b, c)
    ensures Grows(a, c)
  {
  }

  /** A block that was rejected changes nothing but the set of received blocks, and the head state if it escapes there. */
  lemma RejectedOk(rules: Rules, genesis: Block, blocks: map<Hash, Block>, queue: map<Hash, seq<Block>>,
      received: set<Block>, busy: set<Hash>, spoiled: bool, spoiled': bool, b: Block)
    requires QueueOk(blocks, queue, received, busy)
    requires ReceivedOk(rules, genesis, blocks, queue, received, busy, spoiled)
    requires b.prevhash in blocks && (spoiled ==> spoiled') && (!spoiled' ==> !Acceptable(rules, blocks, b))
    ensures QueueOk(blocks, queue, received + {b}, busy)
    ensures ReceivedOk(rules, genesis, blocks, queue, received + {b}, busy, spoiled')
    ensures Settled(rules, blocks, b, spoiled')
  {
    hide Acceptable;
    forall r | r in received + {b} ensures HandledOk(rules, blocks, queue, r, busy, spoiled') {
      if r != b { assert HandledOk(rules, blocks, queue, r, busy, spoiled); }
    }
  }

  /** Without a block that escaped the verdict on the head is the one on the state stored for it. */
  lemma CleanHead(rules: Rules, received: set<Block>, escaped: set<Block>, tried: seq<Block>)
    requires EscapedOk(rules, received, escaped, tried)
    ensures escaped == {} ==> tried == []
  {
  }

  lemma StillEscaped(rules: Rules, received: set<Block>, escaped: set<Block>, tried: seq<Block>, b: Block)
    requires EscapedOk(rules, received, escaped, tried)
    ensures EscapedOk(rules, received + {b}, escaped, tried)
  {
  }

  lemma EscapedApplies(rules: Rules, received: set<Block>, escaped: set<Block>, tried: seq<Block>, b: Block)
    requires EscapedOk(rules, received, escaped, tried)
    ensures EscapedOk(rules, received, escaped, Try(tried, Applies, b)) && EscapedOk(rules, received, escaped, [])
  {
  }

  lemma EscapedGrows(rules: Rules, received: set<Block>, escaped: set<Block>, tried: seq<Block>, escaped': set<Block>,
      tried': seq<Block>, b: Block)
    requires EscapedOk(rules, received, escaped, tried)
    requires || (escaped' == escaped && tried' == tried)
             || (escaped' == escaped && exists v :: tried' == Try(tried, v, b) && (tried == [] ==> v != Escapes))
             || (escaped' == escaped + {b} && tried' == Try(tried, Escapes, b) && tried == [] && rules.verdict([], b) == Escapes)
    ensures EscapedOk(rules, received + {b}, escaped', tried')
  {
  }

  lemma FitsParent(rules: Rules, blocks: map<Hash, Block>, b: Block)
    ensures Fits(rules, blocks, b) ==> b.prevhash in blocks && b.number == blocks[b.prevhash].number + 1
  {
  }

  lemma StoredSettled(rules: Rules, blocks: map<Hash, Block>, b: Block, spoiled: bool)
    requires Stored(blocks, b)
    ensures Settled(rules, blocks, b, spoiled)
  {
  }

  function Waiting(queue: map<Hash, seq<Block>>, p: Hash): seq<Block> {
    if p in queue then queue[p] else []
  }

  lemma EnqueuedOk(rules: Rules, genesis: Block, blocks: map<Hash, Block>, queue: map<Hash, seq<Block>>,
      received: set<Block>, busy: set<Hash>, spoiled: bool, b: Block)
    requires QueueOk(blocks, queue, received, busy)
    requires ReceivedOk(rules, genesis, blocks, queue, received, busy, spoiled)
    requires b.prevhash !in blocks
    ensures var queue' := queue[b.prevhash := Waiting(queue, b.prevhash) + [b]];
            QueueOk(blocks, queue', received + {b}, busy) && ReceivedOk(rules, genesis, blocks, queue', received + {b}, busy, spoiled)
  {
    hide Settled;
    var queue' := queue[b.prevhash := Waiting(queue, b.prevhash) + [b]];
    assert b in queue'[b.prevhash];
    forall r | r in received + {b} ensures HandledOk(rules, blocks, queue', r, busy, spoiled) {
      if r != b { assert HandledOk(rules, blocks, queue, r, busy, spoiled); }
    }
  }

  /** After a block was stored, the blocks waiting for it must be served. */
  lemma AcceptedOk(rules: Rules, genesis: Block, blocks: map<Hash, Block>, queue: map<Hash, seq<Block>>,
      received: set<Block>, busy: set<Hash>, spoiled: bool, b: Block)
    requires QueueOk(blocks, queue, received, busy)
    requires ReceivedOk(rules, genesis, blocks, queue, received, busy, spoiled)
    requires Commits(rules, genesis) && BlocksOk(rules, genesis, blocks) && Fits(rules, blocks, b)
    requires spoiled || rules.verdict([], b) == Applies
    ensures var blocks', busy' := blocks[b.hash := b], if b.hash in queue then busy + {b.hash} else busy;
            && QueueOk(blocks', queue, received + {b}, busy')
            && ReceivedOk(rules, genesis, blocks', queue, received + {b}, busy', spoiled)
  {
    var blocks', busy' := blocks[b.hash := b], if b.hash in queue then busy + {b.hash} else busy;
    forall r | r in received + {b} ensures HandledOk(rules, blocks', queue, r, busy', spoiled) {
      if r != b {
        assert HandledOk(rules, blocks, queue, r, busy, spoiled);
      }
    }
  }

  /** Of the blocks waiting for p, those before position k were served; the early ones among them were delayed. */
  ghost predicate Served(rules: Rules, blocks: map<Hash, Block>, received: set<Block>, waiting: seq<Block>, p: Hash,
      k: nat, spoiled: bool, delayed: seq<Block>, time: int)
    requires k <= |waiting|
  {
    forall r :: r in received && r.prevhash == p ==>
      Settled(rules, blocks, r, spoiled) || r in waiting[k..] || (r.timestamp > time && r in delayed)
  }

  lemma ServeStart(rules: Rules, genesis: Block, blocks: map<Hash, Block>, queue: map<Hash, seq<Block>>,
      received: set<Block>, busy: set<Hash>, spoiled: bool, p: Hash, delayed: seq<Block>, time: int)
    requires ReceivedOk(rules, genesis, blocks, queue, received, busy, spoiled) && p in queue && p in blocks
    ensures Served(rules, blocks, received, queue[p], p, 0, spoiled, delayed, time)
  {
    hide Settled;
    assert queue[p][0..] == queue[p];
    forall r | r in received && r.prevhash == p ensures Settled(rules, blocks, r, spoiled) || r in queue[p][0..] {
      assert HandledOk(rules, blocks, queue, r, busy, spoiled);
    }
  }

  lemma StillSettled(rules: Rules, blocks: map<Hash, Block>, blocks': map<Hash, Block>, b: Block, spoiled: bool,
      spoiled': bool)
    requires b.prevhash in blocks && Grows(blocks, blocks') && (spoiled ==> spoiled')
    ensures Settled(rules, blocks, b, spoiled) ==> Settled(rules, blocks', b, spoiled')
  {
  }

  lemma ServeStep(rules: Rules, blocks: map<Hash, Block>, blocks': map<Hash, Block>, received: set<Block>,
      received': set<Block>, waiting: seq<Block>, p: Hash, k: nat, spoiled: bool, spoiled': bool, delayed: seq<Block>,
      delayed': seq<Block>, time: int)
    requires k < |waiting| && Served(rules, blocks, received, waiting, p, k, spoiled, delayed, time) && waiting[k] in received
    requires p in blocks && Grows(blocks, blocks') && Handles(delayed, delayed', received, received', time)
    requires if waiting[k].timestamp > time then waiting[k] in delayed' else Settled(rules, blocks', waiting[k], spoiled')
    requires spoiled ==> spoiled'
    ensures Served(rules, blocks', received', waiting, p, k + 1, spoiled', delayed', time)
  {
    assert received' <= received;
    assert waiting[k..] == [waiting[k]] + waiting[k + 1..];
    forall b | b in delayed ensures b in delayed' { assert b in multiset(delayed'); }
    hide Settled, Handles, Delays, Grows;
    forall r | r in received' && r.prevhash == p
      ensures Settled(rules, blocks', r, spoiled') || r in waiting[k + 1..] || (r.timestamp > time && r in delayed') {
      StillSettled(rules, blocks, blocks', r, spoiled, spoiled');
    }
  }

  /** The blocks that waited for p and were delayed instead. */
  ghost function Late(rules: Rules, blocks: map<Hash, Block>, received: set<Block>, p: Hash, spoiled: bool): set<Block> {
    set r | r in received && r.prevhash == p && !Settled(rules, blocks, r, spoiled)
  }

  lemma ServeEnd(rules: Rules, genesis: Block, blocks: map<Hash, Block>, queue: map<Hash, seq<Block>>,
      received: set<Block>, busy: set<Hash>, spoiled: bool, p: Hash, delayed: seq<Block>, time: int)
    requires BlocksOk(rules, genesis, blocks) && p in queue && p in blocks && p !in busy
    requires QueueOk(blocks, queue, received, busy + {p})
    requires ReceivedOk(rules, genesis, blocks, queue, received, busy + {p}, spoiled)
    requires Served(rules, blocks, received, queue[p], p, |queue[p]|, spoiled, delayed, time)
    ensures var late := Late(rules, blocks, received, p, spoiled);
            && QueueOk(blocks, queue - {p}, received - late, busy)
            && ReceivedOk(rules, genesis, blocks, queue - {p}, received - late, busy, spoiled)
            && (forall b :: b in late ==> b in delayed) && (NoneEarly(queue, time) ==> late == {})
  {
    var late := Late(rules, blocks, received, p, spoiled);
    forall b | b in late ensures b in delayed && !NoneEarly(queue, time) {
      assert HandledOk(rules, blocks, queue, b, busy + {p}, spoiled);
      assert b.timestamp > time && b in queue[p];
    }
    forall h | h in blocks && h != genesis.hash && blocks[h] in received ensures blocks[h] !in late {
      assert blocks[h] in received;
    }
    hide Settled;
    forall r | r in received - late ensures HandledOk(rules, blocks, queue - {p}, r, busy, spoiled) {
      assert HandledOk(rules, blocks, queue, r, busy + {p}, spoiled);
    }
  }

  lemma StillEscapedWithout(rules: Rules, blocks: map<Hash, Block>, received: set<Block>, escaped: set<Block>,
      tried: seq<Block>, p: Hash)
    requires EscapedOk(rules, received, escaped, tried)
    ensures EscapedOk(rules, received - Late(rules, blocks, received, p, escaped != {}), escaped, tried)
  {
  }

  // ---- delayed blocks ----

  lemma HandlesAll(queue: seq<Block>, had: set<Block>, time: int)
    ensures Handles(queue, queue, had, had, time)
  {
  }

  lemma HandlesEarly(before: seq<Block>, after: seq<Block>, received: set<Block>, b: Block, time: int)
    requires b.timestamp > time && Delays(before, after, {b}, time) && multiset(after) == multiset(before) + multiset{b}
    ensures Handles(before, after, received + {b}, received, time) && b in after
  {
    assert b in multiset(after);
  }

  lemma HandlesOn(a: seq<Block>, b: seq<Block>, c: seq<Block>, x: set<Block>, y: set<Block>, z: set<Block>, time: int)
    requires Handles(a, b, x, y, time) && Handles(b, c, y, z, time)
    ensures Handles(a, c, x, z, time)
  {
    forall r | r in b ensures r in c {
      assert r in multiset(c);
    }
  }

  lemma HandlesLess(before: seq<Block>, after: seq<Block>, had: set<Block>, has: set<Block>, has': set<Block>,
      time: int)
    requires Handles(before, after, had, has, time) && has' <= has && forall b :: b in has ==> b in has' || b in after
    ensures Handles(before, after, had, has', time)
  {
  }

  /** No block gets lost. */
  lemma AllMet(before: seq<Block>, after: seq<Block>, had: set<Block>, has: set<Block>, time: int)
    requires Handles(before, after, had, has, time)
    ensures has + All(after) == had + All(before)
  {
    forall b | b in before ensures b in after {
      assert b in multiset(after);
    }
  }

  /** The first n blocks are due, and no others. */
  ghost predicate DueFirst(queue: seq<Block>, time: int, n: nat) {
    n <= |queue| && forall i :: 0 <= i < |queue| ==> (queue[i].timestamp <= time <==> i < n)
  }

  ghost function Due(queue: seq<Block>, time: int): (n: nat)
    ensures n <= |queue| && (Sorted(queue) ==> DueFirst(queue, time, n))
  {
    if queue == [] || queue[0].timestamp > time then 0 else 1 + Due(queue[1..], time)
  }

  lemma TakeOut(queue: seq<Block>, time: int, due: nat, i: nat, received: set<Block>)
    requires Sorted(queue) && DueFirst(queue, time, due) && i < due
    ensures var rest := queue[..i] + queue[i + 1..];
            && Sorted(rest) && DueFirst(rest, time, due - 1) && |rest| == |queue| - 1
            && (forall b :: b in rest ==> b in queue)
            && received + All(rest) + {queue[i]} == received + All(queue)
  {
    var rest := queue[..i] + queue[i + 1..];
    forall j | 0 <= j < |rest| ensures rest[j] == queue[if j < i then j else j + 1] {
    }
    forall b | b in queue ensures b in rest || b == queue[i] {
      var j :| 0 <= j < |queue| && queue[j] == b;
      assert j != i ==> rest[if j < i then j else j - 1] == b;
    }
  }

  /** The due blocks stay first when others are delayed. */
  lemma PutBack(before: seq<Block>, after: seq<Block>, time: int, due: nat, had: set<Block>, has: set<Block>)
    requires Handles(before, after, had, has, time) && DueFirst(before, time, due)
    ensures DueFirst(after, time, due)
    ensures forall b :: b in after ==> b in before || (b in had && b.timestamp > time)
  {
    if due > 0 { assert before[due - 1].timestamp <= time && after[due - 1] == before[due - 1]; }
    forall i | 0 <= i < |after| ensures after[i].timestamp <= time <==> i < due {
      if i < due { assert before[i].timestamp <= time; }
    }
  }

  lemma StillBelow(queue: map<Hash, seq<Block>>, top: nat, b: Block)
    requires QueueBelow(queue, top) && b.number <= top
    ensures QueueBelow(queue[b.prevhash := Waiting(queue, b.prevhash) + [b]], top)
  {
  }

  lemma StillNoneEarly(queue: map<Hash, seq<Block>>, time: int, b: Block)
    requires b.timestamp <= time
    ensures NoneEarly(queue, time) ==> NoneEarly(queue[b.prevhash := Waiting(queue, b.prevhash) + [b]], time)
  {
  }

  lemma FewerEarly(queue: map<Hash, seq<Block>>, time: int, p: Hash)
    ensures NoneEarly(queue, time) ==> NoneEarly(queue - {p}, time)
  {
  }

  lemma FewerBelow(queue: map<Hash, seq<Block>>, top: nat, p: Hash)
    requires QueueBelow(queue, top)
    ensures QueueBelow(queue - {p}, top)
  {
  }

  lemma WaitingFacts(blocks: map<Hash, Block>, queue: map<Hash, seq<Block>>, received: set<Block>, busy: set<Hash>,
      top: nat, p: Hash, k: nat, time: int)
    requires QueueOk(blocks, queue, received, busy) && QueueBelow(queue, top) && p in queue && k < |queue[p]|
    ensures var w := queue[p][k]; w.prevhash == p && w in received && w.number <= top && (NoneEarly(queue, time) ==> w.timestamp <= time)
  {
  }

  /** The parents being served are lower than a block that can be stored. */
  lemma NotBusy(rules: Rules, genesis: Block, blocks: map<Hash, Block>, b: Block, busy: set<Hash>)
    requires Commits(rules, genesis) && BlocksOk(rules, genesis, blocks) && Fits(rules, blocks, b)
    requires forall h :: h in busy ==> h in blocks && blocks[h].number <= blocks[b.prevhash].number
    ensures b.hash !in busy
    ensures forall h :: h in busy ==> blocks[b.hash := b][h] == blocks[h]
    ensures Grows(blocks, blocks[b.hash := b])
  {
    NewBlock(rules, genesis, blocks, b);
  }

  ghost function Highest(received: set<Block>): (top: nat)
    ensures forall b :: b in received ==> b.number <= top
    decreases |received|
  {
    if received == {} then 0
    else
      var b :| b in received;
      var rest := Highest(received - {b});
      assert forall c :: c in received && c != b ==> c in received - {b};
      if b.number > rest then b.number else rest
  }

  lemma TopBounds(blocks: map<Hash, Block>, queue: map<Hash, seq<Block>>, received: set<Block>, block: Block, top: nat)
    requires QueueOk(blocks, queue, received, {}) && forall b :: b in received + {block} ==> b.number <= top
    ensures QueueBelow(queue, top) && block.number <= top
  {
    assert block in received + {block};
    forall p, i | p in queue && 0 <= i < |queue[p]| ensures queue[p][i].number <= top {
      assert queue[p][i] in received + {block};
    }
  }

  lemma InsertSorted(queue: seq<Block>, i: nat, b: Block)
    requires Sorted(queue) && i <= |queue| && (i < |queue| ==> b.timestamp <= queue[i].timestamp)
    requires forall j :: 0 <= j < i ==> queue[j].timestamp < b.timestamp
    ensures Sorted(queue[..i] + [b] + queue[i..])
  {
    var after := queue[..i] + [b] + queue[i..];
    forall j, k | 0 <= j < k < |after| ensures after[j].timestamp <= after[k].timestamp {
      InsertAt(queue, i, b, j);
      InsertAt(queue, i, b, k);
    }
  }

  lemma InsertDelays(queue: seq<Block>, i: nat, b: Block)
    requires Sorted(queue) && i <= |queue| && (i < |queue| ==> b.timestamp <= queue[i].timestamp)
    ensures multiset(queue[..i] + [b] + queue[i..]) == multiset(queue) + multiset{b}
    ensures forall time | time < b.timestamp :: Delays(queue, queue[..i] + [b] + queue[i..], {b}, time)
  {
    var after := queue[..i] + [b] + queue[i..];
    assert queue == queue[..i] + queue[i..];
    assert multiset(after) == multiset(queue) + multiset{b};
    forall time | time < b.timestamp ensures Delays(queue, after, {b}, time) {
      forall j | 0 <= j < |after| ensures after[j].timestamp <= time ==> j < |queue| && queue[j] == after[j] {
        InsertAt(queue, i, b, j);
      }
      forall c | c in after ensures c in queue || c == b {
        assert c in multiset(after);
      }
    }
  }

  lemma InsertAt(queue: seq<Block>, i: nat, b: Block, j: nat)
    requires i <= |queue| && j <= |queue|
    ensures (queue[..i] + [b] + queue[i..])[j] == if j < i then queue[j] else if j == i then b else queue[j - 1]
  {
  }

  // ---- transaction entries across a reorganisation ----

  /** The old canonical block at a height holds the transaction. */
  ghost predicate HeldBy(blocks: map<Hash, Block>, index: map<nat, Hash>, n: nat, t: Tx) {
    n in index && index[n] in blocks && t in blocks[index[n]].transactions
  }

  ghost function NewTransactions(chain: map<nat, Block>, n: nat): seq<Tx> {
    if n in chain then chain[n].transactions else []
  }

  /** The transaction has an entry after the heights from `first` up to i were rewritten. */
  ghost predicate Kept(blocks: map<Hash, Block>, before: map<nat, Hash>, chain: map<nat, Block>, entries: set<Tx>,
      first: nat, i: nat, t: Tx)
    decreases i
  {
    if i <= first then t in entries
    else (Kept(blocks, before, chain, entries, first, i - 1, t) && !HeldBy(blocks, before, i - 1, t)) || t in NewTransactions(chain, i - 1)
  }

  lemma KeptStart(blocks: map<Hash, Block>, before: map<nat, Hash>, chain: map<nat, Block>, entries: set<Tx>,
      first: nat)
    ensures forall t :: Kept(blocks, before, chain, entries, first, first, t) <==> t in entries
  {
  }

  lemma KeptStep(blocks: map<Hash, Block>, before: map<nat, Hash>, chain: map<nat, Block>, entries: set<Tx>, first: nat,
      i: nat, now: map<nat, Hash>)
    requires first <= i && Rewritten(before, chain, first, i, now)
    ensures forall t :: Kept(blocks, before, chain, entries, first, i + 1, t) <==>
      ((Kept(blocks, before, chain, entries, first, i, t) && !HeldBy(blocks, now, i, t)) || t in NewTransactions(chain, i))
  {
  }

  lemma NewChainFacts(genesis: Block, known: map<Hash, Block>, before: map<nat, Hash>, head: Hash,
      chain: map<nat, Block>, b: Block, top: Block, i: nat, after: map<nat, Hash>)
    requires IndexOk(genesis, known, before, head) && NewChain(genesis, known, chain, b, top)
    requires Joined(genesis, before, b)
    requires Rewritten(before, chain, b.number, i, after) && i >= b.number && i !in chain && i !in after
    ensures i > top.number && i > known[head].number
    ensures forall n :: n in chain <==> b.number <= n <= top.number
    ensures forall n :: n in chain ==> n in after && after[n] == chain[n].hash
  {
    assert i > genesis.number && (i <= known[head].number ==> OnChain(genesis, known, before, i));
  }

  /** A rewritten transaction keeps its entry exactly if some new block holds it and no higher old block does;
      one that no new block holds, if it had an entry and no replaced block held it. */
  lemma {:induction false} KeptIff(blocks: map<Hash, Block>, before: map<nat, Hash>, chain: map<nat, Block>,
      entries: set<Tx>, first: nat, i: nat, t: Tx)
    requires first <= i
    ensures Kept(blocks, before, chain, entries, first, i, t) <==>
      || (exists n :: first <= n < i && t in NewTransactions(chain, n) && forall m :: n < m < i ==> !HeldBy(blocks, before, m, t))
      || (t in entries && forall m :: first <= m < i ==> !HeldBy(blocks, before, m, t))
    decreases i
  {
    hide HeldBy, NewTransactions;
    if i > first {
      KeptIff(blocks, before, chain, entries, first, i - 1, t);
    }
  }

  /** A transaction that moves to a lower height loses its entry. */
  lemma MovedDownLosesEntry(a1: Block, a2: Block, b1: Block, b2: Block, t: Tx)
    requires a1.hash != a2.hash && a2.transactions == [t] && b1.transactions == [t] && b2.transactions == []
    ensures var blocks, before, chain := map[a1.hash := a1, a2.hash := a2], map[1 := a1.hash, 2 := a2.hash], map[1 := b1, 2 := b2];
            !Kept(blocks, before, chain, {t}, 1, 3, t)
  {
    var blocks, before, chain := map[a1.hash := a1, a2.hash := a2], map[1 := a1.hash, 2 := a2.hash], map[1 := b1, 2 := b2];
    assert HeldBy(blocks, before, 2, t) && NewTransactions(chain, 2) == [];
  }
}
