/** What stands behind the verdicts of the chain: blocks tried in turn on one head state. */
module HeadRun {
  import opened ByteStrings
  import opened World
  import opened Headers
  import opened StateJournal
  import opened Tracking
  import opened TxRun
  import opened BlockRun
  import P = PowChain
  import T = Transactions
  import U = Uncles

  /** A head state by what the next block sees of it; clean if its journal is empty. */
  datatype Head = Head(world: World, params: Params, clean: bool)

  ghost predicate Stands(state: State, h: Head)
    reads state, state.Accounts()
  {
    InStep(state) && state.View() == h.world && BlockPart(state.params) == BlockPart(h.params) && (h.clean ==> state.journal == [])
  }

  ghost function VerdictOn(c: Consensus, h: Head, b: Block): P.Verdict
    requires Sound(c)
  {
    if Accepts(c, h.params, b, h.world) then P.Applies
    else if Escapes(c, h.params, b, h.world) then P.Escapes
    else P.Undoes
  }

  /** The revert gives the state back: it was clean, or nothing was committed since. */
  ghost predicate Known(c: Consensus, h: Head, b: Block)
    requires Sound(c)
  {
    VerdictOn(c, h, b) == P.Undoes && !h.clean ==> !Committing(c, h.params, b, h.world)
  }

  /** The head state after one more block. */
  ghost function After(c: Consensus, h: Head, b: Block): Head
    requires Sound(c)
  {
    match VerdictOn(c, h, b)
    case Applies =>
      Head(CommitWorld(c.env(b.header), Finalized(c, b, ProcessOf(c, b, h.world).world)), AfterBlock(c, b, h.params), true)
    case Escapes =>
      Head(if UnclesOf(c, h.params, b).Some? then h.world else ProcessOf(c, b, h.world).world, Initialized(c, b, h.params), false)
    case Undoes => h
  }

  ghost function AfterAll(c: Consensus, h: Head, bs: seq<Block>): Head
    requires Sound(c)
  {
    if bs == [] then h else After(c, AfterAll(c, h, bs[..|bs| - 1]), bs[|bs| - 1])
  }

  ghost predicate AllKnown(c: Consensus, h: Head, bs: seq<Block>)
    requires Sound(c)
  {
    bs != [] ==> AllKnown(c, h, bs[..|bs| - 1]) && Known(c, AfterAll(c, h, bs[..|bs| - 1]), bs[|bs| - 1])
  }

  lemma OneMore(c: Consensus, h: Head, bs: seq<Block>, b: Block)
    requires Sound(c) && AllKnown(c, h, bs)
    ensures AfterAll(c, h, bs + [b]) == After(c, AfterAll(c, h, bs), b)
    ensures AllKnown(c, h, bs + [b]) <==> Known(c, AfterAll(c, h, bs), b)
  {
    assert (bs + [b])[..|bs|] == bs;
  }

  /** What a block makes of a state depends on the headers and the uncles it remembers. */
  lemma SameOutcome(c: Consensus, p: Params, q: Params, b: Block, w: World)
    requires Sound(c) && BlockPart(p) == BlockPart(q)
    ensures Accepts(c, p, b, w) <==> Accepts(c, q, b, w)
    ensures Escapes(c, p, b, w) <==> Escapes(c, q, b, w)
    ensures Committing(c, p, b, w) <==> Committing(c, q, b, w)
    ensures UnclesOf(c, p, b) == UnclesOf(c, q, b)
    ensures BlockPart(Initialized(c, b, p)) == BlockPart(Initialized(c, b, q))
    ensures BlockPart(AfterBlock(c, b, p)) == BlockPart(AfterBlock(c, b, q))
  {
    hide Process, Finalized, CommitWorld, Sound;
    assert p.prevHeaders == BlockPart(p).prevHeaders && q.prevHeaders == BlockPart(q).prevHeaders;
    assert p.recentUncles == BlockPart(p).recentUncles && q.recentUncles == BlockPart(q).recentUncles;
  }

  /** `apply_block` on the head state, after other blocks were tried on it: the verdict is the one described, and so is the
      state it leaves, unless a revert that is not meant for it changed it. */
  method TryOnHead(c: Consensus, state: State, ghost h: Head, b: Block, ghost genesis: Header,
      ghost chain: seq<U.Block>) returns (v: P.Verdict)
    requires Sound(c) && Stands(state, h) && HeadOk(c, state.params, genesis, chain)
    modifies state, state.Accounts()
    ensures v == VerdictOn(c, h, b)
    ensures HeadOk(c, state.params, genesis, if v == P.Applies then chain + [UncleBlock(b)] else chain)
    ensures Known(c, h, b) ==> Stands(state, After(c, h, b))
    ensures fresh(state.Accounts() - old(state.Accounts()))
  {
    hide State.View, CachedAccount.View, Sound, HeadOk, InStep, Accepts, Escapes, Committing, Process, Finalized,
      CommitWorld, UnclesOf, Rooted, Tracked;
    hide BlockPart, Initialized, AfterBlock;
    SameOutcome(c, state.params, h.params, b, state.View());
    ghost var p, w, j := state.params, state.View(), state.journal;
    ghost var trie;
    var o;
    o, trie := ApplyBlock(c, state, b, genesis, chain);
    TornFacts(c, p, b, w, j);
    v := match o case Applied => P.Applies case Escaped => P.Escapes case _ => P.Undoes;
  }

  lemma TornFacts(c: Consensus, p: Params, b: Block, w: World, j: seq<Undo>)
    requires Sound(c)
    ensures Accepts(c, p, b, w) ==> !Escapes(c, p, b, w)
    ensures Torn(c, p, b, w, j) ==> j != [] && Committing(c, p, b, w) && !Accepts(c, p, b, w) && !Escapes(c, p, b, w)
  {
  }

  /** The same for a list of blocks, one after the other. */
  method TryInTurn(c: Consensus, state: State, ghost h: Head, bs: seq<Block>, b: Block, ghost genesis: Header,
      ghost chain: seq<U.Block>) returns (v: P.Verdict, ghost chain': seq<U.Block>)
    requires Sound(c) && Stands(state, h) && HeadOk(c, state.params, genesis, chain) && AllKnown(c, h, bs)
    modifies state, state.Accounts()
    ensures v == VerdictOn(c, AfterAll(c, h, bs), b) && HeadOk(c, state.params, genesis, chain')
    ensures Known(c, AfterAll(c, h, bs), b) ==> Stands(state, AfterAll(c, h, bs + [b]))
  {
    hide Sound, HeadOk, Known, After, Stands, VerdictOn;
    chain' := chain;
    for i := 0 to |bs|
      invariant Stands(state, AfterAll(c, h, bs[..i])) && HeadOk(c, state.params, genesis, chain')
      invariant fresh(state.Accounts() - old(state.Accounts()))
    {
      KnownAt(c, h, bs, i);
      var u := TryOnHead(c, state, AfterAll(c, h, bs[..i]), bs[i], genesis, chain');
      chain' := if u == P.Applies then chain' + [UncleBlock(bs[i])] else chain';
    }
    assert bs[..|bs|] == bs;
    OneMore(c, h, bs, b);
    v := TryOnHead(c, state, AfterAll(c, h, bs), b, genesis, chain');
    chain' := if v == P.Applies then chain' + [UncleBlock(b)] else chain';
  }

  lemma {:induction false} KnownAt(c: Consensus, h: Head, bs: seq<Block>, i: nat)
    requires Sound(c) && AllKnown(c, h, bs) && i < |bs|
    ensures Known(c, AfterAll(c, h, bs[..i]), bs[i])
    ensures AfterAll(c, h, bs[..i + 1]) == After(c, AfterAll(c, h, bs[..i]), bs[i])
    decreases |bs|
  {
    hide Known, After, Sound;
    var init := bs[..|bs| - 1];
    if i < |bs| - 1 {
      KnownAt(c, h, init, i);
      assert init[..i] == bs[..i] && init[..i + 1] == bs[..i + 1];
    } else {
      assert bs[..i + 1] == bs && bs[..i] == init;
    }
  }

  // ---- the rules of the chain ----

  /** The blocks behind what the chain looks at. */
  ghost function Bodies(bodyOf: P.Block -> Block, bs: seq<P.Block>): (r: seq<Block>)
    ensures |r| == |bs| && forall i :: 0 <= i < |bs| ==> r[i] == bodyOf(bs[i])
  {
    seq(|bs|, i requires 0 <= i < |bs| => bodyOf(bs[i]))
  }

  /** The head whose stored state was the last clean one. */
  function CleanHead(tried: seq<P.Block>, b: P.Block): P.Hash {
    if tried == [] then b.prevhash else tried[0].prevhash
  }

  /** The verdicts are those of `apply_block`: on the state stored for the parent, or on what the blocks tried since have left
      of the one stored for the head. */
  ghost predicate Realizes(c: Consensus, rules: P.Rules, bodyOf: P.Block -> Block, stored: P.Hash -> Head)
    requires Sound(c)
  {
    forall tried: seq<P.Block>, b: P.Block :: RealizedAt(c, rules, bodyOf, stored(CleanHead(tried, b)), tried, b)
  }

  ghost predicate RealizedAt(c: Consensus, rules: P.Rules, bodyOf: P.Block -> Block, h: Head, tried: seq<P.Block>,
      b: P.Block)
    requires Sound(c)
  {
    AllKnown(c, h, Bodies(bodyOf, tried)) ==> rules.verdict(tried, b) == VerdictOn(c, AfterAll(c, h, Bodies(bodyOf, tried)), bodyOf(b))
  }

  /** On a clean head the list of tried blocks stays empty exactly as long as the state stays as stored, and a block that is not
      applied changes it only by escaping. */
  lemma CleanStays(c: Consensus, rules: P.Rules, bodyOf: P.Block -> Block, stored: P.Hash -> Head, b: P.Block)
    requires Sound(c) && Realizes(c, rules, bodyOf, stored) && stored(b.prevhash).clean
    ensures rules.verdict([], b) == VerdictOn(c, stored(b.prevhash), bodyOf(b))
    ensures rules.verdict([], b) == P.Undoes ==>
      P.Try([], rules.verdict([], b), b) == [] && Known(c, stored(b.prevhash), bodyOf(b)) && After(c, stored(b.prevhash), bodyOf(b)) == stored(b.prevhash)
    ensures rules.verdict([], b) == P.Escapes ==>
      P.Try([], rules.verdict([], b), b) == [b] && AfterAll(c, stored(b.prevhash), Bodies(bodyOf, [b])) == After(c, stored(b.prevhash), bodyOf(b))
  {
    hide Accepts, Escapes, Committing;
    assert RealizedAt(c, rules, bodyOf, stored(CleanHead([], b)), [], b);
    assert Bodies(bodyOf, []) == [];
    assert Bodies(bodyOf, [b]) == [] + [bodyOf(b)];
    OneMore(c, stored(b.prevhash), [], bodyOf(b));
  }

  /** Two blocks on the genesis block, one that holds a plain transaction twice and one that holds it once and is applied to the
      stored state, are rivals: the first one received decides. */
  lemma RivalsExist(c: Consensus, rules: P.Rules, bodyOf: P.Block -> Block, stored: P.Hash -> Head, genesis: P.Block,
      x: P.Block, y: P.Block, tx: T.Tx, now: int)
    requires Sound(c) && Realizes(c, rules, bodyOf, stored) && stored(genesis.hash).clean && Sane(stored(genesis.hash).world)
    requires P.Commits(rules, genesis) && rules.wellFormed(x) && rules.wellFormed(y)
    requires x.prevhash == genesis.hash && x.number == genesis.number + 1 && x.timestamp <= now
    requires y.prevhash == genesis.hash && y.number == genesis.number + 1 && y.timestamp <= now
    requires bodyOf(x).transactions == [tx, tx] && bodyOf(y).transactions == [tx]
    requires Begins(c, stored(genesis.hash).params, bodyOf(x))
    requires Begins(c, Initialized(c, bodyOf(x), stored(genesis.hash).params), bodyOf(y))
    requires Accepts(c, stored(genesis.hash).params, bodyOf(y), stored(genesis.hash).world)
    requires Plain(TxEnv(c, bodyOf(x).header, tx), tx, stored(genesis.hash).world, T.Block(0, bodyOf(x).header.gasLimit))
    requires Plain(TxEnv(c, bodyOf(y).header, tx), tx, stored(genesis.hash).world, T.Block(0, bodyOf(y).header.gasLimit))
    ensures P.Rivals(rules, genesis, x, y, now)
  {
    hide Realizes, Process, Plain, HeaderFits, UnclesOf, TxEnv, P.Commits, Sane, Sound, Finalized, CommitWorld;
    var h, xb, yb := stored(genesis.hash), bodyOf(x), bodyOf(y);
    var p' := Initialized(c, xb, h.params);
    CleanStays(c, rules, bodyOf, stored, x);
    CleanStays(c, rules, bodyOf, stored, y);
    OrderMatters(c, h.params, xb, yb, tx, h.world, p');
    SecondEscapes(c, rules, bodyOf, stored, x, y);
    TornFacts(c, h.params, xb, h.world, []);
    TornFacts(c, p', yb, ProcessOf(c, xb, h.world).world, []);
  }

  lemma SecondEscapes(c: Consensus, rules: P.Rules, bodyOf: P.Block -> Block, stored: P.Hash -> Head, x: P.Block,
      y: P.Block)
    requires Sound(c) && Realizes(c, rules, bodyOf, stored) && VerdictOn(c, stored(x.prevhash), bodyOf(x)) == P.Escapes
    ensures rules.verdict([x], y) == VerdictOn(c, After(c, stored(x.prevhash), bodyOf(x)), bodyOf(y))
  {
    hide Accepts, Escapes, Committing;
    assert RealizedAt(c, rules, bodyOf, stored(CleanHead([x], y)), [x], y);
    assert Bodies(bodyOf, [x]) == [] + [bodyOf(x)];
    OneMore(c, stored(x.prevhash), [], bodyOf(x));
  }
}
