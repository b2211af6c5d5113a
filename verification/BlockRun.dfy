/** Applying a block to the state of the chain's head: ethereum/meta.py with ethereum/pow/consensus.py. */
module BlockRun {
  import opened ByteStrings
  import opened Words
  import opened World
  import W = World
  import opened Evm
  import opened EvmSafety
  import T = Transactions
  import opened Headers
  import opened StateJournal
  import opened Tracking
  import opened TxRun
  import U = Uncles

  datatype Block = Block(header: Header, uncles: seq<Header>, transactions: seq<T.Tx>)

  function UncleBlock(b: Block): U.Block { U.Block(b.header, b.uncles) }

  /** Hash functions and roots, the header checks besides parent hash and number, the seal, and per header the environment
      of its transactions and the rewards. */
  datatype Consensus = Consensus(
    rules: U.Rules, digests: Digests, txRootOf: seq<T.Tx> -> Hash, receiptsRootOf: seq<Receipt> -> Hash,
    validHeader: (Header, Header) -> bool, sealOk: Header -> bool,
    env: Header -> Env, blockReward: Header -> int, nephewReward: Header -> int)

  ghost predicate Sound(c: Consensus) {
    && U.Injective(c.rules)
    && forall h: Header :: SoundEnv(c.env(h)) && c.env(h).coinbase == h.coinbase
  }

  function TxEnv(c: Consensus, h: Header, tx: T.Tx): Env {
    c.env(h).(txOrigin := tx.sender, txGasPrice := Mask(tx.gasprice))
  }

  lemma TxEnvSound(c: Consensus, h: Header, tx: T.Tx)
    requires Sound(c)
    ensures SoundEnv(TxEnv(c, h, tx)) && TxEnv(c, h, tx).metropolis == c.env(h).metropolis
  {
  }

  // ---- what happens to a block ----

  /** A rejected block is undone, unless its exception is one that `apply_block` does not catch, or the revert is refused. */
  datatype Outcome = Applied | Undone | Refused | Escaped

  /** AssertionError is caught; the exceptions of an invalid transaction are not. */
  predicate Caught(e: T.Error) { e == T.AssertionError }

  /** The proof of work of an uncle is asserted; all other uncle errors are raised as VerificationFailed, which is not caught. */
  predicate CaughtUncle(e: U.Error) { e == U.PowAssertion }

  /** What the block counts while its transactions are applied. */
  datatype Tally = Tally(gasUsed: int, bloom: nat, receipts: seq<Receipt>)

  const NO_TALLY := Tally(0, 0, [])

  function TallyOf(p: Params): Tally { Tally(p.gasUsed, p.bloom, p.receipts) }

  /** The count with one more applied transaction. */
  function Counted(c: Consensus, env: Env, o: T.Outcome, t: Tally): Tally
    requires o.Applied?
  {
    Tally(t.gasUsed + o.gasUsed, Or(t.bloom, c.digests.bloomOf(o.world.logs)),
          t.receipts + [ReceiptOf(c.digests, env, o, t.gasUsed + o.gasUsed)])
  }

  /** The transactions up to the first that raises an exception: that exception, the world then, the count, and how many were
      applied. */
  datatype Processed = Processed(error: Option<T.Error>, world: World, tally: Tally, applied: nat)

  ghost function Process(c: Consensus, h: Header, txs: seq<T.Tx>, w: World, tally: Tally): Processed
    requires Sound(c)
  {
    if txs == [] then Processed(None, w, tally, 0)
    else
      TxEnvSound(c, h, txs[0]);
      var env := TxEnv(c, h, txs[0]);
      var o := T.ApplyTransaction(env, txs[0], w, T.Block(tally.gasUsed, h.gasLimit));
      if o.Rejected? then Processed(Some(o.error), o.world, tally, 0)
      else
        var rest := Process(c, h, txs[1..], WorldAfter(env, o), Counted(c, env, o, tally));
        rest.(applied := rest.applied + 1)
  }

  /** Rewards: the miner with its nephews, then the uncles. */
  function Rewarded(c: Consensus, h: Header, uncles: seq<Header>, w: World): World {
    if uncles == [] then w
    else
      var u := uncles[|uncles| - 1];
      DeltaBalance(Rewarded(c, h, uncles[..|uncles| - 1], w), u.coinbase, U.UncleReward(c.blockReward(h), u.number, h.number))
  }

  function Finalized(c: Consensus, b: Block, w: World): World {
    Rewarded(c, b.header, b.uncles,
             DeltaBalance(w, b.header.coinbase, c.blockReward(b.header) + c.nephewReward(b.header) * |b.uncles|))
  }

  /** Parameters that belong to the block, without those that its transactions change. */
  function BlockPart(p: Params): Params {
    p.(txindex := 0, gasUsed := 0, receipts := [], bloom := 0)
  }

  function Initialized(c: Consensus, b: Block, p: Params): Params {
    p.(txindex := 0, gasUsed := 0, receipts := [], bloom := 0,
       timestamp := b.header.timestamp, gasLimit := b.header.gasLimit, blockNumber := b.header.number,
       recentUncles := p.recentUncles[b.header.number := U.Hashes(c.rules, b.uncles)],
       coinbase := b.header.coinbase, difficulty := b.header.difficulty)
  }

  // ---- the head ----

  /** The parameters of a head state over a chain of blocks that respects the uncle rules. */
  ghost predicate HeadOk(c: Consensus, p: Params, genesis: Header, chain: seq<U.Block>) {
    && U.Linked(c.rules, genesis, chain)
    && U.KnowsHeaders(genesis, chain, p.prevHeaders)
    && U.Remembers(c.rules, chain, p.recentUncles)
    && U.Safe(genesis, chain)
  }

  // ---- uncles ----

  /** The hashes no uncle of the block may have. */
  method IneligibleFor(c: Consensus, p: Params, block: U.Block) returns (ineligible: set<Hash>)
    requires p.blockNumber == block.header.number
    ensures ineligible == U.Barred(c.rules, block, p.prevHeaders, p.recentUncles)
  {
    ineligible := set h | h in U.Hashes(c.rules, U.AncestorChain(block, p.prevHeaders));
    var keys: set<int> := p.recentUncles.Keys;
    ghost var chainHashes := ineligible;
    while keys != {}
      invariant keys <= p.recentUncles.Keys
      invariant ineligible == chainHashes + U.RecentFrom(p.recentUncles - keys, block.header.number)
      decreases |keys|
    {
      assert (forall m :: m !in keys) ==> keys == {};
      var m :| m in keys;
      U.RecentStep(p.recentUncles, keys, m, block.header.number);
      keys := keys - {m};
      if p.blockNumber > m >= p.blockNumber - U.MAX_UNCLE_DEPTH {
        ineligible := ineligible + set h | h in p.recentUncles[m];
      }
    }
    assert p.recentUncles - keys == p.recentUncles;
  }

  /** Runs the checks one uncle at a time. */
  method ValidateUncles(c: Consensus, p: Params, block: U.Block) returns (e: Option<U.Error>)
    requires p.blockNumber == block.header.number
    ensures e == U.UnclesError(c.rules, block, p.prevHeaders, p.recentUncles)
  {
    if c.rules.hashUncles(block.uncles) != block.header.unclesHash { return Some(U.HashMismatch); }
    if |block.uncles| > U.MAX_UNCLES { return Some(U.TooManyUncles); }
    for i := 0 to |block.uncles|
      invariant U.NumbersBelow(block.uncles[..i], block.header.number)
    {
      if block.uncles[i].number >= block.header.number { return Some(U.NumberTooHigh); }
      assert block.uncles[..i + 1] == block.uncles[..i] + [block.uncles[i]];
    }
    assert block.uncles[..|block.uncles|] == block.uncles;
    var ancestors := U.AncestorChain(block, p.prevHeaders);
    var ineligible := IneligibleFor(c, p, block);
    for i := 0 to |block.uncles|
      invariant U.CheckUncles(c.rules, block.uncles, ancestors, U.Barred(c.rules, block, p.prevHeaders, p.recentUncles))
             == U.CheckUncles(c.rules, block.uncles[i..], ancestors, ineligible)
    {
      e := U.CheckUncle(c.rules, block.uncles[i], ancestors, ineligible);
      if e.Some? { return; }
      ineligible := ineligible + {c.rules.hash(block.uncles[i])};
    }
    return None;
  }

  // ---- transactions and rewards ----

  /** What was reached before a commit: the trie is the one of the beginning, and the journal leads back. */
  ghost predicate Uncommitted(w0: World, j0: seq<Undo>, t0: map<Address, Record>, w: World, j: seq<Undo>,
      t: map<Address, Record>)
  {
    t == t0 && Leads(w0, j0, w, j)
  }

  /** The state of the loop: what is left to do leads to the same end, and nothing was committed in Metropolis. */
  ghost predicate Underway(c: Consensus, b: Block, i: nat, p: Processed, w0: World, j0: seq<Undo>,
      t0: map<Address, Record>, w: World, j: seq<Undo>, t: map<Address, Record>, tally: Tally)
    requires Sound(c) && i <= |b.transactions|
  {
    var rest := Process(c, b.header, b.transactions[i..], w, tally);
    && p == rest.(applied := i + rest.applied)
    && (c.env(b.header).metropolis || i == 0 ==> Uncommitted(w0, j0, t0, w, j, t))
    && (i > 0 ==> j != [])
  }

  /** The outcome of the next transaction, seen from the whole block. */
  lemma UnderwayOn(c: Consensus, b: Block, i: nat, p: Processed, w0: World, j0: seq<Undo>, t0: map<Address, Record>,
      w: World, j: seq<Undo>, t: map<Address, Record>, tally: Tally, w': World, j': seq<Undo>, t': map<Address, Record>)
    requires Sound(c) && i < |b.transactions|
    requires Underway(c, b, i, p, w0, j0, t0, w, j, t, tally)
    requires SoundEnv(TxEnv(c, b.header, b.transactions[i]))
    requires var env := TxEnv(c, b.header, b.transactions[i]);
             var o := T.ApplyTransaction(env, b.transactions[i], w, T.Block(tally.gasUsed, b.header.gasLimit));
             && w' == WorldAfter(env, o)
             && (env.metropolis || o.Rejected? ==> Uncommitted(w, j, t, w', j', t'))
             && (o.Applied? ==> j' != [])
    ensures var env := TxEnv(c, b.header, b.transactions[i]);
            var o := T.ApplyTransaction(env, b.transactions[i], w, T.Block(tally.gasUsed, b.header.gasLimit));
            && (o.Rejected? ==>
                  && p == Processed(Some(o.error), w', tally, i)
                  && (c.env(b.header).metropolis || i == 0 ==> Uncommitted(w0, j0, t0, w', j', t'))
                  && (i > 0 ==> j' != []))
            && (o.Applied? ==>
                  Underway(c, b, i + 1, p, w0, j0, t0, w', j', t', Counted(c, env, o, tally)))
  {
    hide T.ApplyTransaction, SoundEnv;
    var txs := b.transactions[i..];
    assert txs[1..] == b.transactions[i + 1..] && txs[0] == b.transactions[i];
    var env := TxEnv(c, b.header, txs[0]);
    var o := T.ApplyTransaction(env, txs[0], w, T.Block(tally.gasUsed, b.header.gasLimit));
    if (env.metropolis || o.Rejected?) && (env.metropolis || i == 0) {
      LeadsTransitive(w0, j0, w, j, w', j');
    }
  }

  /** The loop over the transactions of a block. */
  method ProcessTransactions(c: Consensus, state: State, b: Block) returns (error: Option<T.Error>)
    requires Sound(c) && InStep(state) && state.params.gasLimit == b.header.gasLimit
    modifies state, state.Accounts()
    ensures InStep(state) && fresh(state.Accounts() - old(state.Accounts()))
    ensures var p := Process(c, b.header, b.transactions, old(state.View()), TallyOf(old(state.params)));
            && error == p.error && state.View() == p.world
            && TallyOf(state.params) == p.tally
            && (c.env(b.header).metropolis || p.applied == 0 ==>
                  Uncommitted(old(state.View()), old(state.journal), old(state.trie), state.View(), state.journal, state.trie))
            && (p.applied > 0 ==> state.journal != [])
    ensures BlockPart(state.params) == BlockPart(old(state.params))
  {
    hide State.View, CachedAccount.View, T.ApplyTransaction, Leads, Sound, InStep, Conserves, Underway, Process,
      TxEnv, SoundEnv;
    ghost var w, j, t := state.View(), state.journal, state.trie;
    ghost var p := Process(c, b.header, b.transactions, w, TallyOf(state.params));
    UnderwayStart(c, b, w, j, t, TallyOf(state.params));
    error := None;
    for i := 0 to |b.transactions|
      invariant InStep(state) && fresh(state.Accounts() - old(state.Accounts())) && error == None
      invariant BlockPart(state.params) == BlockPart(old(state.params))
      invariant Underway(c, b, i, p, w, j, t, state.View(), state.journal, state.trie, TallyOf(state.params))
    {
      ghost var w1, j1, t1, q := state.View(), state.journal, state.trie, state.params;
      TxEnvSound(c, b.header, b.transactions[i]);
      var success, output;
      error, success, output := ApplyTransaction(state, c.digests, TxEnv(c, b.header, b.transactions[i]), b.transactions[i]);
      UnderwayOn(c, b, i, p, w, j, t, w1, j1, t1, TallyOf(q), state.View(), state.journal, state.trie);
      if error.Some? {
        return;
      }
    }
    UnderwayEnd(c, b, p, w, j, t, state.View(), state.journal, state.trie, TallyOf(state.params));
  }

  lemma UnderwayStart(c: Consensus, b: Block, w: World, j: seq<Undo>, t: map<Address, Record>, tally: Tally)
    requires Sound(c)
    ensures Underway(c, b, 0, Process(c, b.header, b.transactions, w, tally), w, j, t, w, j, t, tally)
  {
    hide Process;
    LeadsNothing(w, w, j);
    assert b.transactions[0..] == b.transactions;
  }

  lemma UnderwayEnd(c: Consensus, b: Block, p: Processed, w0: World, j0: seq<Undo>, t0: map<Address, Record>, w: World,
      j: seq<Undo>, t: map<Address, Record>, tally: Tally)
    requires Sound(c) && Underway(c, b, |b.transactions|, p, w0, j0, t0, w, j, t, tally)
    ensures p == Processed(None, w, tally, |b.transactions|)
    ensures c.env(b.header).metropolis || p.applied == 0 ==> Uncommitted(w0, j0, t0, w, j, t)
    ensures p.applied > 0 ==> j != []
  {
  }

  lemma {:induction false} RewardedEvolves(c: Consensus, h: Header, uncles: seq<Header>, w: World)
    ensures Evolves(w, Rewarded(c, h, uncles, w))
  {
    hide Evolves, SetBalance;
    EvolvesReflexive(w);
    if uncles != [] {
      var rest, u := Rewarded(c, h, uncles[..|uncles| - 1], w), uncles[|uncles| - 1];
      RewardedEvolves(c, h, uncles[..|uncles| - 1], w);
      SetBalanceEvolves(rest, u.coinbase, GetBalance(rest, u.coinbase) + U.UncleReward(c.blockReward(h), u.number, h.number));
      EvolvesTransitive(w, rest, Rewarded(c, h, uncles, w));
    }
  }

  lemma FinalizedEvolves(c: Consensus, b: Block, w: World)
    ensures Evolves(w, Finalized(c, b, w))
  {
    hide Evolves, SetBalance, Rewarded;
    var v := c.blockReward(b.header) + c.nephewReward(b.header) * |b.uncles|;
    SetBalanceEvolves(w, b.header.coinbase, GetBalance(w, b.header.coinbase) + v);
    RewardedEvolves(c, b.header, b.uncles, DeltaBalance(w, b.header.coinbase, v));
    EvolvesTransitive(w, DeltaBalance(w, b.header.coinbase, v), Finalized(c, b, w));
  }

  method Pay(state: State, a: Address, value: int)
    requires state.Valid()
    modifies state, state.Accounts()
    ensures state.Valid() && state.Extends() && Leads(old(state.View()), old(state.journal), state.View(), state.journal)
    ensures state.View() == DeltaBalance(old(state.View()), a, value)
  {
    hide State.View, CachedAccount.View, Undoes, Leads, W.DeltaBalance;
    ghost var w, j := state.View(), state.journal;
    state.DeltaBalance(a, value);
    UndoesLeads(w, j, state.View(), state.journal);
  }

  /** Pays the rewards and forgets the uncles of six blocks ago. */
  method Finalize(c: Consensus, state: State, b: Block)
    requires InStep(state) && state.params.blockNumber == b.header.number && state.params.coinbase == b.header.coinbase
    modifies state, state.Accounts()
    ensures InStep(state) && fresh(state.Accounts() - old(state.Accounts())) && state.trie == old(state.trie)
    ensures Leads(old(state.View()), old(state.journal), state.View(), state.journal)
    ensures state.View() == Finalized(c, b, old(state.View()))
    ensures state.params == old(state.params).(recentUncles := old(state.params).recentUncles - {b.header.number - U.MAX_UNCLE_DEPTH})
  {
    hide State.View, CachedAccount.View, Leads, Tracked, Rooted, W.DeltaBalance, Rewarded, Evolves;
    ghost var w, j, t := state.View(), state.journal, state.trie;
    ghost var p := state.params;
    Pay(state, state.params.coinbase, c.blockReward(b.header) + c.nephewReward(b.header) * |b.uncles|);
    ghost var w0 := state.View();
    RewardedStep(c, b.header, b.uncles, 0, w0);
    for i := 0 to |b.uncles|
      invariant state.Valid() && state.Extends() && Leads(w, j, state.View(), state.journal)
      invariant state.View() == Rewarded(c, b.header, b.uncles[..i], w0)
    {
      ghost var w1, j1 := state.View(), state.journal;
      RewardedStep(c, b.header, b.uncles, i, w0);
      var u := b.uncles[i];
      Pay(state, u.coinbase, U.UncleReward(c.blockReward(b.header), u.number, state.params.blockNumber));
      LeadsTransitive(w, j, w1, j1, state.View(), state.journal);
    }
    assert b.uncles[..|b.uncles|] == b.uncles;
    FinalizedEvolves(c, b, w);
    TrackedOn(w, state.View(), t);
    RootedOn(w, j, state.View(), state.journal, t);
    var forgotten := state.params.blockNumber - U.MAX_UNCLE_DEPTH;
    if forgotten in state.params.recentUncles {
      state.AssignParams(state.params.(recentUncles := state.params.recentUncles - {forgotten}));
    } else {
      assert p.recentUncles - {forgotten} == p.recentUncles;
    }
  }

  lemma RewardedStep(c: Consensus, h: Header, uncles: seq<Header>, i: nat, w: World)
    ensures Rewarded(c, h, [], w) == w && uncles[..0] == []
    ensures i < |uncles| ==>
      Rewarded(c, h, uncles[..i + 1], w)
      == DeltaBalance(Rewarded(c, h, uncles[..i], w), uncles[i].coinbase, U.UncleReward(c.blockReward(h), uncles[i].number, h.number))
  {
    hide DeltaBalance;
    if i < |uncles| { assert uncles[..i + 1][..i] == uncles[..i]; }
  }

  lemma {:induction false} RewardedShare(c: Consensus, b: Block, n: nat, w: World, a: Address)
    requires n <= |b.uncles|
    ensures GetBalance(Rewarded(c, b.header, b.uncles[..n], w), a)
         == GetBalance(w, a) + U.UncleShare(c.blockReward(b.header), UncleBlock(b), n, a)
  {
    if n > 0 {
      RewardedStep(c, b.header, b.uncles, n - 1, w);
      RewardedShare(c, b, n - 1, w, a);
    }
  }

  /** Every account gets its share of the rewards, and nothing else changes a balance. */
  lemma FinalizedShare(c: Consensus, b: Block, w: World, a: Address)
    ensures GetBalance(Finalized(c, b, w), a)
         == GetBalance(w, a) + U.Share(c.blockReward(b.header), c.nephewReward(b.header), UncleBlock(b), a)
  {
    var v := c.blockReward(b.header) + c.nephewReward(b.header) * |b.uncles|;
    assert b.uncles[..|b.uncles|] == b.uncles;
    RewardedShare(c, b, |b.uncles|, DeltaBalance(w, b.header.coinbase, v), a);
  }

  // ---- the block ----

  datatype Trial = Done | CaughtError | EscapedError

  /** The header follows the head and passes its checks. */
  predicate HeaderFits(c: Consensus, p: Params, h: Header) {
    U.Extends(c.rules, p.prevHeaders, U.Block(h, [])) && c.validHeader(p.prevHeaders[0], h) && c.sealOk(h)
  }

  function UnclesOf(c: Consensus, p: Params, b: Block): Option<U.Error> {
    U.UnclesError(c.rules, UncleBlock(b), p.prevHeaders, p.recentUncles)
  }

  ghost function ProcessOf(c: Consensus, b: Block, w: World): Processed
    requires Sound(c)
  {
    Process(c, b.header, b.transactions, w, NO_TALLY)
  }

  /** The transactions are reached. */
  predicate Begins(c: Consensus, p: Params, b: Block) {
    HeaderFits(c, p, b.header) && UnclesOf(c, p, b).None? && b.header.txRoot == c.txRootOf(b.transactions)
  }

  /** All transactions are applied, and the bloom filter is right: the state is committed then. */
  ghost predicate Ends(c: Consensus, p: Params, b: Block, w: World)
    requires Sound(c)
  {
    Begins(c, p, b) && ProcessOf(c, b, w).error.None? && ProcessOf(c, b, w).tally.bloom == b.header.bloom
  }

  /** All checks of a block succeed. */
  ghost predicate Accepts(c: Consensus, p: Params, b: Block, w: World)
    requires Sound(c)
  {
    && Ends(c, p, b, w) && ProcessOf(c, b, w).tally.gasUsed == b.header.gasUsed
    && c.digests.rootOf(CommitWorld(c.env(b.header), Finalized(c, b, ProcessOf(c, b, w).world)).accounts) == b.header.stateRoot
    && c.receiptsRootOf(ProcessOf(c, b, w).tally.receipts) == b.header.receiptsRoot
  }

  /** The parameters after an applied block. */
  function AfterBlock(c: Consensus, b: Block, p: Params): Params {
    var q := Initialized(c, b, p);
    q.(recentUncles := q.recentUncles - {b.header.number - U.MAX_UNCLE_DEPTH}, prevHeaders := [b.header] + p.prevHeaders)
  }

  /** The state is committed at some point, at the end or before Metropolis after a transaction. */
  ghost predicate Committing(c: Consensus, p: Params, b: Block, w: World)
    requires Sound(c)
  {
    Ends(c, p, b, w) || (Begins(c, p, b) && ProcessOf(c, b, w).applied > 0 && !c.env(b.header).metropolis)
  }

  /** An exception that `apply_block` does not catch is raised. */
  ghost predicate Escapes(c: Consensus, p: Params, b: Block, w: World)
    requires Sound(c)
  {
    HeaderFits(c, p, b.header) &&
    ((UnclesOf(c, p, b).Some? && !CaughtUncle(UnclesOf(c, p, b).value)) ||
     (Begins(c, p, b) && ProcessOf(c, b, w).error.Some? && !Caught(ProcessOf(c, b, w).error.value)))
  }

  /** What the block did to the parameters that uncle validation reads. */
  ghost predicate Noted(c: Consensus, p: Params, b: Block, p': Params) {
    var recent := p.recentUncles[b.header.number := U.Hashes(c.rules, b.uncles)];
    HeaderFits(c, p, b.header) ==> p'.recentUncles == recent || p'.recentUncles == recent - {b.header.number - U.MAX_UNCLE_DEPTH}
  }

  /** The body of the try block. */
  method TryBlock(c: Consensus, state: State, b: Block) returns (r: Trial)
    requires Sound(c) && InStep(state)
    modifies state, state.Accounts()
    ensures InStep(state) && fresh(state.Accounts() - old(state.Accounts()))
    ensures r == EscapedError <==> Escapes(c, old(state.params), b, old(state.View()))
    ensures r == EscapedError ==>
      && state.View() == (if UnclesOf(c, old(state.params), b).Some? then old(state.View()) else ProcessOf(c, b, old(state.View())).world)
      && (UnclesOf(c, old(state.params), b).None? && ProcessOf(c, b, old(state.View())).applied > 0 ==> state.journal != [])
    ensures r == Done <==>
      Accepts(c, old(state.params), b, old(state.View()))
    ensures Ends(c, old(state.params), b, old(state.View())) ==>
      state.journal == [] && state.View() == CommitWorld(c.env(b.header), Finalized(c, b, ProcessOf(c, b, old(state.View())).world))
    ensures !Committing(c, old(state.params), b, old(state.View())) ==>
      Uncommitted(old(state.View()), old(state.journal), old(state.trie), state.View(), state.journal, state.trie)
    ensures r == EscapedError ==> BlockPart(state.params) == BlockPart(Initialized(c, b, old(state.params)))
    ensures r == Done ==> BlockPart(state.params) == BlockPart(AfterBlock(c, b, old(state.params)))
    ensures Noted(c, old(state.params), b, state.params)
    ensures state.params.prevHeaders == if r == Done then [b.header] + old(state.params).prevHeaders else old(state.params).prevHeaders
    ensures r == Done ==>
      state.params.recentUncles
      == old(state.params).recentUncles[b.header.number := U.Hashes(c.rules, b.uncles)] - {b.header.number - U.MAX_UNCLE_DEPTH}
  {
    hide State.View, CachedAccount.View, Leads, InStep, Sound, Process, Finalized, CommitWorld, U.UnclesError,
      U.Hashes, SoundEnv;
    ghost var w, j, t, p := state.View(), state.journal, state.trie, state.params;
    LeadsNothing(w, w, j);
    AssignInStep(state, Initialized(c, b, state.params));
    if !HeaderFits(c, state.params, b.header) { return CaughtError; }
    var e := CheckUnclesOf(c, state, b);
    SeenBefore(c, p, b);
    if e.Some? {
      return if CaughtUncle(e.value) then CaughtError else EscapedError;
    }
    if b.header.txRoot != c.txRootOf(b.transactions) { return CaughtError; }
    var error := ProcessTransactions(c, state, b);
    if error.Some? {
      return if error.value == T.AssertionError then CaughtError else EscapedError;
    }
    ghost var w1, j1 := state.View(), state.journal;
    Finalize(c, state, b);
    if c.env(b.header).metropolis || ProcessOf(c, b, w).applied == 0 {
      LeadsTransitive(w, j, w1, j1, state.View(), state.journal);
    }
    if state.params.bloom != b.header.bloom { return CaughtError; }
    CommitInStep(state, c.env(b.header));
    CommittedLedger(state);
    if c.digests.rootOf(Ledger(state.trie)) != b.header.stateRoot { return CaughtError; }
    if c.receiptsRootOf(state.params.receipts) != b.header.receiptsRoot { return CaughtError; }
    if state.params.gasUsed != b.header.gasUsed { return CaughtError; }
    AssignInStep(state, state.params.(prevHeaders := [b.header] + state.params.prevHeaders));
    return Done;
  }

  /** Validation does not change the state. */
  method CheckUnclesOf(c: Consensus, state: State, b: Block) returns (e: Option<U.Error>)
    requires InStep(state) && state.params.blockNumber == b.header.number
    ensures InStep(state) && state.View() == old(state.View()) && e == UnclesOf(c, state.params, b)
  {
    hide State.View, Tracked, Rooted, U.UnclesError, Loaded;
    ghost var w := state.View();
    state.ViewRepresents();
    e := ValidateUncles(c, state.params, UncleBlock(b));
    state.LogChanged(w, w);
  }

  /** The uncle checks do not see the block's own entry. */
  lemma SeenBefore(c: Consensus, p: Params, b: Block)
    ensures UnclesOf(c, Initialized(c, b, p), b) == UnclesOf(c, p, b)
  {
    U.RecentOther(p.recentUncles, b.header.number, U.Hashes(c.rules, b.uncles));
  }

  /** Plain assignment to the parameters. */
  method AssignInStep(state: State, p: Params)
    requires InStep(state)
    modifies state`params
    ensures InStep(state) && state.View() == old(state.View()) && state.params == p
  {
    hide Tracked, Rooted, State.View, CachedAccount.View;
    state.AssignParams(p);
  }

  // ---- rejection ----

  /** The world and the journal of a state in step with its trie when a snapshot of it was taken. */
  ghost predicate Snapped(s: Snapshot, w0: World, j0: seq<Undo>) {
    && s.height == |j0| && s.suicides == w0.suicides && s.logs == w0.logs && s.refunds == w0.refunds
    && Tracked(w0, s.root) && Rooted(w0, j0, s.root) && NoBlanks(w0)
  }

  lemma SameWorld(w: World, w0: World)
    requires NoBlanks(w) && NoBlanks(w0) && (forall a: Address :: Acct(w, a) == Acct(w0, a))
    requires w.suicides == w0.suicides && w.logs == w0.logs && w.refunds == w0.refunds
    ensures w == w0
  {
    SameLookups(w, w0);
  }

  /** Reverting: refused exactly when the trie is another one and the snapshot's journal was not empty. The world comes back
      if that journal was empty or nothing was committed since. */
  method RevertTo(state: State, s: Snapshot, ghost w0: World, ghost j0: seq<Undo>, ghost committed: bool)
    returns (ok: bool)
    requires InStep(state) && Snapped(s, w0, j0)
    requires !committed ==> Uncommitted(w0, j0, s.root, state.View(), state.journal, state.trie)
    modifies state, state.Accounts()
    ensures state.Valid() && Rooted(state.View(), state.journal, state.trie) && fresh(state.Accounts() - old(state.Accounts()))
    ensures ok <==> old(state.trie) == s.root || j0 == []
    ensures ok ==> state.trie == s.root && state.params == s.params
    ensures !ok ==> state.trie == old(state.trie) && SameButJournaled(state.params, old(state.params))
    ensures !committed || j0 == [] ==> ok && state.View() == w0 && state.journal == j0 && InStep(state)
    ensures old(state.journal) == [] ==> InStep(state)
  {
    hide State.View, CachedAccount.View, Tracked, Rooted, Unwind, TrieAcct;
    ghost var w, j, t := state.View(), state.journal, state.trie;
    ok := state.Revert(s);
    state.ViewRepresents();
    if s.root == t {
      Backwards(w, j, w0, j0, t, state.View(), state.journal, committed);
    } else if ok {
      FreshState(state);
      RootedClean(w0, s.root);
      RootedClean(state.View(), s.root);
      SameWorld(state.View(), w0);
    } else {
      Popped(w, j, s.height, t);
    }
  }

  /** Popping part of the journal leaves the state rooted. */
  lemma Popped(w: World, j: seq<Undo>, n: nat, t: map<Address, Record>)
    requires Rooted(w, j, t)
    ensures Rooted(Unwind(w, j, n), if n < |j| then j[..n] else j, t)
    ensures j == [] ==> Unwind(w, j, n) == w
  {
    if n < |j| {
      UnwindVia(w, j, n, 0);
    }
  }

  /** Popping down to the snapshot with the same trie. */
  lemma Backwards(w: World, j: seq<Undo>, w0: World, j0: seq<Undo>, t: map<Address, Record>, w': World, j': seq<Undo>,
      committed: bool)
    requires Tracked(w, t) && Rooted(w, j, t) && Tracked(w0, t) && Rooted(w0, j0, t) && NoBlanks(w0) && NoBlanks(w')
    requires !committed ==> Leads(w0, j0, w, j)
    requires w'.accounts == Unwind(w, j, |j0|).accounts && j' == if |j0| < |j| then j[..|j0|] else j
    requires w'.suicides == w0.suicides && w'.logs == w0.logs && w'.refunds == w0.refunds
    ensures Rooted(w', j', t)
    ensures !committed || j0 == [] ==> w' == w0 && j' == j0 && Tracked(w', t)
    ensures j == [] ==> Tracked(w', t)
  {
    Popped(w, j, |j0|, t);
    LeadsNothing(Unwind(w, j, |j0|), w', j');
    RootedOn(Unwind(w, j, |j0|), j', w', j', t);
    if !committed {
      assert j' == j0;
    } else if j0 == [] {
      RootedClean(w0, t);
      assert j' == [];
      RootedClean(w', t);
      SameWorld(w', w0);
    }
    if j == [] {
      SameAccountsEvolve(w, w');
      TrackedOn(w, w', t);
    }
  }

  // ---- the head ----

  /** A block that fits but is not applied leaves the head's memory good enough. */
  lemma HeadKept(c: Consensus, p: Params, b: Block, p': Params, genesis: Header, chain: seq<U.Block>)
    requires Sound(c) && HeadOk(c, p, genesis, chain) && HeaderFits(c, p, b.header)
    requires Noted(c, p, b, p') && p'.prevHeaders == p.prevHeaders
    ensures HeadOk(c, p', genesis, chain)
  {
    hide U.Safe, U.KnowsHeaders, U.HeadersBack, U.UnclesError, U.Hashes;
    U.KnowsFirst(c.rules, genesis, chain, p.prevHeaders);
    U.LinkedStep(c.rules, genesis, chain, UncleBlock(b), p.prevHeaders);
    var recent := p.recentUncles[b.header.number := U.Hashes(c.rules, b.uncles)];
    U.NewEntry(c.rules, genesis, chain, UncleBlock(b), p.prevHeaders, p.recentUncles, recent);
    U.Forgotten(c.rules, genesis, chain, UncleBlock(b), recent);
    StillRemembers(c.rules, chain, UncleBlock(b), recent - {b.header.number - U.MAX_UNCLE_DEPTH});
  }

  lemma StillRemembers(r: U.Rules, chain: seq<U.Block>, block: U.Block, recent: map<int, seq<Hash>>)
    requires U.Remembers(r, chain + [block], recent)
    ensures forall i :: 0 <= i < |chain| && |chain| + 1 - U.MAX_UNCLE_DEPTH < i ==>
      chain[i].header.number in recent && recent[chain[i].header.number] == U.Hashes(r, chain[i].uncles)
  {
    forall i | 0 <= i < |chain| && |chain| + 1 - U.MAX_UNCLE_DEPTH < i
      ensures chain[i].header.number in recent && recent[chain[i].header.number] == U.Hashes(r, chain[i].uncles) {
      assert (chain + [block])[i] == chain[i];
    }
  }

  /** An applied block extends the chain, which stays safe. */
  lemma HeadGrown(c: Consensus, p: Params, b: Block, p': Params, genesis: Header, chain: seq<U.Block>)
    requires Sound(c) && HeadOk(c, p, genesis, chain) && HeaderFits(c, p, b.header) && UnclesOf(c, p, b) == None
    requires p'.prevHeaders == [b.header] + p.prevHeaders
    requires p'.recentUncles == p.recentUncles[b.header.number := U.Hashes(c.rules, b.uncles)] - {b.header.number - U.MAX_UNCLE_DEPTH}
    ensures HeadOk(c, p', genesis, chain + [UncleBlock(b)])
  {
    hide U.Safe, U.KnowsHeaders, U.HeadersBack, U.UnclesError, U.Hashes, U.Accepted, U.Remembers, U.Linked;
    var block := UncleBlock(b);
    U.KnowsFirst(c.rules, genesis, chain, p.prevHeaders);
    U.LinkedStep(c.rules, genesis, chain, block, p.prevHeaders);
    var recent := p.recentUncles[b.header.number := U.Hashes(c.rules, b.uncles)];
    U.NewEntry(c.rules, genesis, chain, block, p.prevHeaders, p.recentUncles, recent);
    U.BuildAccepted(c.rules, genesis, chain, block, p.prevHeaders, recent);
    U.AcceptKeepsSafe(c.rules, genesis, chain, block, p.prevHeaders, recent);
    U.AppliedKnows(c.rules, genesis, chain, block, p.prevHeaders, recent);
  }

  /** The trie holds the accounts of the world. */
  ghost predicate Holds(trie: map<Address, Record>, w: World) {
    forall a: Address :: TrieAcct(trie, a) == Acct(w, a)
  }

  /** A transaction of the block fails an assertion after the state was committed, and the journal was not empty before:
      the revert then pops entries it was not meant for. */
  ghost predicate Torn(c: Consensus, p: Params, b: Block, w: World, j: seq<Undo>)
    requires Sound(c)
  {
    j != [] && Committing(c, p, b, w) && !Ends(c, p, b, w) && !Escapes(c, p, b, w)
  }

  /** `apply_block`, with the snapshot before and the revert after an exception that it catches. */
  method ApplyBlock(c: Consensus, state: State, b: Block, ghost genesis: Header, ghost chain: seq<U.Block>)
    returns (o: Outcome, ghost trie: map<Address, Record>)
    requires Sound(c) && InStep(state) && HeadOk(c, state.params, genesis, chain)
    modifies state, state.Accounts()
    ensures HeadOk(c, state.params, genesis, if o == Applied then chain + [UncleBlock(b)] else chain)
    ensures state.Valid() && Rooted(state.View(), state.journal, state.trie) && fresh(state.Accounts() - old(state.Accounts()))
    ensures !Torn(c, old(state.params), b, old(state.View()), old(state.journal)) ==> InStep(state)
    ensures state.params.prevHeaders == if o == Applied then [b.header] + old(state.params).prevHeaders else old(state.params).prevHeaders
    // which outcome
    ensures o == Applied <==> Accepts(c, old(state.params), b, old(state.View()))
    ensures o == Escaped <==> Escapes(c, old(state.params), b, old(state.View()))
    ensures o == Refused <==>
      && !Accepts(c, old(state.params), b, old(state.View())) && !Escapes(c, old(state.params), b, old(state.View()))
      && old(state.journal) != [] && trie != old(state.trie)
    // and what it leaves
    ensures o == Applied ==> BlockPart(state.params) == BlockPart(AfterBlock(c, b, old(state.params)))
    ensures o == Escaped ==> BlockPart(state.params) == BlockPart(Initialized(c, b, old(state.params)))
    ensures o == Applied ==>
      && state.View() == CommitWorld(c.env(b.header), Finalized(c, b, ProcessOf(c, b, old(state.View())).world))
      && state.journal == [] && state.trie == trie
    ensures Ends(c, old(state.params), b, old(state.View())) ==>
      Holds(trie, CommitWorld(c.env(b.header), Finalized(c, b, ProcessOf(c, b, old(state.View())).world)))
    ensures o == Undone ==> state.params == old(state.params) && state.trie == old(state.trie)
    ensures o == Undone && (old(state.journal) == [] || !Committing(c, old(state.params), b, old(state.View()))) ==>
      state.View() == old(state.View()) && state.journal == old(state.journal)
    ensures o == Refused ==> Committing(c, old(state.params), b, old(state.View())) && state.trie == trie
    ensures o == Escaped && !Committing(c, old(state.params), b, old(state.View())) ==> state.trie == old(state.trie)
    ensures o == Escaped ==>
      && state.View() == (if UnclesOf(c, old(state.params), b).Some? then old(state.View()) else ProcessOf(c, b, old(state.View())).world)
      && (UnclesOf(c, old(state.params), b).None? && ProcessOf(c, b, old(state.View())).applied > 0 ==> state.journal != [])
  {
    hide State.View, CachedAccount.View, Leads, Tracked, Rooted, Sound, Process, Finalized, CommitWorld,
      U.UnclesError, HeadOk, Begins, HeaderFits, UnclesOf, Noted;
    ghost var w, j, t, p := state.View(), state.journal, state.trie, state.params;
    state.ViewRepresents();
    var s := state.TakeSnapshot();
    var r := TryBlock(c, state, b);
    trie := state.trie;
    if state.journal == [] { RootedClean(state.View(), state.trie); }
    if r == Done {
      DoneFacts(c, p, b, w);
      HeadGrown(c, p, b, state.params, genesis, chain);
      return Applied, trie;
    }
    if Escapes(c, p, b, w) || Committing(c, p, b, w) {
      FitsFacts(c, p, b, w);
      HeadKept(c, p, b, state.params, genesis, chain);
    }
    if r == EscapedError {
      return Escaped, trie;
    }
    ghost var p' := state.params;
    var ok := RevertTo(state, s, w, j, Committing(c, p, b, w));
    if !ok { HeadSame(c, p', state.params, genesis, chain); }
    return if ok then Undone else Refused, trie;
  }

  lemma HeadSame(c: Consensus, p: Params, p': Params, genesis: Header, chain: seq<U.Block>)
    requires HeadOk(c, p, genesis, chain) && SameButJournaled(p', p)
    ensures HeadOk(c, p', genesis, chain)
  {
  }

  lemma DoneFacts(c: Consensus, p: Params, b: Block, w: World)
    requires Sound(c) && Ends(c, p, b, w)
    ensures HeaderFits(c, p, b.header) && UnclesOf(c, p, b) == None
  {
  }

  lemma FitsFacts(c: Consensus, p: Params, b: Block, w: World)
    requires Sound(c) && (Escapes(c, p, b, w) || Committing(c, p, b, w))
    ensures HeaderFits(c, p, b.header)
  {
  }

  // ---- ether ----

  lemma CommitSane(env: Env, w: World)
    requires Sane(w)
    ensures Sane(CommitWorld(env, w).(logs := []))
  {
    forall a: Address ensures !Acct(CommitWorld(env, w), a).deleted || Wiped(Acct(CommitWorld(env, w), a)) || Acct(CommitWorld(env, w), a).touched {
      CommitWorldAt(env, w, a);
    }
    hide CommitWorld;
    forall a: Address ensures Acct(CommitWorld(env, w).(logs := []), a) == Acct(CommitWorld(env, w), a) {
    }
  }

  lemma AfterSane(env: Env, tx: T.Tx, w: World, block: T.Block)
    requires SoundEnv(env) && Sane(w)
    ensures Sane(T.ApplyTransaction(env, tx, w, block).world) && Sane(WorldAfter(env, T.ApplyTransaction(env, tx, w, block)))
  {
    hide T.ApplyTransaction, CommitWorld, Evolves, Sane, SoundEnv;
    var o := T.ApplyTransaction(env, tx, w, block);
    TransactionEvolves(env, tx, w, block);
    SaneOn(w, o.world);
    CommitSane(env, o.world);
    SameAccountsEvolve(o.world, o.world.(logs := []));
    SaneOn(o.world, o.world.(logs := []));
  }

  /** No transaction of the block destroys an account. */
  ghost predicate NoneDestroyedBy(c: Consensus, h: Header, txs: seq<T.Tx>, w: World, gasUsed: int)
    requires Sound(c)
  {
    txs != [] ==>
      (TxEnvSound(c, h, txs[0]);
       var env := TxEnv(c, h, txs[0]);
       var o := T.ApplyTransaction(env, txs[0], w, T.Block(gasUsed, h.gasLimit));
       o.Applied? && o.ran.suicides == [] && NoneDestroyedBy(c, h, txs[1..], WorldAfter(env, o), gasUsed + o.gasUsed))
  }

  lemma ConservesTransitive(a: World, b: World, c: World, x: bool, y: bool)
    requires Conserves(a, b, x) && Conserves(b, c, y)
    ensures Conserves(a, c, x && y)
  {
  }

  /** The transactions of a block neither create ether nor overdraw an account. */
  lemma {:induction false} ProcessConserves(c: Consensus, h: Header, txs: seq<T.Tx>, w: World, tally: Tally)
    requires Sound(c) && Sane(w)
    ensures Sane(Process(c, h, txs, w, tally).world)
    ensures Conserves(w, Process(c, h, txs, w, tally).world, NoneDestroyedBy(c, h, txs, w, tally.gasUsed))
    decreases |txs|
  {
    hide T.ApplyTransaction, Sane, Conserves, CommitWorld, SoundEnv, Sound;
    if txs == [] {
      ConservesNothing(w);
    } else {
      TxEnvSound(c, h, txs[0]);
      var env, block := TxEnv(c, h, txs[0]), T.Block(tally.gasUsed, h.gasLimit);
      var o := T.ApplyTransaction(env, txs[0], w, block);
      AfterSane(env, txs[0], w, block);
      TransactionConserves(env, txs[0], w, block);
      if o.Applied? {
        var more := Counted(c, env, o, tally);
        ProcessConserves(c, h, txs[1..], WorldAfter(env, o), more);
        ConservesTransitive(w, WorldAfter(env, o), Process(c, h, txs[1..], WorldAfter(env, o), more).world,
                            NoneDestroyed(o), NoneDestroyedBy(c, h, txs[1..], WorldAfter(env, o), more.gasUsed));
      }
    }
  }

  lemma ConservesNothing(w: World)
    ensures Conserves(w, w, true)
  {
  }

  /** The ether that the uncles' miners get. */
  function UncleIssue(c: Consensus, h: Header, uncles: seq<Header>): int {
    if uncles == [] then 0
    else UncleIssue(c, h, uncles[..|uncles| - 1]) + U.UncleReward(c.blockReward(h), uncles[|uncles| - 1].number, h.number)
  }

  /** The ether that a block creates. */
  function Issue(c: Consensus, b: Block): int {
    c.blockReward(b.header) + c.nephewReward(b.header) * |b.uncles| + UncleIssue(c, b.header, b.uncles)
  }

  predicate UnclesNear(b: Block) {
    forall i :: 0 <= i < |b.uncles| ==> 1 <= b.header.number - b.uncles[i].number <= U.MAX_UNCLE_DEPTH
  }

  lemma RewardNonNegative(reward: int, u: int, n: int)
    requires reward >= 0 && 1 <= n - u <= U.MAX_UNCLE_DEPTH
    ensures U.UncleReward(reward, u, n) >= 0
  {
    assert reward * (U.UNCLE_DEPTH_PENALTY_FACTOR + u - n) >= 0;
  }

  lemma {:induction false} RewardedTotal(c: Consensus, h: Header, uncles: seq<Header>, w: World)
    requires c.blockReward(h) >= 0
    requires forall i :: 0 <= i < |uncles| ==> 1 <= h.number - uncles[i].number <= U.MAX_UNCLE_DEPTH
    ensures Total(Rewarded(c, h, uncles, w).accounts) == Total(w.accounts) + UncleIssue(c, h, uncles)
    ensures NonNegative(w) ==> NonNegative(Rewarded(c, h, uncles, w))
  {
    hide Total, SetBalance, GetBalance, NonNegative, U.UncleReward;
    if uncles != [] {
      var rest, u := Rewarded(c, h, uncles[..|uncles| - 1], w), uncles[|uncles| - 1];
      var r := U.UncleReward(c.blockReward(h), u.number, h.number);
      RewardedTotal(c, h, uncles[..|uncles| - 1], w);
      RewardNonNegative(c.blockReward(h), u.number, h.number);
      SetBalanceTotal(rest, u.coinbase, GetBalance(rest, u.coinbase) + r);
      if NonNegative(w) {
        BalanceNonNegative(rest, u.coinbase);
        SetBalanceNonNegative(rest, u.coinbase, GetBalance(rest, u.coinbase) + r);
      }
    }
  }

  lemma FinalizedTotal(c: Consensus, b: Block, w: World)
    requires UnclesNear(b) && c.blockReward(b.header) >= 0 && c.nephewReward(b.header) >= 0 && NonNegative(w)
    ensures Total(Finalized(c, b, w).accounts) == Total(w.accounts) + Issue(c, b) && NonNegative(Finalized(c, b, w))
  {
    hide Total, SetBalance, GetBalance, NonNegative, Rewarded;
    var h := b.header;
    var v := c.blockReward(h) + c.nephewReward(h) * |b.uncles|;
    assert c.nephewReward(h) * |b.uncles| >= 0 by { T.Products(|b.uncles|, c.nephewReward(h), 0); }
    BalanceNonNegative(w, h.coinbase);
    SetBalanceTotal(w, h.coinbase, GetBalance(w, h.coinbase) + v);
    SetBalanceNonNegative(w, h.coinbase, GetBalance(w, h.coinbase) + v);
    RewardedTotal(c, h, b.uncles, DeltaBalance(w, h.coinbase, v));
  }

  /** Whatever a block does, the sum of all balances grows by at most what it issues, and by exactly that when nothing was
      destroyed; no balance becomes negative. */
  lemma BlockConserves(c: Consensus, p: Params, b: Block, w: World)
    requires Sound(c) && Sane(w) && NonNegative(w) && Ends(c, p, b, w)
    requires UnclesNear(b) && c.blockReward(b.header) >= 0 && c.nephewReward(b.header) >= 0
    ensures var w' := CommitWorld(c.env(b.header), Finalized(c, b, ProcessOf(c, b, w).world));
            && NonNegative(w') && Total(w'.accounts) <= Total(w.accounts) + Issue(c, b)
            && (NoneDestroyedBy(c, b.header, b.transactions, w, 0) ==> Total(w'.accounts) == Total(w.accounts) + Issue(c, b))
  {
    hide Total, NonNegative, CommitWorld, Sane, Process, Evolves, Finalized, NoneDestroyedBy, Sound, Issue, Ends;
    var w1 := ProcessOf(c, b, w).world;
    ProcessConserves(c, b.header, b.transactions, w, NO_TALLY);
    FinalizedTotal(c, b, w1);
    FinalizedEvolves(c, b, w1);
    SaneOn(w1, Finalized(c, b, w1));
    CommitTotal(c.env(b.header), Finalized(c, b, w1));
  }

  // ---- reachable outcomes ----

  function Cleared(w: World): World { w.(logs := [], suicides := [], refunds := 0) }

  /** A transaction that passes the checks and sends its value to an account without code. */
  predicate Plain(env: Env, tx: T.Tx, w: World, block: T.Block) {
    && tx.to.Some? && GetCode(w, tx.to.value) == [] && !env.isSpecial(tx.to.value) && tx.sender != NULL_ADDRESS
    && T.ValidateTransaction(env, tx, Cleared(w), block).None?
    && T.UpfrontGas(env, tx) <= tx.startgas
  }

  lemma PlainMessage(env: Env, msg: Message, w: World)
    requires SoundEnv(env) && msg.codeAddress == Some(msg.to) && !env.isSpecial(msg.to) && msg.transfersValue && msg.gas >= 0
    ensures var r := ApplyMsg(env, msg, [], w);
            && r.success && r.gas == msg.gas && GetNonce(r.world, msg.sender) == GetNonce(w, msg.sender)
            && r.world.suicides == w.suicides && r.world.refunds == w.refunds
  {
    hide SoundEnv;
    if GetBalance(w, msg.sender) >= msg.value {
      var w1 := DeltaBalance(DeltaBalance(w, msg.sender, -(msg.value as int)), msg.to, msg.value);
      assert TransferValue(w, msg.sender, msg.to, msg.value) == Some(w1);
      assert Execute(env, msg, [], Start(msg.gas), w1, false) == Result(true, msg.gas, [], w1, false);
    }
  }

  lemma BoughtGas(tx: T.Tx, w: World)
    requires tx.sender != NULL_ADDRESS
    ensures var w1 := T.BuyGas(tx, w);
            && GetNonce(w1, tx.sender) == GetNonce(w, tx.sender) + 1 && w1.suicides == w.suicides && w1.refunds == w.refunds
            && forall a: Address :: GetCode(w1, a) == GetCode(w, a)
  {
  }

  lemma SettledNonce(env: Env, tx: T.Tx, w: World, gasRemained: int, gasUsed: int)
    ensures GetNonce(T.Settle(env, tx, w, gasRemained, gasUsed), tx.sender) == GetNonce(w, tx.sender)
  {
  }

  /** A plain transaction is applied and raises its sender's nonce. */
  lemma PlainApplied(env: Env, tx: T.Tx, w: World, block: T.Block)
    requires SoundEnv(env) && Plain(env, tx, w, block)
    ensures var o := T.ApplyTransaction(env, tx, w, block);
            o.Applied? && GetNonce(o.world, tx.sender) == tx.nonce + 1
  {
    hide T.BuyGas, ApplyMsg, T.Settle, SoundEnv, GetCode;
    var w0 := Cleared(w);
    BoughtGas(tx, w0);
    var w1 := T.BuyGas(tx, w0);
    SameCode(w, w0, tx.to.value);
    var data := CallData(tx.data, 0, |tx.data|);
    var gas := tx.startgas - T.UpfrontGas(env, tx);
    PlainMessage(env, Message(tx.sender, tx.to.value, tx.value, gas, data, 0, Some(tx.to.value), true, false), w1);
    var r := T.RunTx(env, tx, w1);
    PlainFinish(env, tx, r);
  }

  lemma SameCode(w: World, w0: World, a: Address)
    requires w0.accounts == w.accounts
    ensures GetCode(w0, a) == GetCode(w, a) && GetNonce(w0, a) == GetNonce(w, a)
  {
  }

  lemma PlainFinish(env: Env, tx: T.Tx, r: T.Ran)
    requires r.success && r.gas >= 0 && r.world.suicides == [] && r.world.refunds == 0
    ensures var o := T.FinishTx(env, tx, r);
            o.Applied? && GetNonce(o.world, tx.sender) == GetNonce(r.world, tx.sender)
  {
    hide T.Settle;
    assert (set a | a in r.world.suicides) == {};
    SettledNonce(env, tx, r.world, r.gas, tx.startgas - r.gas);
  }

  /** A second time the same transaction has the wrong nonce, in whatever fork that still takes it. */
  lemma Repeated(env: Env, tx: T.Tx, w: World, block: T.Block, env': Env, block': T.Block)
    requires SoundEnv(env) && SoundEnv(env') && Plain(env, tx, w, block) && Sane(w)
    ensures var o := T.ApplyTransaction(env, tx, w, block);
            var o' := T.ApplyTransaction(env', tx, WorldAfter(env, o), block');
            && o.Applied? && o'.Rejected? && o'.error == (if T.ForkValid(env', tx) then T.InvalidNonce else T.InvalidTransaction)
            && o'.world == Cleared(WorldAfter(env, o))
            && GetNonce(WorldAfter(env, o), tx.sender) == tx.nonce + 1
  {
    hide SoundEnv, T.RunTx, T.FinishTx, T.BuyGas, CommitWorld, Sane, Evolves;
    PlainApplied(env, tx, w, block);
    var o := T.ApplyTransaction(env, tx, w, block);
    TransactionEvolves(env, tx, w, block);
    SaneOn(w, o.world);
    CommitKeeps(env, o.world, tx.sender);
  }

  lemma SaneOn(w: World, w': World)
    requires Sane(w) && Evolves(w, w')
    ensures Sane(w')
  {
    forall a: Address ensures Acct(w', a).deleted && !Acct(w', a).touched ==> Wiped(Acct(w', a)) {
      assert Becomes(Acct(w, a), Acct(w', a));
    }
  }

  /** Applied: a block without transactions and uncles, exactly if its roots are those of the state it leads to. */
  lemma EmptyBlock(c: Consensus, p: Params, b: Block, w: World)
    requires Sound(c) && Begins(c, p, b) && b.transactions == [] && b.header.bloom == 0 && b.header.gasUsed == 0
    ensures Ends(c, p, b, w) && ProcessOf(c, b, w).world == w
    ensures Accepts(c, p, b, w) <==>
      && c.digests.rootOf(CommitWorld(c.env(b.header), Finalized(c, b, w)).accounts) == b.header.stateRoot
      && c.receiptsRootOf([]) == b.header.receiptsRoot
  {
  }

  /** Undone: a block whose header does not fit. */
  lemma Misfit(c: Consensus, p: Params, b: Block, w: World)
    requires Sound(c) && !HeaderFits(c, p, b.header)
    ensures !Accepts(c, p, b, w) && !Escapes(c, p, b, w) && !Committing(c, p, b, w)
  {
  }

  /** Undone: a block with an uncle whose only fault is its proof of work. */
  lemma BadUncleSeal(c: Consensus, p: Params, b: Block, w: World, all: U.Rules, i: nat)
    requires Sound(c) && HeaderFits(c, p, b.header) && all == c.rules.(checkPow := (h: Header) => true)
    requires U.UnclesError(all, UncleBlock(b), p.prevHeaders, p.recentUncles) == None
    requires i < |b.uncles| && !c.rules.checkPow(b.uncles[i])
    ensures !Accepts(c, p, b, w) && !Escapes(c, p, b, w) && !Committing(c, p, b, w)
  {
    U.OnlyPow(c.rules, all, UncleBlock(b), p.prevHeaders, p.recentUncles);
  }

  /** Escaped: a block that holds a plain transaction twice. The first one stays in the state. */
  lemma RepeatedEscapes(c: Consensus, p: Params, b: Block, tx: T.Tx, w: World)
    requires Sound(c) && Begins(c, p, b) && b.transactions == [tx, tx] && Sane(w)
    requires Plain(TxEnv(c, b.header, tx), tx, w, T.Block(0, b.header.gasLimit))
    ensures Escapes(c, p, b, w) && ProcessOf(c, b, w).applied == 1
    ensures GetNonce(ProcessOf(c, b, w).world, tx.sender) == tx.nonce + 1
    ensures ProcessOf(c, b, w).world
         == Cleared(WorldAfter(TxEnv(c, b.header, tx), T.ApplyTransaction(TxEnv(c, b.header, tx), tx, w, T.Block(0, b.header.gasLimit))))
  {
    hide T.ApplyTransaction, Plain, WorldAfter, HeaderFits, UnclesOf, SoundEnv, TxEnv, Process;
    var h, env, block := b.header, TxEnv(c, b.header, tx), T.Block(0, b.header.gasLimit);
    TxEnvSound(c, h, tx);
    PlainApplied(env, tx, w, block);
    Repeated(env, tx, w, block, env, T.Block(T.ApplyTransaction(env, tx, w, block).gasUsed, h.gasLimit));
    TwoTransactions(c, h, tx, tx, w);
  }

  /** A block of two transactions of which the second is thrown out. */
  lemma TwoTransactions(c: Consensus, h: Header, tx: T.Tx, tx': T.Tx, w: World)
    requires Sound(c) && SoundEnv(TxEnv(c, h, tx)) && SoundEnv(TxEnv(c, h, tx'))
    ensures var o := T.ApplyTransaction(TxEnv(c, h, tx), tx, w, T.Block(0, h.gasLimit));
            o.Applied? ==>
              var o' := T.ApplyTransaction(TxEnv(c, h, tx'), tx', WorldAfter(TxEnv(c, h, tx), o), T.Block(o.gasUsed, h.gasLimit));
              o'.Rejected? ==> Process(c, h, [tx, tx'], w, NO_TALLY) == Processed(Some(o'.error), o'.world, Counted(c, TxEnv(c, h, tx), o, NO_TALLY), 1)
    ensures var o := T.ApplyTransaction(TxEnv(c, h, tx), tx, w, T.Block(0, h.gasLimit));
            Process(c, h, [tx], w, NO_TALLY).error == if o.Rejected? then Some(o.error) else None
  {
    hide T.ApplyTransaction, SoundEnv, WorldAfter, Sound;
    assert [tx, tx'][1..] == [tx'] && [tx][1..] == [] && [tx'][1..] == [];
  }

  /** What a block that escapes leaves behind decides about the next one: after a block that holds a plain transaction
      twice, a block that holds it once escapes too, although it is applied to the state before. */
  lemma OrderMatters(c: Consensus, p: Params, x: Block, y: Block, tx: T.Tx, w: World, p': Params)
    requires Sound(c) && Sane(w) && x.transactions == [tx, tx] && y.transactions == [tx]
    requires Begins(c, p, x) && Begins(c, p, y) && Begins(c, p', y)
    requires Plain(TxEnv(c, x.header, tx), tx, w, T.Block(0, x.header.gasLimit))
    requires Plain(TxEnv(c, y.header, tx), tx, w, T.Block(0, y.header.gasLimit))
    ensures Escapes(c, p, x, w) && Escapes(c, p', y, ProcessOf(c, x, w).world)
    ensures !Escapes(c, p, y, w) && ProcessOf(c, y, w).error == None
  {
    hide T.ApplyTransaction, Plain, WorldAfter, HeaderFits, UnclesOf, SoundEnv, TxEnv, Process;
    var h, e1, e2 := y.header, TxEnv(c, x.header, tx), TxEnv(c, y.header, tx);
    TxEnvSound(c, x.header, tx);
    TxEnvSound(c, h, tx);
    RepeatedEscapes(c, p, x, tx, w);
    var w1 := ProcessOf(c, x, w).world;
    PlainApplied(e2, tx, w, T.Block(0, h.gasLimit));
    Repeated(e1, tx, w, T.Block(0, x.header.gasLimit), e2, T.Block(0, h.gasLimit));
    ClearedTwice(e2, tx, WorldAfter(e1, T.ApplyTransaction(e1, tx, w, T.Block(0, x.header.gasLimit))), T.Block(0, h.gasLimit));
    TwoTransactions(c, h, tx, tx, w);
    TwoTransactions(c, h, tx, tx, w1);
  }

  lemma ClearedTwice(env: Env, tx: T.Tx, w: World, block: T.Block)
    requires SoundEnv(env)
    ensures T.ApplyTransaction(env, tx, Cleared(w), block) == T.ApplyTransaction(env, tx, w, block)
  {
    assert Cleared(Cleared(w)) == Cleared(w);
    hide T.RunTx, T.BuyGas, T.FinishTx, T.ValidateTransaction, SoundEnv;
  }

  lemma {:induction false} RewardedNonce(c: Consensus, h: Header, uncles: seq<Header>, w: World, a: Address)
    ensures GetNonce(Rewarded(c, h, uncles, w), a) == GetNonce(w, a)
  {
    if uncles != [] { RewardedNonce(c, h, uncles[..|uncles| - 1], w, a); }
  }

  lemma EscapesUncommitted(c: Consensus, p: Params, b: Block, w: World)
    requires Sound(c) && Escapes(c, p, b, w) && c.env(b.header).metropolis
    ensures !Committing(c, p, b, w) && !Torn(c, p, b, w, [])
  {
  }

  lemma WrongGas(c: Consensus, p: Params, b: Block, w: World)
    requires Sound(c) && Begins(c, p, b) && b.transactions == [] && b.header.bloom == 0 && b.header.gasUsed != 0
    ensures Ends(c, p, b, w) && ProcessOf(c, b, w).world == w && !Accepts(c, p, b, w) && !Escapes(c, p, b, w)
  {
  }

  lemma NoUncles(c: Consensus, p: Params, p': Params, b: Block)
    requires b.uncles == [] && p'.prevHeaders == p.prevHeaders && Begins(c, p, b)
    ensures Begins(c, p', b)
  {
  }

  /** The nonce in a trie that a commit after the rewards has written. */
  lemma CommittedNonce(c: Consensus, z: Block, w: World, trie: map<Address, Record>, a: Address)
    requires Sane(w) && Holds(trie, CommitWorld(c.env(z.header), Finalized(c, z, w)))
    ensures TrieAcct(trie, a).nonce == GetNonce(w, a)
  {
    hide Rewarded, Sane, Evolves;
    FinalizedEvolves(c, z, w);
    SaneOn(w, Finalized(c, z, w));
    RewardedNonce(c, z.header, z.uncles,
                  DeltaBalance(w, z.header.coinbase, c.blockReward(z.header) + c.nephewReward(z.header) * |z.uncles|), a);
    CommitKeeps(c.env(z.header), Finalized(c, z, w), a);
  }

  lemma PlainNonce(env: Env, tx: T.Tx, w: World, block: T.Block)
    requires Plain(env, tx, w, block)
    ensures GetNonce(w, tx.sender) == tx.nonce
  {
  }

  /** Refused: an empty block that claims to have used gas, on a state whose journal is not empty and that differs from its
      trie in a nonce. When the wrong claim is found, the commit has changed the trie. */
  method RefusedOnDirty(c: Consensus, state: State, z: Block, ghost a: Address, ghost genesis: Header,
      ghost chain: seq<U.Block>) returns (o: Outcome)
    requires Sound(c) && InStep(state) && HeadOk(c, state.params, genesis, chain) && state.journal != []
    requires GetNonce(state.View(), a) != TrieAcct(state.trie, a).nonce
    requires Begins(c, state.params, z) && z.transactions == [] && z.header.bloom == 0 && z.header.gasUsed != 0
    modifies state, state.Accounts()
    ensures o == Refused
  {
    hide State.View, CachedAccount.View, Sound, Begins, HeadOk, Accepts, Escapes, Committing, Torn, Process, Rooted,
      Tracked, Holds, TrieAcct;
    hide Finalized, Ends, CommitWorld, UnclesOf, GetNonce;
    ghost var w, p := state.View(), state.params;
    TrackedSane(w, state.trie);
    ghost var trie;
    o, trie := ApplyBlock(c, state, z, genesis, chain);
    WrongGas(c, p, z, w);
    CommittedNonce(c, z, w, trie, a);
  }

  /** A block that holds a plain transaction twice leaves such a state in Metropolis. */
  method EscapedLeavesDirty(c: Consensus, state: State, x: Block, tx: T.Tx, ghost genesis: Header,
      ghost chain: seq<U.Block>) returns (o: Outcome)
    requires Sound(c) && InStep(state) && HeadOk(c, state.params, genesis, chain) && state.journal == []
    requires x.transactions == [tx, tx] && Begins(c, state.params, x) && c.env(x.header).metropolis
    requires Plain(TxEnv(c, x.header, tx), tx, state.View(), T.Block(0, x.header.gasLimit))
    modifies state, state.Accounts()
    ensures o == Escaped && InStep(state) && HeadOk(c, state.params, genesis, chain) && state.journal != []
    ensures state.params.prevHeaders == old(state.params).prevHeaders && fresh(state.Accounts() - old(state.Accounts()))
    ensures GetNonce(state.View(), tx.sender) != TrieAcct(state.trie, tx.sender).nonce
  {
    hide State.View, CachedAccount.View, Sound, Begins, Plain, HeadOk, Accepts, Escapes, Committing, Torn, Process,
      Rooted, Tracked, Holds;
    hide Finalized, Ends, CommitWorld, TxEnv, WorldAfter, HeaderFits;
    ghost var w, t, p := state.View(), state.trie, state.params;
    PlainNonce(TxEnv(c, x.header, tx), tx, w, T.Block(0, x.header.gasLimit));
    RootedClean(w, t);
    TrackedSane(w, t);
    RepeatedEscapes(c, p, x, tx, w);
    EscapesUncommitted(c, p, x, w);
    BeginsFacts(c, p, x);
    ghost var trie;
    o, trie := ApplyBlock(c, state, x, genesis, chain);
  }

  lemma BeginsFacts(c: Consensus, p: Params, b: Block)
    requires Begins(c, p, b)
    ensures UnclesOf(c, p, b).None?
  {
  }

  /** Both together. */
  method RefusedAfterEscaped(c: Consensus, state: State, x: Block, z: Block, tx: T.Tx, ghost genesis: Header,
      ghost chain: seq<U.Block>) returns (o1: Outcome, o2: Outcome)
    requires Sound(c) && InStep(state) && HeadOk(c, state.params, genesis, chain) && state.journal == []
    requires x.transactions == [tx, tx] && Begins(c, state.params, x) && c.env(x.header).metropolis
    requires Plain(TxEnv(c, x.header, tx), tx, state.View(), T.Block(0, x.header.gasLimit))
    requires Begins(c, state.params, z) && z.uncles == [] && z.transactions == [] && z.header.bloom == 0 && z.header.gasUsed != 0
    modifies state, state.Accounts()
    ensures o1 == Escaped && o2 == Refused
  {
    hide State.View, CachedAccount.View, Sound, Begins, Plain, HeadOk, InStep, GetNonce, TrieAcct, TxEnv;
    ghost var p := state.params;
    o1 := EscapedLeavesDirty(c, state, x, tx, genesis, chain);
    NoUncles(c, p, state.params, z);
    o2 := RefusedOnDirty(c, state, z, tx.sender, genesis, chain);
  }
}
