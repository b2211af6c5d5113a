/** What an accepted block is: its uncles, what it pays, and what its header commits to. */
module BlockLaws {
  import opened ByteStrings
  import opened IntMath
  import opened Words
  import opened World
  import opened Headers
  import opened Tracking
  import opened TxRun
  import opened BlockRun
  import opened InstructionLaws
  import T = Transactions
  import U = Uncles

  // ---- uncles ----

  /** The parent of the uncle is the k-th header below the block's own, and not its parent; the header follows it by the rules. */
  predicate FollowsAncestor(r: U.Rules, prev: seq<Header>, u: Header, k: nat)
    requires k < |prev|
  {
    && 1 <= k < 7 && u.prevhash == r.hash(prev[k])
    && u.number == prev[k].number + 1 && u.timestamp >= prev[k].timestamp && u.difficulty == r.calcDifficulty(prev[k], u.timestamp)
    && u.gasUsed <= u.gasLimit && r.checkPow(u)
  }

  /** It is neither the block nor one of the last seven below it, nor an uncle of one of the last six. */
  ghost predicate Fresh(r: U.Rules, block: U.Block, prev: seq<Header>, recent: map<int, seq<Hash>>, u: Header) {
    && r.hash(u) != r.hash(block.header)
    && (forall k :: 0 <= k < |prev| && k < 7 ==> r.hash(u) != r.hash(prev[k]))
    && forall n :: n in recent && block.header.number - 6 <= n < block.header.number ==> r.hash(u) !in recent[n]
  }

  /** At most two uncles, all lower than the block, different, fresh, and on top of an ancestor. */
  ghost predicate GoodUncles(r: U.Rules, block: U.Block, prev: seq<Header>, recent: map<int, seq<Hash>>) {
    && r.hashUncles(block.uncles) == block.header.unclesHash && |block.uncles| <= 2
    && (forall i :: 0 <= i < |block.uncles| ==> GoodUncle(r, block, prev, recent, block.uncles[i]))
    && forall i, j :: 0 <= i < j < |block.uncles| ==> r.hash(block.uncles[i]) != r.hash(block.uncles[j])
  }

  ghost predicate GoodUncle(r: U.Rules, block: U.Block, prev: seq<Header>, recent: map<int, seq<Hash>>, u: Header) {
    u.number < block.header.number && Fresh(r, block, prev, recent, u) && exists k :: 0 <= k < |prev| && FollowsAncestor(r, prev, u, k)
  }

  lemma {:induction false} UnclesChecked(r: U.Rules, uncles: seq<Header>, ancestors: seq<Header>, barred: set<Hash>)
    requires ancestors != []
    ensures U.CheckUncles(r, uncles, ancestors, barred) == None
       <==> && (forall i :: 0 <= i < |uncles| ==> U.CheckUncle(r, uncles[i], ancestors, barred) == None)
            && forall i, j :: 0 <= i < j < |uncles| ==> r.hash(uncles[i]) != r.hash(uncles[j])
    decreases |uncles|
  {
    if uncles != [] {
      var rest, more := uncles[1..], barred + {r.hash(uncles[0])};
      UnclesChecked(r, rest, ancestors, more);
      assert forall i :: 0 < i < |uncles| ==> uncles[i] == rest[i - 1];
      forall i | 0 <= i < |rest|
        ensures U.CheckUncle(r, rest[i], ancestors, more) == None
           <==> U.CheckUncle(r, rest[i], ancestors, barred) == None && r.hash(uncles[0]) != r.hash(uncles[i + 1]) {
        assert rest[i] == uncles[i + 1];
      }
      hide U.CheckUncle;
    }
  }

  lemma UncleChecked(r: U.Rules, block: U.Block, prev: seq<Header>, recent: map<int, seq<Hash>>, u: Header)
    requires U.Injective(r) && u.number < block.header.number
    ensures U.CheckUncle(r, u, U.AncestorChain(block, prev), U.Barred(r, block, prev, recent)) == None
       <==> GoodUncle(r, block, prev, recent, u)
  {
    ParentMeans(r, block, prev, u);
    assert forall j :: 0 <= j < |prev| && FollowsAncestor(r, prev, u, j) ==> Candidate(r, prev, u, j);
    if k :| 0 <= k < |prev| && Candidate(r, prev, u, k) {
      WithParent(r, block, prev, recent, u, k);
      hide U.CheckUncle, U.Barred, U.AncestorChain, U.Hashes, Fresh, U.Find;
      if GoodUncle(r, block, prev, recent, u) {
        var j :| 0 <= j < |prev| && FollowsAncestor(r, prev, u, j);
        assert prev[j] == prev[k];
        hide U.Injective;
      }
    } else {
      hide U.Barred, U.AncestorChain, U.Hashes, Fresh, U.Find;
    }
  }

  /** With the parent found, the other checks decide. */
  lemma WithParent(r: U.Rules, block: U.Block, prev: seq<Header>, recent: map<int, seq<Hash>>, u: Header, k: nat)
    requires k < |prev| && Candidate(r, prev, u, k)
    requires var chain := U.AncestorChain(block, prev);
             |chain| >= 2 && u.prevhash in U.Hashes(r, chain[2..]) && U.Find(r, chain, u.prevhash) == Some(prev[k])
    ensures U.CheckUncle(r, u, U.AncestorChain(block, prev), U.Barred(r, block, prev, recent)) == None
       <==> FollowsAncestor(r, prev, u, k) && Fresh(r, block, prev, recent, u)
  {
    BarredMeans(r, block, prev, recent, r.hash(u));
    hide U.Barred, U.AncestorChain, U.Hashes, U.Find;
  }

  predicate Candidate(r: U.Rules, prev: seq<Header>, u: Header, k: nat)
    requires k < |prev|
  {
    1 <= k < 7 && r.hash(prev[k]) == u.prevhash
  }

  lemma ParentMeans(r: U.Rules, block: U.Block, prev: seq<Header>, u: Header)
    requires U.Injective(r)
    ensures var chain := U.AncestorChain(block, prev);
            && (|chain| >= 2 && u.prevhash in U.Hashes(r, chain[2..]) <==> exists k :: 0 <= k < |prev| && Candidate(r, prev, u, k))
            && forall k :: 0 <= k < |prev| && Candidate(r, prev, u, k) ==> U.Find(r, chain, u.prevhash) == Some(prev[k])
  {
    var chain := U.AncestorChain(block, prev);
    AncestorForm(block, prev);
    hide U.AncestorChain;
    forall k | 0 <= k < |prev| && Candidate(r, prev, u, k)
      ensures |chain| >= 2 && u.prevhash in U.Hashes(r, chain[2..]) && U.Find(r, chain, u.prevhash) == Some(prev[k]) {
      assert chain[2..][k - 1] == prev[k];
      assert U.Hashes(r, chain[2..])[k - 1] == u.prevhash && U.Hashes(r, chain)[k + 1] == u.prevhash;
    }
    if |chain| >= 2 && u.prevhash in U.Hashes(r, chain[2..]) {
      var k :| 0 <= k < |chain[2..]| && U.Hashes(r, chain[2..])[k] == u.prevhash;
      assert chain[2..][k] == prev[k + 1];
      assert Candidate(r, prev, u, k + 1);
    }
  }

  lemma AncestorForm(block: U.Block, prev: seq<Header>)
    ensures U.AncestorChain(block, prev) == [block.header] + prev[..if |prev| <= 7 then |prev| else 7]
  {
  }

  lemma BarredMeans(r: U.Rules, block: U.Block, prev: seq<Header>, recent: map<int, seq<Hash>>, h: Hash)
    ensures h in U.Barred(r, block, prev, recent)
       <==> || h == r.hash(block.header)
            || (exists k :: 0 <= k < |prev| && k < 7 && h == r.hash(prev[k]))
            || exists n :: n in recent && block.header.number - 6 <= n < block.header.number && h in recent[n]
  {
    var chain := U.AncestorChain(block, prev);
    AncestorForm(block, prev);
    var hashes := U.Hashes(r, chain);
    if h in hashes {
      var k :| 0 <= k < |hashes| && hashes[k] == h;
      if k > 0 { assert h == r.hash(prev[k - 1]); }
    }
    if exists k :: 0 <= k < |prev| && k < 7 && h == r.hash(prev[k]) {
      var k :| 0 <= k < |prev| && k < 7 && h == r.hash(prev[k]);
      assert hashes[k + 1] == h;
    }
    assert hashes[0] == r.hash(block.header);
  }

  /** The uncle checks pass if and only if the uncles are good. */
  lemma UncleLaw(r: U.Rules, block: U.Block, prev: seq<Header>, recent: map<int, seq<Hash>>)
    requires U.Injective(r)
    ensures U.UnclesError(r, block, prev, recent) == None <==> GoodUncles(r, block, prev, recent)
  {
    hide U.Injective, U.CheckUncle, GoodUncle, U.Barred;
    UnclesChecked(r, block.uncles, U.AncestorChain(block, prev), U.Barred(r, block, prev, recent));
    forall i | 0 <= i < |block.uncles| && block.uncles[i].number < block.header.number
      ensures U.CheckUncle(r, block.uncles[i], U.AncestorChain(block, prev), U.Barred(r, block, prev, recent)) == None
         <==> GoodUncle(r, block, prev, recent, block.uncles[i]) {
      UncleChecked(r, block, prev, recent, block.uncles[i]);
    }
    forall i | 0 <= i < |block.uncles| ensures GoodUncle(r, block, prev, recent, block.uncles[i]) ==> block.uncles[i].number < block.header.number {
      LowerIfGood(r, block, prev, recent, block.uncles[i]);
    }
  }

  lemma LowerIfGood(r: U.Rules, block: U.Block, prev: seq<Header>, recent: map<int, seq<Hash>>, u: Header)
    ensures GoodUncle(r, block, prev, recent, u) ==> u.number < block.header.number
  {
  }

  // ---- rewards ----

  /** An uncle's miner gets an eighth less of the reward for each number further back, rounded down. */
  predicate UnclePayment(reward: int, depth: int, paid: int) {
    8 * paid <= reward * (8 - depth) < 8 * paid + 8
  }

  function PaidTo(uncles: seq<Header>, paid: seq<int>, a: Address): int
    requires |paid| == |uncles|
  {
    if uncles == [] then 0
    else (if uncles[0].coinbase == a then paid[0] else 0) + PaidTo(uncles[1..], paid[1..], a)
  }

  ghost predicate Rewards(c: Consensus, b: Block, before: World, after: World, paid: seq<int>) {
    && |paid| == |b.uncles|
    && (forall i :: 0 <= i < |paid| ==> UnclePayment(c.blockReward(b.header), b.header.number - b.uncles[i].number, paid[i]))
    && forall a: Address ::
         GetBalance(after, a)
         == GetBalance(before, a) + PaidTo(b.uncles, paid, a)
            + if a == b.header.coinbase then c.blockReward(b.header) + c.nephewReward(b.header) * |b.uncles| else 0
  }

  lemma {:induction false} PaidSnoc(uncles: seq<Header>, paid: seq<int>, a: Address)
    requires |paid| == |uncles| > 0
    ensures PaidTo(uncles, paid, a)
         == PaidTo(uncles[..|uncles| - 1], paid[..|paid| - 1], a)
            + if uncles[|uncles| - 1].coinbase == a then paid[|paid| - 1] else 0
  {
    if |uncles| > 1 {
      PaidSnoc(uncles[1..], paid[1..], a);
      assert uncles[1..][..|uncles| - 2] == uncles[..|uncles| - 1][1..] && paid[1..][..|paid| - 2] == paid[..|paid| - 1][1..];
    }
  }

  lemma EighthsOf(reward: int, uncleNumber: int, number: int)
    ensures UnclePayment(reward, number - uncleNumber, U.UncleReward(reward, uncleNumber, number))
  {
    var x := reward * (8 + uncleNumber - number);
    assert 8 - (number - uncleNumber) == 8 + uncleNumber - number;
    assert x == 8 * (x / 8) + x % 8;
  }

  lemma {:induction false} UnclesPaid(c: Consensus, h: Header, uncles: seq<Header>, w: World) returns (paid: seq<int>)
    ensures |paid| == |uncles|
    ensures forall i :: 0 <= i < |paid| ==> UnclePayment(c.blockReward(h), h.number - uncles[i].number, paid[i])
    ensures forall a: Address :: GetBalance(Rewarded(c, h, uncles, w), a) == GetBalance(w, a) + PaidTo(uncles, paid, a)
  {
    hide UnclePayment, U.UncleReward;
    if uncles == [] {
      paid := [];
    } else {
      var u := uncles[|uncles| - 1];
      var rest := UnclesPaid(c, h, uncles[..|uncles| - 1], w);
      EighthsOf(c.blockReward(h), u.number, h.number);
      paid := rest + [U.UncleReward(c.blockReward(h), u.number, h.number)];
      forall a: Address ensures GetBalance(Rewarded(c, h, uncles, w), a) == GetBalance(w, a) + PaidTo(uncles, paid, a) {
        PaidSnoc(uncles, paid, a);
        assert paid[..|paid| - 1] == rest;
      }
    }
  }

  /** Finalising a block pays the block reward, the nephew rewards and the uncles' rewards, and changes no other balance. */
  lemma RewardLaw(c: Consensus, b: Block, w: World) returns (paid: seq<int>)
    ensures Rewards(c, b, w, Finalized(c, b, w), paid)
  {
    hide Rewarded, UnclePayment;
    paid := UnclesPaid(c, b.header, b.uncles, DeltaBalance(w, b.header.coinbase, c.blockReward(b.header) + c.nephewReward(b.header) * |b.uncles|));
  }

  /** Of a reward that is a multiple of 8, each number further back costs exactly an eighth. */
  lemma EighthLaw(reward: int, depth: int, paid: int, paid': int)
    requires reward % 8 == 0 && UnclePayment(reward, depth, paid) && UnclePayment(reward, depth + 1, paid')
    ensures paid - paid' == reward / 8 && 8 * paid == reward * (8 - depth)
  {
    var e := reward / 8;
    assert reward == 8 * e;
    assert reward * (8 - depth) == 8 * (e * (8 - depth)) && reward * (7 - depth) == 8 * (e * (7 - depth));
    assert e * (8 - depth) - e * (7 - depth) == e;
  }

  // ---- what the header commits to ----

  /** Before the first transaction, after each of them, and at the end: the worlds, the gas used so far and the bloom filter so
      far; and the receipts. */
  datatype Run = Run(worlds: seq<World>, gas: seq<int>, blooms: seq<nat>, receipts: seq<Receipt>)

  /** One transaction of a block, with its receipt: the gas used so far, the logs and their filter, and the state root before
      Metropolis or the success after it. */
  ghost predicate Turn(c: Consensus, h: Header, tx: T.Tx, w: World, gas: int, bloom: nat, w': World, gas': int,
      bloom': nat, r: Receipt)
    requires Sound(c)
  {
    var env := c.env(h).(txOrigin := tx.sender, txGasPrice := tx.gasprice % TT256);
    var o := T.ApplyTransaction(env, tx, w, T.Block(gas, h.gasLimit));
    && o.Applied? && gas' == gas + o.gasUsed && bloom' == Or(bloom, r.bloom)
    && w' == (if env.metropolis then o.world else CommitWorld(env, o.world)).(logs := [])
    && r == Receipt(if env.metropolis then None else Some(c.digests.rootOf(w'.accounts)), env.metropolis && o.success, gas',
                    c.digests.bloomOf(o.world.logs), o.world.logs)
  }

  ghost predicate Runs(c: Consensus, h: Header, txs: seq<T.Tx>, w: World, gas: int, bloom: nat, run: Run)
    requires Sound(c)
  {
    && |run.worlds| == |run.gas| == |run.blooms| == |txs| + 1 && |run.receipts| == |txs|
    && run.worlds[0] == w && run.gas[0] == gas && run.blooms[0] == bloom
    && forall i :: 0 <= i < |txs| ==>
         Turn(c, h, txs[i], run.worlds[i], run.gas[i], run.blooms[i], run.worlds[i + 1], run.gas[i + 1], run.blooms[i + 1], run.receipts[i])
  }

  predicate EndsWith(p: Processed, receipts: seq<Receipt>, run: Run) {
    && run.worlds != [] && run.gas != [] && run.blooms != []
    && p.error.None? && p.world == run.worlds[|run.worlds| - 1] && p.tally.gasUsed == run.gas[|run.gas| - 1]
    && p.tally.bloom == run.blooms[|run.blooms| - 1] && p.tally.receipts == receipts + run.receipts
  }

  lemma TurnIs(c: Consensus, h: Header, tx: T.Tx, w: World, t: Tally)
    requires Sound(c)
    ensures var env := TxEnv(c, h, tx);
            SoundEnv(env) && var o := T.ApplyTransaction(env, tx, w, T.Block(t.gasUsed, h.gasLimit));
            o.Applied? ==>
              var t' := Counted(c, env, o, t);
              && t'.receipts == t.receipts + [t'.receipts[|t'.receipts| - 1]]
              && Turn(c, h, tx, w, t.gasUsed, t.bloom, WorldAfter(env, o), t'.gasUsed, t'.bloom, t'.receipts[|t'.receipts| - 1])
  {
    TxEnvSound(c, h, tx);
    hide T.ApplyTransaction, CommitWorld, Sound, Or;
  }

  function Cons(w: World, gas: int, bloom: nat, r: Receipt, run: Run): Run {
    Run([w] + run.worlds, [gas] + run.gas, [bloom] + run.blooms, [r] + run.receipts)
  }

  lemma RunsCons(c: Consensus, h: Header, txs: seq<T.Tx>, w: World, gas: int, bloom: nat, w': World, gas': int,
      bloom': nat, r: Receipt, rest: Run)
    requires Sound(c) && txs != [] && Turn(c, h, txs[0], w, gas, bloom, w', gas', bloom', r)
    requires Runs(c, h, txs[1..], w', gas', bloom', rest)
    ensures Runs(c, h, txs, w, gas, bloom, Cons(w, gas, bloom, r, rest))
  {
    hide Turn, Sound;
    var run := Cons(w, gas, bloom, r, rest);
    forall i | 0 <= i < |txs|
      ensures Turn(c, h, txs[i], run.worlds[i], run.gas[i], run.blooms[i], run.worlds[i + 1], run.gas[i + 1], run.blooms[i + 1],
                   run.receipts[i]) {
      if i > 0 { assert txs[i] == txs[1..][i - 1]; }
    }
  }

  lemma RunsRest(c: Consensus, h: Header, txs: seq<T.Tx>, w: World, gas: int, bloom: nat, run: Run)
    requires Sound(c) && txs != [] && Runs(c, h, txs, w, gas, bloom, run)
    ensures Turn(c, h, txs[0], w, gas, bloom, run.worlds[1], run.gas[1], run.blooms[1], run.receipts[0])
    ensures Runs(c, h, txs[1..], run.worlds[1], run.gas[1], run.blooms[1],
                 Run(run.worlds[1..], run.gas[1..], run.blooms[1..], run.receipts[1..]))
  {
    hide Turn, Sound;
  }

  lemma ProcessForm(c: Consensus, h: Header, txs: seq<T.Tx>, w: World, t: Tally)
    requires Sound(c) && txs != []
    ensures var env := TxEnv(c, h, txs[0]);
            && SoundEnv(env)
            && var o := T.ApplyTransaction(env, txs[0], w, T.Block(t.gasUsed, h.gasLimit));
               var p := Process(c, h, txs, w, t);
               if o.Rejected? then p.error.Some?
               else
                 var rest := Process(c, h, txs[1..], WorldAfter(env, o), Counted(c, env, o, t));
                 p.error == rest.error && p.world == rest.world && p.tally == rest.tally
  {
    TxEnvSound(c, h, txs[0]);
    hide T.ApplyTransaction, WorldAfter, Counted, Sound;
  }

  lemma {:induction false} ProcessRuns(c: Consensus, h: Header, txs: seq<T.Tx>, w: World, t: Tally) returns (run: Run)
    requires Sound(c) && Process(c, h, txs, w, t).error.None?
    ensures Runs(c, h, txs, w, t.gasUsed, t.bloom, run) && EndsWith(Process(c, h, txs, w, t), t.receipts, run)
    decreases |txs|
  {
    hide T.ApplyTransaction, WorldAfter, Counted, Turn, Sound;
    if txs == [] {
      run := Run([w], [t.gasUsed], [t.bloom], []);
    } else {
      ProcessForm(c, h, txs, w, t);
      TurnIs(c, h, txs[0], w, t);
      hide Process;
      var env := TxEnv(c, h, txs[0]);
      var o := T.ApplyTransaction(env, txs[0], w, T.Block(t.gasUsed, h.gasLimit));
      var w', t' := WorldAfter(env, o), Counted(c, env, o, t);
      var rest := ProcessRuns(c, h, txs[1..], w', t');
      var r := t'.receipts[|t'.receipts| - 1];
      run := Cons(w, t.gasUsed, t.bloom, r, rest);
      RunsCons(c, h, txs, w, t.gasUsed, t.bloom, w', t'.gasUsed, t'.bloom, r, rest);
      assert t.receipts + ([r] + rest.receipts) == t'.receipts + rest.receipts;
    }
  }

  /** A run is determined by its transactions. */
  lemma {:induction false} RunProcesses(c: Consensus, h: Header, txs: seq<T.Tx>, w: World, t: Tally, run: Run)
    requires Sound(c) && Runs(c, h, txs, w, t.gasUsed, t.bloom, run)
    ensures EndsWith(Process(c, h, txs, w, t), t.receipts, run)
    decreases |txs|
  {
    hide T.ApplyTransaction, WorldAfter, Counted, Turn, Sound;
    if txs == [] {
      assert run.receipts == [];
    } else {
      ProcessForm(c, h, txs, w, t);
      TurnIs(c, h, txs[0], w, t);
      RunsRest(c, h, txs, w, t.gasUsed, t.bloom, run);
      hide Process;
      var env := TxEnv(c, h, txs[0]);
      var o := T.ApplyTransaction(env, txs[0], w, T.Block(t.gasUsed, h.gasLimit));
      TurnUnique(c, h, txs[0], w, t, run.worlds[1], run.gas[1], run.blooms[1], run.receipts[0]);
      var w', t' := WorldAfter(env, o), Counted(c, env, o, t);
      RunProcesses(c, h, txs[1..], w', t', Run(run.worlds[1..], run.gas[1..], run.blooms[1..], run.receipts[1..]));
      assert t.receipts + run.receipts == t'.receipts + run.receipts[1..];
    }
  }

  lemma TurnUnique(c: Consensus, h: Header, tx: T.Tx, w: World, t: Tally, w': World, gas': int, bloom': nat, r: Receipt)
    requires Sound(c) && Turn(c, h, tx, w, t.gasUsed, t.bloom, w', gas', bloom', r)
    ensures var env := TxEnv(c, h, tx);
            SoundEnv(env) && var o := T.ApplyTransaction(env, tx, w, T.Block(t.gasUsed, h.gasLimit));
            o.Applied? && w' == WorldAfter(env, o) && Counted(c, env, o, t) == Tally(gas', bloom', t.receipts + [r])
  {
    TxEnvSound(c, h, tx);
    TurnIs(c, h, tx, w, t);
    hide T.ApplyTransaction, CommitWorld, Sound, WorldAfter, Counted, Turn;
    TurnApplies(c, h, tx, w, t, w', gas', bloom', r);
    var env := TxEnv(c, h, tx);
    var o := T.ApplyTransaction(env, tx, w, T.Block(t.gasUsed, h.gasLimit));
    var t' := Counted(c, env, o, t);
    SameTurn(c, h, tx, w, t.gasUsed, t.bloom, WorldAfter(env, o), t'.gasUsed, t'.bloom, t'.receipts[|t'.receipts| - 1], w', gas', bloom', r);
  }

  lemma TurnApplies(c: Consensus, h: Header, tx: T.Tx, w: World, t: Tally, w': World, gas': int, bloom': nat,
      r: Receipt)
    requires Sound(c) && Turn(c, h, tx, w, t.gasUsed, t.bloom, w', gas', bloom', r)
    ensures SoundEnv(TxEnv(c, h, tx)) && T.ApplyTransaction(TxEnv(c, h, tx), tx, w, T.Block(t.gasUsed, h.gasLimit)).Applied?
  {
    TxEnvSound(c, h, tx);
    hide T.ApplyTransaction, CommitWorld, Sound;
  }

  lemma SameTurn(c: Consensus, h: Header, tx: T.Tx, w: World, gas: int, bloom: nat, w1: World, gas1: int, bloom1: nat,
      r1: Receipt, w2: World, gas2: int, bloom2: nat, r2: Receipt)
    requires Sound(c) && Turn(c, h, tx, w, gas, bloom, w1, gas1, bloom1, r1) && Turn(c, h, tx, w, gas, bloom, w2, gas2, bloom2, r2)
    ensures w1 == w2 && gas1 == gas2 && bloom1 == bloom2 && r1 == r2
  {
    hide T.ApplyTransaction, CommitWorld, Sound;
  }

  /** The header and the body are those of a block on this head, and all the header commits to is as the run made it. */
  ghost predicate Committed(c: Consensus, p: Params, b: Block, w: World, run: Run)
    requires Sound(c)
  {
    && p.prevHeaders != [] && b.header.prevhash == c.rules.hash(p.prevHeaders[0]) && b.header.number == p.prevHeaders[0].number + 1
    && c.validHeader(p.prevHeaders[0], b.header) && c.sealOk(b.header)
    && GoodUncles(c.rules, UncleBlock(b), p.prevHeaders, p.recentUncles)
    && b.header.txRoot == c.txRootOf(b.transactions)
    && Runs(c, b.header, b.transactions, w, 0, 0, run)
    && b.header.gasUsed == run.gas[|b.transactions|] && b.header.bloom == run.blooms[|b.transactions|]
    && b.header.receiptsRoot == c.receiptsRootOf(run.receipts)
    && b.header.stateRoot == c.digests.rootOf(CommitWorld(c.env(b.header), Finalized(c, b, run.worlds[|b.transactions|])).accounts)
  }

  /** A block is accepted if and only if it is. */
  lemma AcceptedLaw(c: Consensus, p: Params, b: Block, w: World) returns (run: Run)
    requires Sound(c)
    ensures Accepts(c, p, b, w) <==> exists r: Run :: Committed(c, p, b, w, r)
    ensures Accepts(c, p, b, w) ==> Committed(c, p, b, w, run)
  {
    hide Process, Finalized, CommitWorld, GoodUncles, U.UnclesError, Runs, U.Injective;
    UncleLaw(c.rules, UncleBlock(b), p.prevHeaders, p.recentUncles);
    if Accepts(c, p, b, w) {
      run := ProcessRuns(c, b.header, b.transactions, w, NO_TALLY);
      RunSizes(c, b.header, b.transactions, w, run);
      assert [] + run.receipts == run.receipts;
      assert Committed(c, p, b, w, run);
    } else {
      run := Run([], [], [], []);
      forall r: Run ensures !Committed(c, p, b, w, r) {
        if Committed(c, p, b, w, r) { CommittedAccepts(c, p, b, w, r); }
      }
    }
  }

  lemma CommittedAccepts(c: Consensus, p: Params, b: Block, w: World, run: Run)
    requires Sound(c) && Committed(c, p, b, w, run)
    ensures Accepts(c, p, b, w)
  {
    hide Process, Finalized, CommitWorld, GoodUncles, U.UnclesError, Runs, U.Injective;
    UncleLaw(c.rules, UncleBlock(b), p.prevHeaders, p.recentUncles);
    RunProcesses(c, b.header, b.transactions, w, NO_TALLY, run);
    RunSizes(c, b.header, b.transactions, w, run);
    assert [] + run.receipts == run.receipts;
  }

  lemma RunSizes(c: Consensus, h: Header, txs: seq<T.Tx>, w: World, run: Run)
    requires Sound(c) && Runs(c, h, txs, w, 0, 0, run)
    ensures |run.worlds| == |run.gas| == |run.blooms| == |txs| + 1 && |run.receipts| == |txs|
  {
  }

  /** A head state has at most one header for given transactions, uncles and header fields besides the commitments. */
  lemma CommitmentsUnique(c: Consensus, p: Params, b: Block, b': Block, w: World)
    requires Sound(c) && Accepts(c, p, b, w) && Accepts(c, p, b', w)
    requires b' == b.(header := b.header.(gasUsed := b'.header.gasUsed, unclesHash := b'.header.unclesHash, stateRoot := b'.header.stateRoot,
                                          txRoot := b'.header.txRoot, receiptsRoot := b'.header.receiptsRoot, bloom := b'.header.bloom))
    requires c.env(b'.header) == c.env(b.header) && c.blockReward(b'.header) == c.blockReward(b.header)
    requires c.nephewReward(b'.header) == c.nephewReward(b.header)
    ensures b' == b
  {
    hide Accepts, Process, Rewarded, CommitWorld, Sound;
    SameProcess(c, b.header, b'.header, b.transactions, w, NO_TALLY);
    SameRewards(c, b.header, b'.header, b.uncles,
                DeltaBalance(ProcessOf(c, b, w).world, b.header.coinbase, c.blockReward(b.header) + c.nephewReward(b.header) * |b.uncles|));
    AcceptedFields(c, p, b, w);
    AcceptedFields(c, p, b', w);
  }

  lemma AcceptedFields(c: Consensus, p: Params, b: Block, w: World)
    requires Sound(c) && Accepts(c, p, b, w)
    ensures var q := Process(c, b.header, b.transactions, w, NO_TALLY);
            && b.header.unclesHash == c.rules.hashUncles(b.uncles) && b.header.txRoot == c.txRootOf(b.transactions)
            && b.header.gasUsed == q.tally.gasUsed && b.header.bloom == q.tally.bloom
            && b.header.receiptsRoot == c.receiptsRootOf(q.tally.receipts)
            && b.header.stateRoot == c.digests.rootOf(CommitWorld(c.env(b.header), Finalized(c, b, q.world)).accounts)
  {
    hide Process, Finalized, CommitWorld, Sound, HeaderFits, U.CheckUncles;
  }

  lemma {:induction false} SameProcess(c: Consensus, h: Header, h': Header, txs: seq<T.Tx>, w: World, t: Tally)
    requires Sound(c) && c.env(h') == c.env(h) && h'.gasLimit == h.gasLimit
    ensures Process(c, h', txs, w, t) == Process(c, h, txs, w, t)
    decreases |txs|
  {
    hide T.ApplyTransaction, WorldAfter, Counted, Sound;
    if txs != [] {
      TxEnvSound(c, h, txs[0]);
      var env := TxEnv(c, h, txs[0]);
      assert TxEnv(c, h', txs[0]) == env;
      var o := T.ApplyTransaction(env, txs[0], w, T.Block(t.gasUsed, h.gasLimit));
      if o.Applied? { SameProcess(c, h, h', txs[1..], WorldAfter(env, o), Counted(c, env, o, t)); }
    }
  }

  lemma {:induction false} SameRewards(c: Consensus, h: Header, h': Header, uncles: seq<Header>, w: World)
    requires h'.number == h.number && c.blockReward(h') == c.blockReward(h)
    ensures Rewarded(c, h', uncles, w) == Rewarded(c, h, uncles, w)
    decreases |uncles|
  {
    if uncles != [] { SameRewards(c, h, h', uncles[..|uncles| - 1], w); }
  }

  /** What the next block sees of the parameters. */
  lemma RememberedLaw(c: Consensus, b: Block, p: Params)
    ensures var q := AfterBlock(c, b, p);
            && q.prevHeaders == [b.header] + p.prevHeaders
            && q.blockNumber == b.header.number && q.timestamp == b.header.timestamp && q.gasLimit == b.header.gasLimit
            && q.coinbase == b.header.coinbase && q.difficulty == b.header.difficulty
            && forall n: int ::
                 if n == b.header.number then
                   n in q.recentUncles && |q.recentUncles[n]| == |b.uncles|
                   && forall i :: 0 <= i < |b.uncles| ==> q.recentUncles[n][i] == c.rules.hash(b.uncles[i])
                 else if n == b.header.number - 6 then n !in q.recentUncles
                 else (n in q.recentUncles <==> n in p.recentUncles) && (n in p.recentUncles ==> q.recentUncles[n] == p.recentUncles[n])
  {
  }

  /** What a transaction does to the parameters: an applied one adds its gas, its receipt, its filter and one to the index. */
  lemma CountedLaw(d: Digests, env: Env, o: T.Outcome, p: Params)
    ensures var q := ParamsAfter(d, env, o, p);
            if o.Rejected? then q == p
            else
              && |q.receipts| == |p.receipts| + 1 && q.receipts[..|p.receipts|] == p.receipts
              && var r := q.receipts[|p.receipts|];
                 q == p.(gasUsed := p.gasUsed + o.gasUsed, txindex := p.txindex + 1, receipts := q.receipts, bloom := Or(p.bloom, r.bloom))
  {
    hide Or, CommitWorld;
  }

  /** A block starts with nothing counted. */
  lemma StartLaw(c: Consensus, b: Block, p: Params)
    ensures var q := Initialized(c, b, p);
            q.txindex == 0 && q.gasUsed == 0 && q.receipts == [] && q.bloom == 0 && q.prevHeaders == p.prevHeaders
  {
  }
}
