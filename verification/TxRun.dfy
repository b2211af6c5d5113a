/** Applying a transaction to the journaled state, and what a commit does to the ledger. */
module TxRun {
  import opened ByteStrings
  import opened BigEndian
  import opened Words
  import opened Opcodes
  import opened World
  import opened Machine
  import M = Machine
  import opened Evm
  import opened EvmSafety
  import T = Transactions
  import opened Headers
  import opened StateJournal
  import opened Tracking
  import VmRun

  // ---- fields outside the accounts ----

  function WithLog(w: World, suicides: seq<Address>, logs: seq<Log>, refunds: int): World {
    w.(suicides := suicides, logs := logs, refunds := refunds)
  }

  /** Plain assignments to the log fields, which the journal does not see. */
  method AssignLog(state: State, suicides: seq<Address>, logs: seq<Log>, refunds: int)
    requires state.Valid()
    modifies state`suicides, state`logs, state`refunds
    ensures state.Valid() && state.Extends() && state.View() == WithLog(old(state.View()), suicides, logs, refunds)
  {
    hide State.View, CachedAccount.View;
    ghost var w := state.View();
    state.ViewRepresents();
    state.suicides := suicides;
    state.logs := logs;
    state.refunds := refunds;
    state.LogChanged(w, WithLog(w, suicides, logs, refunds));
  }

  /** Clearing accounts does not look at the log fields. */
  lemma {:induction false} ClearSuicidesLog(w: World, s: seq<Address>, suicides: seq<Address>, logs: seq<Log>,
      refunds: int)
    ensures T.ClearSuicides(WithLog(w, suicides, logs, refunds), s) == WithLog(T.ClearSuicides(w, s), suicides, logs, refunds)
  {
    if s != [] {
      ClearSuicidesLog(w, s[..|s| - 1], suicides, logs, refunds);
    }
  }

  lemma SettleLog(env: Env, tx: T.Tx, w: World, gasRemained: int, gasUsed: int, refunds: int)
    ensures T.Settle(env, tx, WithLog(w, w.suicides, w.logs, refunds), gasRemained, gasUsed)
         == WithLog(T.Settle(env, tx, w, gasRemained, gasUsed), w.suicides, w.logs, refunds)
    ensures T.Settle(env, tx, w, gasRemained, gasUsed).logs == w.logs
    ensures T.Settle(env, tx, w, gasRemained, gasUsed).suicides == w.suicides
  {
  }

  // ---- the steps of a transaction ----

  /** The checks, in their order; None when the transaction passes. */
  method Validate(state: State, env: Env, tx: T.Tx, block: T.Block) returns (error: Option<T.Error>)
    requires state.Valid()
    modifies state`cache
    ensures state.Valid() && state.Extends() && state.View() == old(state.View())
    ensures error == T.ValidateTransaction(env, tx, state.View(), block)
  {
    hide State.View, W.GetBalance, W.GetNonce, T.IntrinsicGas;
    if !tx.signed {
      return Some(T.UnsignedTransaction);
    }
    if !T.ForkValid(env, tx) {
      return Some(T.InvalidTransaction);
    }
    var reqNonce := 0;
    if tx.sender != NULL_ADDRESS {
      reqNonce := state.GetNonce(tx.sender);
    }
    if reqNonce != tx.nonce {
      return Some(T.InvalidNonce);
    }
    if tx.startgas < T.IntrinsicGas(tx.data) {
      return Some(T.InsufficientStartGas);
    }
    var totalCost := tx.value + tx.gasprice * tx.startgas;
    var balance := state.GetBalance(tx.sender);
    if balance < totalCost {
      return Some(T.InsufficientBalance);
    }
    if block.gasUsed + tx.startgas > block.gasLimit {
      return Some(T.BlockGasLimitReached);
    }
    if tx.sender == NULL_ADDRESS && (tx.value != 0 || tx.gasprice != 0) {
      return Some(T.InvalidTransaction);
    }
    return None;
  }

  /** Raises the nonce, buys the gas and runs the message. */
  method Run(state: State, env: Env, tx: T.Tx) returns (success: bool, gas: int, data: Bytes)
    requires SoundEnv(env) && state.Valid() && T.UpfrontGas(env, tx) <= tx.startgas
    modifies state, state.Accounts()
    ensures state.Valid() && state.Extends() && Leads(old(state.View()), old(state.journal), state.View(), state.journal)
    ensures var r := T.RunTx(env, tx, T.BuyGas(tx, old(state.View())));
            success == r.success && gas == r.gas && data == r.data && state.View() == r.world
  {
    hide State.View, CachedAccount.View, SoundEnv, Undoes, W.IncrementNonce, W.DeltaBalance, Evm.ApplyMsg,
      Evm.CreateContract, W.GetCode;
    hide Leads;
    var upfront := T.UpfrontGas(env, tx);
    ghost var w0, j0 := state.View(), state.journal;
    Buy(state, tx);
    ghost var w1, j1 := state.View(), state.journal;
    var messageData := CallData(tx.data, 0, |tx.data|);
    match tx.to {
      case Some(to) =>
        var code := state.GetCode(to);
        var message := Message(tx.sender, to, tx.value, tx.startgas - upfront, messageData, 0, Some(to), true, false);
        success, gas, data := VmRun.ApplyMsg(state, env, message, code);
      case None =>
        var message := Message(tx.sender, 0, tx.value, tx.startgas - upfront, messageData, 0, None, true, false);
        var addr;
        success, gas, addr, data := VmRun.CreateContract(state, env, message);
        if success { data := T.AddressBytes(addr); }
    }
    UndoesLeads(w1, j1, state.View(), state.journal);
    LeadsTransitive(w0, j0, w1, j1, state.View(), state.journal);
  }

  /** Raises the nonce and buys the gas. */
  method Buy(state: State, tx: T.Tx)
    requires state.Valid()
    modifies state, state.Accounts()
    ensures state.Valid() && state.Extends() && Leads(old(state.View()), old(state.journal), state.View(), state.journal)
    ensures state.View() == T.BuyGas(tx, old(state.View()))
  {
    hide State.View, CachedAccount.View, Undoes, W.IncrementNonce, W.DeltaBalance, Leads;
    ghost var w0, j0 := state.View(), state.journal;
    UndoesNothing(w0, j0);
    if tx.sender != NULL_ADDRESS {
      state.IncrementNonce(tx.sender);
    }
    ghost var w1, j1 := state.View(), state.journal;
    state.DeltaBalance(tx.sender, -(tx.startgas * tx.gasprice));
    UndoesTransitive(w0, j0, w1, j1, state.View(), state.journal);
    UndoesLeads(w0, j0, state.View(), state.journal);
  }

  /** Refund, settlement, and removal of the self-destructed accounts. */
  method Finish(state: State, env: Env, tx: T.Tx, success: bool, gasLeft: nat, ghost data: Bytes, ghost x: bool)
    returns (gasUsed: int)
    requires state.Valid()
    modifies state, state.Accounts()
    ensures state.Valid() && state.Extends() && Leads(old(state.View()), old(state.journal), state.View(), state.journal)
    ensures var o := T.FinishTx(env, tx, T.Ran(success, gasLeft, data, old(state.View()), x));
            o.Applied? && gasUsed == o.gasUsed && state.View() == o.world
  {
    hide State.View, CachedAccount.View, Undoes, W.DeltaBalance, T.ClearSuicides, T.Settle, Leads;
    ghost var w, j := state.View(), state.journal;
    state.ViewRepresents();
    var gasRemained := gasLeft;
    gasUsed := tx.startgas - gasRemained;
    if success {
      var refunds := state.refunds + |set a | a in state.suicides| * GSUICIDEREFUND;
      if refunds > 0 {
        var back := T.Min(refunds, gasUsed / 2);
        gasRemained := gasRemained + back;
        gasUsed := gasUsed - back;
        refunds := 0;
      }
      AssignLog(state, state.suicides, state.logs, refunds);
    } else {
      AssignLog(state, state.suicides, state.logs, state.refunds);
    }
    state.ViewRepresents();
    ghost var left := T.RefundsLeft(w, success);
    SettleLog(env, tx, w, gasRemained, gasUsed, left);
    LeadsNothing(w, state.View(), j);
    ghost var w1, j1 := state.View(), state.journal;
    SettleOn(state, env, tx, gasRemained, gasUsed);
    ghost var w2, j2 := state.View(), state.journal;
    LeadsTransitive(w, j, w1, j1, w2, j2);
    state.ViewRepresents();
    var suicides := state.suicides;
    ClearAll(state, suicides);
    LeadsTransitive(w, j, w2, j2, state.View(), state.journal);
    ClearSuicidesLog(T.Settle(env, tx, w, gasRemained, gasUsed), suicides, w.suicides, w.logs, left);
    ClearKeepsLog(T.Settle(env, tx, w, gasRemained, gasUsed), suicides);
  }

  method SettleOn(state: State, env: Env, tx: T.Tx, gasRemained: int, gasUsed: int)
    requires state.Valid()
    modifies state, state.Accounts()
    ensures state.Valid() && state.Extends() && Leads(old(state.View()), old(state.journal), state.View(), state.journal)
    ensures state.View() == T.Settle(env, tx, old(state.View()), gasRemained, gasUsed)
  {
    hide State.View, CachedAccount.View, Undoes, W.DeltaBalance, Leads;
    ghost var w, j := state.View(), state.journal;
    state.DeltaBalance(tx.sender, tx.gasprice * gasRemained);
    ghost var w1, j1 := state.View(), state.journal;
    state.DeltaBalance(env.coinbase, tx.gasprice * gasUsed);
    UndoesTransitive(w, j, w1, j1, state.View(), state.journal);
    UndoesLeads(w, j, state.View(), state.journal);
  }

  /** `state.suicides = []`, then the loop over the old list. */
  method ClearAll(state: State, suicides: seq<Address>)
    requires state.Valid() && suicides == state.suicides
    modifies state, state.Accounts()
    ensures state.Valid() && state.Extends() && Leads(old(state.View()), old(state.journal), state.View(), state.journal)
    ensures state.View() == T.ClearSuicides(old(state.View()), suicides).(suicides := [])
  {
    hide State.View, CachedAccount.View, Undoes, W.SetBalance, W.DelAccount, T.ClearSuicides, Leads;
    ghost var w, j := state.View(), state.journal;
    state.ViewRepresents();
    AssignLog(state, [], state.logs, state.refunds);
    ghost var w0 := state.View();
    LeadsNothing(w, w0, j);
    ClearStep(w0, suicides, 0);
    for i := 0 to |suicides|
      invariant state.Valid() && state.Extends() && Leads(w, j, state.View(), state.journal)
      invariant state.View() == T.ClearSuicides(w0, suicides[..i])
    {
      ghost var w1, j1 := state.View(), state.journal;
      ClearStep(w0, suicides, i);
      ClearOne(state, suicides[i]);
      LeadsTransitive(w, j, w1, j1, state.View(), state.journal);
    }
    assert suicides[..|suicides|] == suicides;
    ClearSuicidesLog(w, suicides, [], w.logs, w.refunds);
    ClearKeepsLog(w, suicides);
  }

  method ClearOne(state: State, a: Address)
    requires state.Valid()
    modifies state, state.Accounts()
    ensures state.Valid() && state.Extends() && Leads(old(state.View()), old(state.journal), state.View(), state.journal)
    ensures state.View() == DelAccount(SetBalance(old(state.View()), a, 0), a)
  {
    hide State.View, CachedAccount.View, Undoes, W.SetBalance, W.DelAccount, Leads;
    ghost var w, j := state.View(), state.journal;
    state.SetBalance(a, 0);
    ghost var w1, j1 := state.View(), state.journal;
    state.DelAccount(a);
    UndoesTransitive(w, j, w1, j1, state.View(), state.journal);
    UndoesLeads(w, j, state.View(), state.journal);
  }

  lemma ClearStep(w: World, s: seq<Address>, i: nat)
    ensures T.ClearSuicides(w, []) == w
    ensures i < |s| ==> T.ClearSuicides(w, s[..i + 1]) == DelAccount(SetBalance(T.ClearSuicides(w, s[..i]), s[i], 0), s[i])
  {
    if i < |s| {
      assert s[..i + 1][..i] == s[..i];
    }
  }

  lemma {:induction false} ClearKeepsLog(w: World, s: seq<Address>)
    ensures var c := T.ClearSuicides(w, s); c.suicides == w.suicides && c.logs == w.logs && c.refunds == w.refunds
  {
    if s != [] { ClearKeepsLog(w, s[..|s| - 1]); }
  }

  /** Hash functions: the root of an account trie is determined by the accounts in it; the bloom filter of logs. */
  datatype Digests = Digests(rootOf: map<Address, Account> -> Hash, bloomOf: seq<Log> -> nat)

  function Ledger(trie: map<Address, Record>): map<Address, Account> {
    map a | a in trie :: Loaded(trie[a])
  }

  /** With an empty journal a world is what the trie holds. */
  lemma RootedClean(w: World, trie: map<Address, Record>)
    requires Rooted(w, [], trie)
    ensures forall a: Address :: Acct(w, a) == TrieAcct(trie, a)
  {
    assert Unwind(w, [], 0) == w;
  }

  lemma LedgerIs(w: World, trie: map<Address, Record>)
    requires NoBlanks(w) && forall a: Address :: Acct(w, a) == TrieAcct(trie, a)
    ensures Ledger(trie) == w.accounts
  {
    forall a: Address ensures a in trie <==> a in w.accounts {
      assert Acct(w, a) == TrieAcct(trie, a);
    }
    forall a | a in trie ensures w.accounts[a] == Loaded(trie[a]) {
      assert Acct(w, a) == TrieAcct(trie, a);
    }
  }

  function BlockOf(p: Params): T.Block {
    T.Block(p.gasUsed, p.gasLimit)
  }

  /** The world after a transaction: before Metropolis it is committed, and the logs go into the receipt. */
  function WorldAfter(env: Env, o: T.Outcome): World {
    if o.Rejected? then o.world else (if env.metropolis then o.world else CommitWorld(env, o.world)).(logs := [])
  }

  /** The receipt of an applied transaction. */
  function ReceiptOf(d: Digests, env: Env, o: T.Outcome, gasUsed: int): Receipt
    requires o.Applied?
  {
    Receipt(if env.metropolis then None else Some(d.rootOf(WorldAfter(env, o).accounts)), env.metropolis && o.success, gasUsed,
            d.bloomOf(o.world.logs), o.world.logs)
  }

  function ParamsAfter(d: Digests, env: Env, o: T.Outcome, p: Params): Params {
    if o.Rejected? then p
    else
      var r := ReceiptOf(d, env, o, p.gasUsed + o.gasUsed);
      p.(gasUsed := r.gasUsed, receipts := p.receipts + [r], bloom := Or(p.bloom, r.bloom), txindex := p.txindex + 1)
  }

  /** The state is in step with its account trie and its journal. */
  ghost predicate InStep(state: State)
    reads state, state.Accounts()
  {
    state.Valid() && Tracked(state.View(), state.trie) && Rooted(state.View(), state.journal, state.trie)
  }

  /** The whole transaction. The error is the exception raised; the pure description gives the outcome and the world after
      it, which before Metropolis is committed. Without a commit the journal leads back. */
  method ApplyTransaction(state: State, d: Digests, env: Env, tx: T.Tx)
    returns (error: Option<T.Error>, success: bool, output: Bytes)
    requires SoundEnv(env) && InStep(state)
    modifies state, state.Accounts()
    ensures InStep(state) && fresh(state.Accounts() - old(state.Accounts()))
    ensures var o := T.ApplyTransaction(env, tx, old(state.View()), BlockOf(old(state.params)));
            && state.View() == WorldAfter(env, o) && state.params == ParamsAfter(d, env, o, old(state.params))
            && match o
               case Rejected(e, _) => error == Some(e)
               case Applied(s, _, _, _, out, _) => error == None && success == s && output == out
    ensures env.metropolis || error.Some? ==>
              state.trie == old(state.trie) && Leads(old(state.View()), old(state.journal), state.View(), state.journal)
    ensures error.None? ==> state.journal != []
    ensures Conserves(old(state.View()), state.View(), NoneDestroyed(T.ApplyTransaction(env, tx, old(state.View()), BlockOf(old(state.params)))))
  {
    hide State.View, CachedAccount.View, SoundEnv, T.ApplyTransaction, Leads, Tracked, Rooted, CommitWorld, Conserves;
    ghost var w, j, t, p := state.View(), state.journal, state.trie, state.params;
    ghost var o := T.ApplyTransaction(env, tx, w, BlockOf(p));
    var gasUsed;
    error, success, gasUsed, output := Body(state, env, tx, BlockOf(state.params));
    TransactionEvolves(env, tx, w, BlockOf(p));
    TrackedOn(w, o.world, t);
    TrackedSane(o.world, t);
    TransactionConserves(env, tx, w, BlockOf(p));
    RootedOn(w, j, state.View(), state.journal, t);
    if error.Some? {
      return;
    }
    ghost var w1, j1 := state.View(), state.journal;
    state.AssignParams(state.params.(gasUsed := state.params.gasUsed + gasUsed));
    if !env.metropolis {
      CommitInStep(state, env);
      CommittedLedger(state);
    }
    CommitLogs(env, o.world);
    MakeReceipt(state, d, env, success);
    if env.metropolis {
      LeadsTransitive(w, j, w1, j1, state.View(), state.journal);
    }
  }

  lemma CommittedLedger(state: State)
    requires InStep(state) && state.journal == []
    ensures Ledger(state.trie) == state.View().accounts
  {
    hide State.View, CachedAccount.View, Rooted, Tracked, TrieAcct;
    state.ViewRepresents();
    RootedClean(state.View(), state.trie);
    LedgerIs(state.View(), state.trie);
  }

  lemma CommitLogs(env: Env, w: World)
    ensures var c := CommitWorld(env, w); c.logs == w.logs && c.suicides == w.suicides && c.refunds == w.refunds
  {
  }

  /** The transaction up to the point where it may be committed. */
  method Body(state: State, env: Env, tx: T.Tx, block: T.Block)
    returns (error: Option<T.Error>, success: bool, gasUsed: int, output: Bytes)
    requires SoundEnv(env) && state.Valid()
    modifies state, state.Accounts()
    ensures state.Valid() && state.Extends() && Leads(old(state.View()), old(state.journal), state.View(), state.journal)
    ensures var o := T.ApplyTransaction(env, tx, old(state.View()), block);
            && state.View() == o.world
            && match o
               case Rejected(e, _) => error == Some(e)
               case Applied(s, _, used, _, out, _) => error == None && success == s && gasUsed == used && output == out
  {
    hide State.View, CachedAccount.View, SoundEnv, T.ValidateTransaction, T.FinishTx, T.RunTx, T.BuyGas, Leads;
    error, success, gasUsed, output := None, false, 0, [];
    ghost var w0, j := state.View(), state.journal;
    AssignLog(state, [], [], 0);
    ghost var w := state.View();
    LeadsNothing(w0, w, j);
    error := Validate(state, env, tx, block);
    if error.Some? {
      return;
    }
    if env.homestead && tx.s * 2 >= T.SECPK1N {
      error := Some(T.AssertionError);
      return;
    }
    if tx.startgas < T.UpfrontGas(env, tx) {
      error := Some(T.InsufficientStartGas);
      return;
    }
    var gas, data;
    success, gas, data := Run(state, env, tx);
    ghost var w1, j1 := state.View(), state.journal;
    LeadsTransitive(w0, j, w, j, w1, j1);
    ghost var r := T.RunTx(env, tx, T.BuyGas(tx, w));
    if gas < 0 {
      Overdrawn(env, tx, r);
      error := Some(T.AssertionError);
      return;
    }
    gasUsed := Finish(state, env, tx, success, gas, data, r.overdrawn);
    LeadsTransitive(w0, j, w1, j1, state.View(), state.journal);
    OutputOf(env, tx, r);
    output := if success then data else [];
  }

  /** Makes the receipt and clears the log. */
  method MakeReceipt(state: State, d: Digests, env: Env, success: bool)
    requires InStep(state)
    modifies state`journal, state`params, state`logs, state`suicides, state`refunds
    ensures InStep(state) && state.trie == old(state.trie) && state.cache == old(state.cache)
    ensures state.View() == old(state.View()).(logs := [])
    ensures Leads(old(state.View()), old(state.journal), state.View(), state.journal) && state.journal != []
    ensures var p, logs := old(state.params), old(state.View()).logs;
            var r := Receipt(if env.metropolis then None else Some(d.rootOf(Ledger(state.trie))), env.metropolis && success, p.gasUsed,
                             d.bloomOf(logs), logs);
            state.params == p.(receipts := p.receipts + [r], bloom := Or(p.bloom, r.bloom), txindex := p.txindex + 1)
  {
    hide State.View, CachedAccount.View, Tracked, Rooted, Leads;
    ghost var w, j, t := state.View(), state.journal, state.trie;
    state.ViewRepresents();
    var r := Receipt(if env.metropolis then None else Some(d.rootOf(Ledger(state.trie))), env.metropolis && success, state.params.gasUsed,
                     d.bloomOf(state.logs), state.logs);
    AssignLog(state, state.suicides, [], state.refunds);
    ghost var w1 := state.View();
    LeadsNothing(w, w1, j);
    state.AddReceipt(r);
    ghost var j1 := state.journal;
    LeadsAside(w1, j, PopReceipt);
    LeadsTransitive(w, j, w1, j, w1, j1);
    state.SetBloomParam(Or(state.params.bloom, r.bloom));
    ghost var j2 := state.journal;
    LeadsAside(w1, j1, j2[|j1|]);
    LeadsTransitive(w, j, w1, j1, w1, j2);
    state.SetTxindexParam(state.params.txindex + 1);
    LeadsAside(w1, j2, state.journal[|j2|]);
    LeadsTransitive(w, j, w1, j2, w1, state.journal);
    SameAccountsEvolve(w, w1);
    TrackedOn(w, w1, t);
    RootedOn(w, j, w1, state.journal, t);
  }

  lemma Overdrawn(env: Env, tx: T.Tx, r: T.Ran)
    requires r.gas < 0
    ensures T.FinishTx(env, tx, r) == T.Rejected(T.AssertionError, r.world)
  {
  }

  lemma OutputOf(env: Env, tx: T.Tx, r: T.Ran)
    ensures var o := T.FinishTx(env, tx, r); o.Applied? ==> o.success == r.success && o.output == if r.success then r.data else []
  {
  }

  /** A commit keeps the state in step, and forgets the journal. */
  method CommitInStep(state: State, env: Env)
    requires InStep(state)
    modifies state, state.Accounts()
    ensures InStep(state) && state.journal == [] && state.params == old(state.params) && state.Accounts() == {}
    ensures state.View() == CommitWorld(env, old(state.View()))
  {
    hide State.View, CachedAccount.View, Tracked, Rooted, CommitWorld, Committed;
    ghost var w, t := state.View(), state.trie;
    state.ViewRepresents();
    state.Commit(env, false);
    state.ViewRepresents();
    CommitIs(env, w, t, state.View());
    FreshState(state);
  }

  /** A state that holds nothing in its cache is in step. */
  lemma FreshState(state: State)
    requires state.Valid() && state.cache == map[] && state.journal == []
    ensures InStep(state)
  {
    state.ViewRepresents();
    forall a: Address ensures Acct(state.View(), a) == TrieAcct(state.trie, a) { state.TrieView(a); }
    hide State.View;
    TrackedTrie(state.View(), state.trie);
  }

  // ---- ether ----

  /** No ether appears and no balance turns negative; without self-destructs none disappears. */
  ghost predicate Conserves(w: World, w': World, whole: bool) {
    NonNegative(w) ==>
      && NonNegative(w') && Total(w'.accounts) <= Total(w.accounts)
      && (whole ==> Total(w'.accounts) == Total(w.accounts))
  }

  /** Whether an applied transaction left no account to be cleared. */
  predicate NoneDestroyed(o: T.Outcome) {
    o.Applied? && o.ran.suicides == []
  }

  lemma RejectedConserves(env: Env, tx: T.Tx, world: World, b: T.Block)
    requires SoundEnv(env) && T.ApplyTransaction(env, tx, world, b).Rejected?
    ensures Conserves(world, T.ApplyTransaction(env, tx, world, b).world, false)
  {
    hide T.RunTx, T.BuyGas, T.ValidateTransaction, Total;
    var w := world.(logs := [], suicides := [], refunds := 0);
    if T.ValidateTransaction(env, tx, w, b).None? && T.UpfrontGas(env, tx) <= tx.startgas && NonNegative(world) {
      var cost := tx.startgas * tx.gasprice;
      T.Affordable(env, tx, w, b);
      T.RanTotal(env, tx, w, cost);
    }
  }

  /** The sum of all balances over a transaction, with the commit before Metropolis. */
  lemma TransactionConserves(env: Env, tx: T.Tx, world: World, b: T.Block)
    requires SoundEnv(env) && Sane(T.ApplyTransaction(env, tx, world, b).world)
    ensures var o := T.ApplyTransaction(env, tx, world, b);
            Conserves(world, WorldAfter(env, o), NoneDestroyed(o))
  {
    hide T.ApplyTransaction, Total, CommitWorld, Sane;
    var o := T.ApplyTransaction(env, tx, world, b);
    if o.Rejected? {
      RejectedConserves(env, tx, world, b);
    } else if NonNegative(world) {
      T.EtherConservation(env, tx, world, b);
      CommitTotal(env, o.world);
    }
  }

  // ---- a run that loses a slot ----

  /** PUSH1 1, PUSH1 0, SSTORE. */
  function StoreCode(): Bytes { [0x60, 0x01, 0x60, 0x00, 0x55] }

  lemma SstoreStep(env: Env, msg: Message, m: Machine, w: World)
    requires m.pc == 4 && m.stack == [1, 0] && m.gas >= 20000 && !msg.isStatic && GetStorage(w, msg.to, 0) == 0
    ensures Step(env, msg, StoreCode(), m, w)
         == Next(m.(pc := 5, gas := m.gas - 20000, stack := []), SetStorage(AddRefund(w, 0), msg.to, 0, 1))
  {
    hide SetStorage, GetStorage;
    assert M.Popped(m.stack, 2) == [];
  }

  lemma StoresOne(env: Env, msg: Message, w: World)
    requires SoundEnv(env) && msg.gas >= 20006 && !msg.isStatic && GetStorage(w, msg.to, 0) == 0
    ensures var r := Execute(env, msg, StoreCode(), Start(msg.gas), w, false);
            r.success && r.data == [] && r.world == SetStorage(AddRefund(w, 0), msg.to, 0, 1)
  {
    hide Execute, Step, SetStorage, SoundEnv;
    var code := StoreCode();
    var m0 := Start(msg.gas);
    PushOne(env, msg, code, m0, w, false);
    var m1 := m0.(pc := 2, gas := m0.gas - 3, stack := [1]);
    assert m0.stack + [code[1]] == m1.stack;
    PushOne(env, msg, code, m1, w, false);
    var m2 := m1.(pc := 4, gas := m1.gas - 3, stack := [1, 0]);
    assert m1.stack + [code[3]] == m2.stack;
    SstoreStep(env, msg, m2, w);
    LastStep(env, msg, code, m2, m2.(pc := 5, gas := m2.gas - 20000, stack := []), w, SetStorage(AddRefund(w, 0), msg.to, 0, 1));
  }

  lemma LastStep(env: Env, msg: Message, code: Bytes, m: Machine, m': Machine, w: World, w': World)
    requires SoundEnv(env) && m.pc < |code| && Step(env, msg, code, m, w) == Next(m', w') && m'.pc >= |code| && !IsLog(code[m.pc])
    ensures Execute(env, msg, code, m, w, false) == Result(true, m'.gas, [], w', false)
  {
    hide Step, SoundEnv;
    assert Execute(env, msg, code, m', w', false) == Result(true, m'.gas, [], w', false);
  }

  /** A creation whose constructor stores a slot and returns no code. */
  function Constructor(creator: Address): Message {
    Message(creator, 0, 0, 30000, CallData(StoreCode(), 0, 5), 0, None, true, false)
  }

  lemma Constructed(env: Env, creator: Address, a: Address, w: World)
    requires SoundEnv(env) && !env.spuriousDragon && !env.metropolis && env.txOrigin == creator && GetBalance(w, creator) >= 0
    requires creator != NULL_ADDRESS && a == env.contractAddress(creator, GetNonce(w, creator) - 1)
    requires a != creator && Acct(w, a) == BLANK_ACCOUNT
    ensures var r := CreateContract(env, Constructor(creator), w);
            && r.success && r.addr == a
            && Acct(r.world, a) == Account(0, 0, [], map[0 := 1], true, false, false)
            && GetBalance(r.world, creator) == GetBalance(w, creator)
  {
    hide Execute, SoundEnv, ApplyMsg, StoreCode;
    var msg := Constructor(creator).(to := a, data := CallData([], 0, 0));
    var w3 := SetNonce(w, a, 0);
    assert ExtractAll(Constructor(creator).data) == StoreCode() by { assert |[0x60, 0x01, 0x60, 0x00, 0x55]| == 5; StoreCodeIs(); }
    ConstructorRuns(env, msg, w3);
    assert map[][(0 as Word) := (1 as Word)] == map[(0 as Word) := (1 as Word)];
  }

  lemma StoreCodeIs()
    ensures StoreCode() == [0x60, 0x01, 0x60, 0x00, 0x55] && |StoreCode()| == 5 && StoreCode()[0..5] == StoreCode()
  {
  }

  lemma ConstructorRuns(env: Env, msg: Message, w: World)
    requires SoundEnv(env) && msg.transfersValue && msg.value == 0 && msg.gas >= 20006 && !msg.isStatic && msg.codeAddress == None
    requires GetBalance(w, msg.sender) >= 0 && GetStorage(w, msg.to, 0) == 0
    ensures var r := ApplyMsg(env, msg, StoreCode(), w);
            && r.success && r.data == []
            && r.world == SetStorage(AddRefund(DeltaBalance(DeltaBalance(w, msg.sender, 0), msg.to, 0), 0), msg.to, 0, 1)
  {
    hide Execute, SoundEnv, SetStorage, StoreCode;
    var w1 := DeltaBalance(DeltaBalance(w, msg.sender, 0), msg.to, 0);
    assert GetStorage(w1, msg.to, 0) == 0;
    StoresOne(env, msg, w1);
  }

  /** A message call keeps the state in step. */
  method CallInStep(state: State, env: Env, msg: Message, code: Bytes) returns (success: bool, gas: int, data: Bytes)
    requires SoundEnv(env) && InStep(state) && Covered(msg.data) && msg.gas >= 0
    modifies state, state.Accounts()
    ensures InStep(state) && state.trie == old(state.trie) && fresh(state.Accounts() - old(state.Accounts()))
    ensures var r := Evm.ApplyMsg(env, msg, code, old(state.View()));
            success == r.success && gas == r.gas && data == r.data && state.View() == r.world
  {
    hide State.View, CachedAccount.View, SoundEnv, Evm.ApplyMsg, Undoes, Leads, Tracked, Rooted;
    ghost var w, j, t := state.View(), state.journal, state.trie;
    success, gas, data := VmRun.ApplyMsg(state, env, msg, code);
    ApplyEvolves(env, msg, code, w);
    TrackedOn(w, state.View(), t);
    UndoesLeads(w, j, state.View(), state.journal);
    RootedOn(w, j, state.View(), state.journal, t);
  }

  /** So does a creation. */
  method CreateInStep(state: State, env: Env, msg: Message)
    returns (success: bool, gas: int, addr: Address, data: Bytes)
    requires SoundEnv(env) && InStep(state) && Covered(msg.data) && msg.gas >= 0
    modifies state, state.Accounts()
    ensures InStep(state) && state.trie == old(state.trie) && fresh(state.Accounts() - old(state.Accounts()))
    ensures var r := Evm.CreateContract(env, msg, old(state.View()));
            success == r.success && gas == r.gas && addr == r.addr && data == r.data && state.View() == r.world
  {
    hide State.View, CachedAccount.View, SoundEnv, Evm.CreateContract, Undoes, Leads, Tracked, Rooted;
    ghost var w, j, t := state.View(), state.journal, state.trie;
    success, gas, addr, data := VmRun.CreateContract(state, env, msg);
    CreateEvolves(env, msg, w);
    TrackedOn(w, state.View(), t);
    UndoesLeads(w, j, state.View(), state.journal);
    RootedOn(w, j, state.View(), state.journal, t);
  }

  /** A contract that was created before Spurious Dragon holds a slot; a call without value after it loses the slot. */
  method SlotLost(state: State, before: Env, after: Env, creator: Address) returns (a: Address, ghost kept: World)
    requires InStep(state) && SoundEnv(before) && SoundEnv(after)
    requires !before.spuriousDragon && !before.metropolis && after.spuriousDragon
    requires before.txOrigin == creator != NULL_ADDRESS && GetBalance(state.View(), creator) >= 0
    requires var a := before.contractAddress(creator, GetNonce(state.View(), creator) - 1);
             a != creator && Acct(state.View(), a) == BLANK_ACCOUNT && !after.isSpecial(a)
    modifies state, state.Accounts()
    ensures InStep(state)
    ensures GetStorage(kept, a, 0) == 1 && GetStorage(state.View(), a, 0) == 0
  {
    hide State.View, CachedAccount.View, SoundEnv, Evm.CreateContract, Evm.ApplyMsg, CommitWorld, Tracked, Rooted,
      Sane, Acct;
    ghost var w0 := state.View();
    var ok, gas, addr, data := CreateInStep(state, before, Constructor(creator));
    a := addr;
    Constructed(before, creator, before.contractAddress(creator, GetNonce(w0, creator) - 1), w0);
    ghost var w1 := state.View();
    TrackedSane(w1, state.trie);
    CommitInStep(state, before);
    kept := state.View();
    CommitKeeps(before, w1, a);
    CommitKeeps(before, w1, creator);
    var call := Message(creator, a, 0, 0, CallData([], 0, 0), 0, Some(a), true, false);
    CalledPlain(after, call, kept);
    ok, gas, data := CallInStep(state, after, call, []);
    ghost var w2 := state.View();
    TrackedSane(w2, state.trie);
    CommitInStep(state, after);
    CommitKeeps(after, w2, a);
  }

  /** A call of an account without code, with no value, only touches. */
  lemma CalledPlain(env: Env, msg: Message, w: World)
    requires SoundEnv(env) && msg.transfersValue && msg.value == 0 && msg.codeAddress == Some(msg.to) && !env.isSpecial(msg.to)
    requires GetBalance(w, msg.sender) >= 0 && msg.sender != msg.to
    ensures var r := ApplyMsg(env, msg, [], w);
            r.success && Acct(r.world, msg.to) == Acct(w, msg.to).(touched := true)
  {
    hide SoundEnv;
    var w1 := DeltaBalance(DeltaBalance(w, msg.sender, 0), msg.to, 0);
    assert TransferValue(w, msg.sender, msg.to, 0) == Some(w1);
    assert Execute(env, msg, [], Start(msg.gas), w1, false) == Result(true, msg.gas, [], w1, false);
  }
}
