/** What the flags of an account say about it, across message calls and transactions, and what a commit then keeps. */
module Tracking {
  import opened ByteStrings
  import opened Words
  import opened Opcodes
  import opened World
  import opened Machine
  import opened Evm
  import opened EvmSafety
  import opened StateJournal
  import T = Transactions

  // ---- how accounts change between commits ----

  predicate Wiped(x: Account) {
    x.balance == 0 && x.nonce == 0 && x.code == [] && x.storage == map[]
  }

  /** An account that changes is touched, or wiped and marked as deleted. */
  predicate Becomes(x: Account, y: Account) {
    y.existentAtStart == x.existentAtStart && (y == x || y.touched || (y.deleted && Wiped(y)))
  }

  ghost predicate Evolves(w: World, w': World) {
    forall a: Address :: Becomes(Acct(w, a), Acct(w', a))
  }

  lemma EvolvesReflexive(w: World)
    ensures Evolves(w, w)
  {
  }

  lemma EvolvesTransitive(a: World, b: World, c: World)
    requires Evolves(a, b) && Evolves(b, c)
    ensures Evolves(a, c)
  {
    forall x: Address ensures Becomes(Acct(a, x), Acct(c, x)) {
      assert Becomes(Acct(a, x), Acct(b, x)) && Becomes(Acct(b, x), Acct(c, x));
    }
  }

  lemma SameAccountsEvolve(w: World, w': World)
    requires w'.accounts == w.accounts
    ensures Evolves(w, w')
  {
  }

  lemma PutEvolves(w: World, a: Address, acct: Account)
    requires acct.existentAtStart == Acct(w, a).existentAtStart
    ensures Evolves(w, Put(w, a, acct))
  {
  }

  lemma DelAccountEvolves(w: World, a: Address)
    ensures Evolves(w, DelAccount(w, a))
  {
  }

  lemma SetBalanceEvolves(w: World, a: Address, v: int)
    ensures Evolves(w, SetBalance(w, a, v))
  {
    PutEvolves(w, a, Acct(w, a).(balance := v));
  }

  lemma SetNonceEvolves(w: World, a: Address, v: int)
    ensures Evolves(w, SetNonce(w, a, v))
  {
    PutEvolves(w, a, Acct(w, a).(nonce := v));
  }

  lemma SetCodeEvolves(w: World, a: Address, code: Bytes)
    ensures Evolves(w, SetCode(w, a, code))
  {
    PutEvolves(w, a, Acct(w, a).(code := code));
  }

  lemma TransferEvolves(w: World, from: Address, to: Address, value: int)
    ensures var t := TransferValue(w, from, to, value); t.Some? ==> Evolves(w, t.value)
  {
    hide Evolves, SetBalance;
    var w1 := DeltaBalance(w, from, -value);
    SetBalanceEvolves(w, from, GetBalance(w, from) - value);
    SetBalanceEvolves(w1, to, GetBalance(w1, to) + value);
    EvolvesTransitive(w, w1, DeltaBalance(w1, to, value));
  }

  // ---- frames ----

  lemma ExecEvolves(env: Env, msg: Message, code: Bytes, m: Machine, w: World, op: Byte)
    requires m.gas >= 0
    requires Info(op).Some? && |m.stack| >= Info(op).value.ins && 0 < m.pc <= |code| && code[m.pc - 1] == op
    ensures var e := Exec(env, msg, code, m, w, op);
            (e.Next? || e.Halt?) ==> Evolves(w, e.world)
  {
    hide Evolves, Acct;
    EvolvesReflexive(w);
    ExecWorld(env, msg, code, m, w, op);
    var e := Exec(env, msg, code, m, w, op);
    if op == SSTORE {
      SstoreWorld(msg, m, w);
      if e.Next? {
        var refund: int, k: Word, v: Word :| e.world == SetStorage(AddRefund(w, refund), msg.to, k, v);
        StorageEvolves(w, refund, msg.to, k, v);
      }
    } else if IsLog(op) {
      LogWorld(msg, m, w, op - 0xa0);
      if e.Next? { SameAccountsEvolve(w, e.world); }
    } else if op == SUICIDE {
      SuicideEvolves(env, msg, m, w);
    }
  }

  lemma StorageEvolves(w: World, refund: int, a: Address, k: Word, v: Word)
    ensures Evolves(w, SetStorage(AddRefund(w, refund), a, k, v))
  {
    hide Evolves;
    var w1 := AddRefund(w, refund);
    SameAccountsEvolve(w, w1);
    PutEvolves(w1, a, Acct(w1, a).(storage := WithSlot(Acct(w1, a).storage, k, v)));
    EvolvesTransitive(w, w1, SetStorage(w1, a, k, v));
  }

  lemma SuicideEvolves(env: Env, msg: Message, m: Machine, w: World)
    requires |m.stack| >= 1
    ensures var e := ExecSuicide(env, msg, m, w); e.Halt? ==> Evolves(w, e.world)
  {
    hide AccountExists, Supplement, Evolves, SetBalance;
    var to: Address := Arg(m.stack, 0) % TT160;
    var w1 := SetBalance(w, to, GetBalance(w, to) + GetBalance(w, msg.to));
    var w2 := SetBalance(w1, msg.to, 0);
    SetBalanceEvolves(w, to, GetBalance(w, to) + GetBalance(w, msg.to));
    SetBalanceEvolves(w1, msg.to, 0);
    EvolvesTransitive(w, w1, w2);
    SameAccountsEvolve(w2, AddSuicide(w2, msg.to));
    EvolvesTransitive(w, w2, AddSuicide(w2, msg.to));
  }

  lemma {:induction false} ExecuteEvolves(env: Env, msg: Message, code: Bytes, m: Machine, w: World, afterLog: bool)
    requires SoundEnv(env)
    ensures Evolves(w, Execute(env, msg, code, m, w, afterLog).world)
    decreases DepthLeft(msg.depth), 0, GasRank(m.gas)
  {
    hide Exec, Info, CalledCode, SoundEnv, Evolves;
    EvolvesReflexive(w);
    if m.pc < |code| {
      StepGas(env, msg, code, m, w);
      var e := Step(env, msg, code, m, w);
      if !e.Fail? {
        StepIsExec(env, msg, code, m, w);
        ExecEvolves(env, msg, code, m.(gas := m.gas - Info(code[m.pc]).value.fee, pc := m.pc + 1), w, code[m.pc]);
      }
      match e
      case Fail =>
      case Halt(_, _, _, _) =>
      case Next(m', w') =>
        ExecuteEvolves(env, msg, code, m', w', IsLog(code[m.pc]));
        EvolvesTransitive(w, w', Execute(env, msg, code, m', w', IsLog(code[m.pc])).world);
      case Invoke(m', call, outStart, outSize) =>
        ApplyEvolves(env, call, CalledCode(w, call), w);
        var sub := ApplyMsg(env, call, CalledCode(w, call), w);
        var m'' := AfterCall(m', sub.success, sub.gas, sub.data, outStart, outSize);
        ExecuteEvolves(env, msg, code, m'', sub.world, false);
        EvolvesTransitive(w, sub.world, Execute(env, msg, code, m'', sub.world, false).world);
      case Create(m', call) =>
        CreateEvolves(env, call, w);
        var sub := CreateContract(env, call, w);
        var m'' := AfterCreate(m', call.gas, sub.success, sub.gas, sub.addr, sub.data);
        ExecuteEvolves(env, msg, code, m'', sub.world, false);
        EvolvesTransitive(w, sub.world, Execute(env, msg, code, m'', sub.world, false).world);
    }
  }

  /** Whatever a message call does, every account it changes is touched afterwards. */
  lemma {:induction false} ApplyEvolves(env: Env, msg: Message, code: Bytes, w: World)
    requires SoundEnv(env)
    ensures Evolves(w, ApplyMsg(env, msg, code, w).world)
    decreases DepthLeft(msg.depth), 1, 0
  {
    hide Execute, TransferValue, Acct, Evolves;
    EvolvesReflexive(w);
    var t := if msg.transfersValue then TransferValue(w, msg.sender, msg.to, msg.value) else Some(w);
    if t.Some? {
      if msg.transfersValue { TransferEvolves(w, msg.sender, msg.to, msg.value); }
      ExecuteEvolves(env, msg, code, Start(msg.gas), t.value, false);
      EvolvesTransitive(w, t.value, Execute(env, msg, code, Start(msg.gas), t.value, false).world);
    }
  }

  lemma SetupEvolves(env: Env, msg: Message, w: World)
    ensures Evolves(w, CreateSetup(env, msg, w).0)
  {
    hide Evolves, SetNonce;
    EvolvesReflexive(w);
    SetNonceEvolves(w, msg.sender, GetNonce(w, msg.sender) + 1);
  }

  lemma ClearEvolves(w: World, a: Address)
    ensures Evolves(w, ClearTarget(w, a))
  {
    hide Evolves, SetBalance, SetNonce, SetCode;
    var w1 := SetBalance(w, a, GetBalance(w, a));
    var w2 := SetNonce(w1, a, 0);
    SetBalanceEvolves(w, a, GetBalance(w, a));
    SetNonceEvolves(w1, a, 0);
    SetCodeEvolves(w2, a, []);
    EvolvesReflexive(w);
    EvolvesTransitive(w, w1, w2);
    EvolvesTransitive(w, w2, SetCode(w2, a, []));
  }

  lemma {:induction false} CreateEvolves(env: Env, msg: Message, w: World)
    requires SoundEnv(env)
    ensures Evolves(w, CreateContract(env, msg, w).world)
    decreases DepthLeft(msg.depth), 2, 0
  {
    hide Evolves, ApplyMsg, Acct, SetNonce, ClearTarget, CreateSetup, Occupied, ExtractAll, FinishCreate;
    var (w1, to) := CreateSetup(env, msg, w);
    SetupEvolves(env, msg, w);
    if !Occupied(env, w1, to) {
      ClearEvolves(w1, to);
      var w2 := ClearTarget(w1, to);
      EvolvesTransitive(w, w1, w2);
      var w3 := SetNonce(w2, to, if env.spuriousDragon then 1 else 0);
      SetNonceEvolves(w2, to, if env.spuriousDragon then 1 else 0);
      EvolvesTransitive(w, w2, w3);
      var msg' := msg.(to := to, data := CallData([], 0, 0));
      ApplyEvolves(env, msg', ExtractAll(msg.data), w3);
      var r := ApplyMsg(env, msg', ExtractAll(msg.data), w3);
      EvolvesTransitive(w, w3, r.world);
      FinishEvolves(env, to, r, w2, w);
    }
  }

  lemma FinishEvolves(env: Env, to: Address, r: Result, w2: World, w: World)
    requires Evolves(w, w2) && Evolves(w, r.world)
    ensures Evolves(w, FinishCreate(env, to, r, w2).world)
  {
    hide Evolves, SetCode;
    SetCodeEvolves(r.world, to, r.data);
    EvolvesTransitive(w, r.world, SetCode(r.world, to, r.data));
    SetCodeEvolves(r.world, to, []);
    EvolvesTransitive(w, r.world, SetCode(r.world, to, []));
  }

  // ---- transactions ----

  lemma BuyGasEvolves(tx: T.Tx, w: World)
    ensures Evolves(w, T.BuyGas(tx, w))
  {
    hide Evolves, SetNonce, SetBalance;
    var w1 := if tx.sender != NULL_ADDRESS then IncrementNonce(w, tx.sender) else w;
    EvolvesReflexive(w);
    SetNonceEvolves(w, tx.sender, GetNonce(w, tx.sender) + 1);
    SetBalanceEvolves(w1, tx.sender, GetBalance(w1, tx.sender) - tx.startgas * tx.gasprice);
    EvolvesTransitive(w, w1, T.BuyGas(tx, w));
  }

  lemma RunTxEvolves(env: Env, tx: T.Tx, w: World)
    requires SoundEnv(env) && T.UpfrontGas(env, tx) <= tx.startgas
    ensures Evolves(w, T.RunTx(env, tx, w).world)
  {
    hide ApplyMsg, CreateContract, Evolves, GetCode;
    var data := CallData(tx.data, 0, |tx.data|);
    var gas := tx.startgas - T.UpfrontGas(env, tx);
    match tx.to
    case Some(to) =>
      ApplyEvolves(env, Message(tx.sender, to, tx.value, gas, data, 0, Some(to), true, false), GetCode(w, to), w);
    case None =>
      CreateEvolves(env, Message(tx.sender, 0, tx.value, gas, data, 0, None, true, false), w);
  }

  lemma SettleEvolves(env: Env, tx: T.Tx, w: World, gasRemained: int, gasUsed: int)
    ensures Evolves(w, T.Settle(env, tx, w, gasRemained, gasUsed))
  {
    hide Evolves, SetBalance;
    var w1 := DeltaBalance(w, tx.sender, tx.gasprice * gasRemained);
    SetBalanceEvolves(w, tx.sender, GetBalance(w, tx.sender) + tx.gasprice * gasRemained);
    SetBalanceEvolves(w1, env.coinbase, GetBalance(w1, env.coinbase) + tx.gasprice * gasUsed);
    EvolvesTransitive(w, w1, T.Settle(env, tx, w, gasRemained, gasUsed));
  }

  lemma {:induction false} ClearSuicidesEvolves(w: World, suicides: seq<Address>)
    ensures Evolves(w, T.ClearSuicides(w, suicides))
  {
    hide Evolves, SetBalance, DelAccount;
    EvolvesReflexive(w);
    if suicides != [] {
      var rest, a := T.ClearSuicides(w, suicides[..|suicides| - 1]), suicides[|suicides| - 1];
      ClearSuicidesEvolves(w, suicides[..|suicides| - 1]);
      SetBalanceEvolves(rest, a, 0);
      DelAccountEvolves(SetBalance(rest, a, 0), a);
      EvolvesTransitive(w, rest, SetBalance(rest, a, 0));
      EvolvesTransitive(w, SetBalance(rest, a, 0), DelAccount(SetBalance(rest, a, 0), a));
    }
  }

  lemma FinishTxEvolves(env: Env, tx: T.Tx, r: T.Ran)
    ensures Evolves(r.world, T.FinishTx(env, tx, r).world)
  {
    hide Evolves, T.Settle, T.ClearSuicides;
    EvolvesReflexive(r.world);
    var o := T.FinishTx(env, tx, r);
    if o.Applied? {
      var settled := T.Settle(env, tx, r.world, o.gasRemained, o.gasUsed);
      var cleared := T.ClearSuicides(settled, r.world.suicides);
      SettleEvolves(env, tx, r.world, o.gasRemained, o.gasUsed);
      ClearSuicidesEvolves(settled, r.world.suicides);
      EvolvesTransitive(r.world, settled, cleared);
      SameAccountsEvolve(cleared, o.world);
      EvolvesTransitive(r.world, cleared, o.world);
    }
  }

  /** The same for a transaction, whether it is applied or thrown out. */
  lemma TransactionEvolves(env: Env, tx: T.Tx, world: World, b: T.Block)
    requires SoundEnv(env)
    ensures Evolves(world, T.ApplyTransaction(env, tx, world, b).world)
  {
    hide Evolves, T.RunTx, T.BuyGas, T.FinishTx, T.ValidateTransaction;
    var w := world.(logs := [], suicides := [], refunds := 0);
    SameAccountsEvolve(world, w);
    if T.ValidateTransaction(env, tx, w, b).None? && T.UpfrontGas(env, tx) <= tx.startgas {
      var bought := T.BuyGas(tx, w);
      var r := T.RunTx(env, tx, bought);
      BuyGasEvolves(tx, w);
      RunTxEvolves(env, tx, bought);
      FinishTxEvolves(env, tx, r);
      EvolvesTransitive(world, w, bought);
      EvolvesTransitive(world, bought, r.world);
      EvolvesTransitive(world, r.world, T.FinishTx(env, tx, r).world);
    }
  }

  // ---- against the account trie ----

  /** An account says truly whether it is in the trie, and it is touched, or wiped, or what the trie holds. */
  ghost predicate TrackedAt(x: Account, trie: map<Address, Record>, a: Address) {
    && (x.existentAtStart <==> a in trie)
    && (x.touched || (x.deleted && Wiped(x)) || x == TrieAcct(trie, a))
  }

  ghost predicate Tracked(w: World, trie: map<Address, Record>) {
    forall a: Address :: TrackedAt(Acct(w, a), trie, a)
  }

  lemma TrackedOn(w: World, w': World, trie: map<Address, Record>)
    requires Tracked(w, trie) && Evolves(w, w')
    ensures Tracked(w', trie)
  {
    forall a: Address ensures TrackedAt(Acct(w', a), trie, a) {
      assert TrackedAt(Acct(w, a), trie, a) && Becomes(Acct(w, a), Acct(w', a));
    }
  }

  lemma TrackedTrie(w: World, trie: map<Address, Record>)
    requires forall a: Address :: Acct(w, a) == TrieAcct(trie, a)
    ensures Tracked(w, trie)
  {
  }

  /** What a commit makes of an account, without looking at the trie. */
  function CommitAcct(env: Env, w: World, a: Address): Account {
    var x := Acct(w, a);
    if !x.touched && !x.deleted then x
    else if AccountExists(env, w, a) then x.(touched := false, deleted := false, existentAtStart := true)
    else BLANK_ACCOUNT
  }

  function CommitWorld(env: Env, w: World): World {
    w.(accounts := map a | a in w.accounts && CommitAcct(env, w, a) != BLANK_ACCOUNT :: CommitAcct(env, w, a))
  }

  lemma CommitWorldAt(env: Env, w: World, a: Address)
    ensures Acct(CommitWorld(env, w), a) == CommitAcct(env, w, a)
  {
  }

  /** On tracked worlds that is all a commit does. */
  lemma CommitIs(env: Env, w: World, trie: map<Address, Record>, w': World)
    requires Tracked(w, trie) && NoBlanks(w')
    requires forall a: Address :: Acct(w', a) == Committed(env, false, w, trie, a)
    requires w'.suicides == w.suicides && w'.logs == w.logs && w'.refunds == w.refunds
    ensures w' == CommitWorld(env, w)
  {
    forall a: Address ensures Acct(w', a) == Acct(CommitWorld(env, w), a) {
      assert TrackedAt(Acct(w, a), trie, a);
      CommitWorldAt(env, w, a);
    }
    hide CommitAcct, Tracked;
    SameLookups(w', CommitWorld(env, w));
  }

  /** Accounts marked as deleted are wiped unless they were touched again. */
  ghost predicate Sane(w: World) {
    forall a: Address :: Acct(w, a).deleted && !Acct(w, a).touched ==> Wiped(Acct(w, a))
  }

  lemma TrackedSane(w: World, trie: map<Address, Record>)
    requires Tracked(w, trie)
    ensures Sane(w)
  {
    forall a: Address ensures Acct(w, a).deleted && !Acct(w, a).touched ==> Wiped(Acct(w, a)) {
      assert TrackedAt(Acct(w, a), trie, a);
    }
  }

  // ---- what a commit keeps ----

  /** From Spurious Dragon on a commit drops the storage of these. */
  predicate Abandoned(env: Env, x: Account) {
    env.spuriousDragon && x.touched && IsBlank(x)
  }

  /** Balance, nonce and code of every account survive a commit in every fork. Storage survives too before Spurious Dragon;
      from then on exactly that of touched accounts without nonce, balance and code is lost, all of it. */
  lemma CommitKeeps(env: Env, w: World, a: Address)
    requires Sane(w)
    ensures var x, y := Acct(w, a), Acct(CommitWorld(env, w), a);
            && y.balance == x.balance && y.nonce == x.nonce && y.code == x.code
            && y.storage == if Abandoned(env, x) then map[] else x.storage
  {
    CommitWorldAt(env, w, a);
    assert Acct(w, a).deleted && !Acct(w, a).touched ==> Wiped(Acct(w, a));
  }

  lemma {:induction false} NothingIn(accounts: map<Address, Account>)
    requires forall a :: a in accounts ==> accounts[a].balance == 0
    ensures Total(accounts) == 0
    decreases |accounts|
  {
    if accounts != map[] {
      var a :| a in accounts;
      TotalRemove(accounts, a);
      NothingIn(accounts - {a});
    }
  }

  /** The sum depends on the balances only. */
  lemma {:induction false} SameTotal(x: map<Address, Account>, y: map<Address, Account>)
    requires forall a: Address :: BalanceIn(x, a) == BalanceIn(y, a)
    ensures Total(x) == Total(y)
    decreases |x|
  {
    if x == map[] {
      forall a | a in y ensures y[a].balance == 0 { assert BalanceIn(x, a) == BalanceIn(y, a); }
      NothingIn(y);
    } else {
      var a :| a in x;
      TotalRemove(x, a);
      var rest := y - {a};
      if a in y { TotalRemove(y, a); } else { assert rest == y && BalanceIn(y, a) == 0; }
      forall b: Address ensures BalanceIn(x - {a}, b) == BalanceIn(rest, b) {
        assert BalanceIn(x, b) == BalanceIn(y, b);
      }
      SameTotal(x - {a}, rest);
      assert BalanceIn(x, a) == BalanceIn(y, a);
    }
  }

  /** A commit keeps the sum of all balances, and makes none negative. */
  lemma CommitTotal(env: Env, w: World)
    requires Sane(w)
    ensures Total(CommitWorld(env, w).accounts) == Total(w.accounts)
    ensures NonNegative(w) ==> NonNegative(CommitWorld(env, w))
  {
    var c := CommitWorld(env, w);
    forall a: Address ensures BalanceIn(c.accounts, a) == BalanceIn(w.accounts, a) {
      CommitKeeps(env, w, a);
    }
    hide CommitWorld;
    SameTotal(c.accounts, w.accounts);
    forall a | a in c.accounts && NonNegative(w) ensures c.accounts[a].balance >= 0 {
      assert BalanceIn(c.accounts, a) == BalanceIn(w.accounts, a);
    }
  }

  // ---- the way back ----

  /** Popping what was appended since leads back to the same accounts. */
  ghost predicate Leads(w0: World, j0: seq<Undo>, w: World, j: seq<Undo>) {
    j0 <= j && Unwind(w, j, |j0|).accounts == w0.accounts
  }

  lemma UndoneAccounts(w: World, w': World, u: Undo)
    requires w.accounts == w'.accounts
    ensures Undone(w, u).accounts == Undone(w', u).accounts
  {
  }

  lemma {:induction false} UnwindAccounts(w: World, w': World, j: seq<Undo>, n: nat)
    requires w.accounts == w'.accounts
    ensures Unwind(w, j, n).accounts == Unwind(w', j, n).accounts
    decreases |j|
  {
    hide Undone;
    if |j| > n {
      UndoneAccounts(w, w', j[|j| - 1]);
      UnwindAccounts(Undone(w, j[|j| - 1]), Undone(w', j[|j| - 1]), j[..|j| - 1], n);
    }
  }

  lemma LeadsNothing(w: World, w': World, j: seq<Undo>)
    requires w.accounts == w'.accounts
    ensures Leads(w, j, w', j)
  {
  }

  lemma UndoesLeads(w0: World, j0: seq<Undo>, w: World, j: seq<Undo>)
    requires Undoes(w0, j0, w, j)
    ensures Leads(w0, j0, w, j)
  {
  }

  lemma LeadsTransitive(w0: World, j0: seq<Undo>, w1: World, j1: seq<Undo>, w2: World, j2: seq<Undo>)
    requires Leads(w0, j0, w1, j1) && Leads(w1, j1, w2, j2)
    ensures Leads(w0, j0, w2, j2)
  {
    UnwindVia(w2, j2, |j1|, |j0|);
    assert j2[..|j1|] == j1;
    UnwindAccounts(Unwind(w2, j2, |j1|), w1, j1, |j0|);
  }

  lemma LeadsAside(w: World, j: seq<Undo>, u: Undo)
    requires u.PopReceipt? || u.SetBloom? || u.SetTxindex?
    ensures Leads(w, j, w, j + [u])
  {
    assert (j + [u])[..|j|] == j;
    assert Unwind(w, j + [u], |j|) == Unwind(Undone(w, u), j, |j|);
  }

  /** Popping the whole journal leads to what the account trie holds. */
  ghost predicate Rooted(w: World, j: seq<Undo>, trie: map<Address, Record>) {
    forall a: Address :: Acct(Unwind(w, j, 0), a) == TrieAcct(trie, a)
  }

  lemma RootedOn(w0: World, j0: seq<Undo>, w: World, j: seq<Undo>, trie: map<Address, Record>)
    requires Rooted(w0, j0, trie) && Leads(w0, j0, w, j)
    ensures Rooted(w, j, trie)
  {
    UnwindVia(w, j, |j0|, 0);
    assert j[..|j0|] == j0;
    UnwindAccounts(Unwind(w, j, |j0|), w0, j0, 0);
  }
}
