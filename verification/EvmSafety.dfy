/** Whole-run properties of frames: gas, static calls, and the sum of all balances. */
module EvmSafety {
  import opened ByteStrings
  import opened BigEndian
  import opened Words
  import opened Opcodes
  import opened World
  import opened Machine
  import opened Evm

  // ---- which instructions touch the world ----

  /** Only storage writes and logs change the world of a frame that goes on; only SUICIDE that of one that ends. */
  lemma ExecWorld(env: Env, msg: Message, code: Bytes, m: Machine, w: World, op: Byte)
    requires m.gas >= 0
    requires Info(op).Some? && |m.stack| >= Info(op).value.ins && 0 < m.pc <= |code| && code[m.pc - 1] == op
    ensures var e := Exec(env, msg, code, m, w, op);
            && (e.Next? && op != SSTORE && !IsLog(op) ==> e.world == w)
            && (e.Halt? && op != SUICIDE ==> e.world == w)
            && (e.Create? ==> op == CREATE)
            && (e.Invoke? ==> op == CALL || op == CALLCODE || op == DELEGATECALL || op == STATICCALL)
  {
    hide Info, Arithmetic, Comparison, Environment, MemExtend, CopyTo, CopyFee, AccountExists, EncodedBytes,
      PushValue, Swap, Arg;
  }

  lemma SstoreWorld(msg: Message, m: Machine, w: World)
    requires |m.stack| >= 2
    ensures var e := ExecSstore(msg, m, w);
            e.Fail? || (e.Next? && exists refund: int, k: Word, v: Word :: e.world == SetStorage(AddRefund(w, refund), msg.to, k, v))
  {
  }

  lemma LogWorld(msg: Message, m: Machine, w: World, depth: nat)
    requires |m.stack| >= depth + 2
    ensures var e := ExecLog(msg, m, w, depth);
            e.Fail? || (e.Next? && exists log: Log :: e.world == AddLog(w, log))
  {
  }

  // ---- gas ----

  /** A frame that fails never returns negative gas. A frame that succeeds returns negative gas only when
      some frame ran off the end of its code behind a LOG, or when it was already overdrawn on entry. */
  lemma {:induction false} ExecuteOverdrawn(env: Env, msg: Message, code: Bytes, m: Machine, w: World, afterLog: bool)
    requires SoundEnv(env)
    ensures var r := Execute(env, msg, code, m, w, afterLog);
            && (r.gas < 0 ==> r.success && (r.overdrawn || (m.gas < 0 && !afterLog)))
    decreases DepthLeft(msg.depth), 0, GasRank(m.gas)
  {
    hide Step, Exec, Info, CalledCode, SoundEnv;
    if m.pc < |code| {
      StepGas(env, msg, code, m, w);
      match Step(env, msg, code, m, w)
      case Fail =>
      case Halt(_, _, _, _) =>
      case Next(m', w') => ExecuteOverdrawn(env, msg, code, m', w', IsLog(code[m.pc]));
      case Invoke(m', call, outStart, outSize) =>
        ApplyOverdrawn(env, call, CalledCode(w, call), w);
        var sub := ApplyMsg(env, call, CalledCode(w, call), w);
        ExecuteOverdrawn(env, msg, code, AfterCall(m', sub.success, sub.gas, sub.data, outStart, outSize), sub.world, false);
      case Create(m', call) =>
        CreateOverdrawn(env, call, w);
        var sub := CreateContract(env, call, w);
        ExecuteOverdrawn(env, msg, code, AfterCreate(m', call.gas, sub.success, sub.gas, sub.addr, sub.data), sub.world, false);
    }
  }

  /** A message call returns at most the gas it was given, and a negative amount only when
      a frame below it ran off the end of its code behind a LOG. */
  lemma {:induction false} ApplyOverdrawn(env: Env, msg: Message, code: Bytes, w: World)
    requires SoundEnv(env) && msg.gas >= 0
    ensures var r := ApplyMsg(env, msg, code, w);
            && r.gas <= msg.gas
            && (r.gas < 0 ==> r.success && r.overdrawn)
    decreases DepthLeft(msg.depth), 1, 0
  {
    hide Execute, TransferValue, Acct;
    var t := if msg.transfersValue then TransferValue(w, msg.sender, msg.to, msg.value) else Some(w);
    if t.Some? {
      ExecuteOverdrawn(env, msg, code, Start(msg.gas), t.value, false);
    }
  }

  lemma {:induction false} CreateOverdrawn(env: Env, msg: Message, w: World)
    requires SoundEnv(env) && msg.gas >= 0
    ensures var r := CreateContract(env, msg, w);
            && r.gas <= msg.gas
            && (r.gas < 0 ==> r.success && r.overdrawn)
    decreases DepthLeft(msg.depth), 2, 0
  {
    hide Execute, ApplyMsg, Acct, SetNonce, ClearTarget, CreateSetup, Occupied, ExtractAll;
    var (w1, to) := CreateSetup(env, msg, w);
    if !Occupied(env, w1, to) {
      var w2 := ClearTarget(w1, to);
      var msg' := msg.(to := to, data := CallData([], 0, 0));
      ApplyOverdrawn(env, msg', ExtractAll(msg.data), SetNonce(w2, to, if env.spuriousDragon then 1 else 0));
    }
  }

  // ---- static calls ----

  /** The same balances, nonces, code, storage, logs, self-destructs and refunds. */
  ghost predicate SameLedger(w: World, w': World) {
    && (forall a: Address :: SameAccount(Acct(w, a), Acct(w', a)))
    && w.logs == w'.logs && w.suicides == w'.suicides && w.refunds == w'.refunds
  }

  ghost predicate SameAccount(x: Account, y: Account) {
    x.balance == y.balance && x.nonce == y.nonce && x.code == y.code
    && forall k: Word :: StorageAt(x.storage, k) == StorageAt(y.storage, k)
  }

  lemma LedgerReflexive(w: World)
    ensures SameLedger(w, w)
  {
  }

  lemma LedgerTransitive(a: World, b: World, c: World)
    requires SameLedger(a, b) && SameLedger(b, c)
    ensures SameLedger(a, c)
  {
    forall x: Address ensures SameAccount(Acct(a, x), Acct(c, x)) {
      assert SameAccount(Acct(a, x), Acct(b, x)) && SameAccount(Acct(b, x), Acct(c, x));
    }
  }

  /** A static message that moves no ether between two accounts. */
  predicate StaticMessage(msg: Message) {
    msg.isStatic && (msg.transfersValue ==> msg.value == 0 || msg.sender == msg.to)
  }

  /** A static frame neither writes nor creates, and the calls it makes are static again. */
  lemma StaticExec(env: Env, msg: Message, code: Bytes, m: Machine, w: World, op: Byte)
    requires m.gas >= 0 && msg.isStatic
    requires Info(op).Some? && |m.stack| >= Info(op).value.ins && 0 < m.pc <= |code| && code[m.pc - 1] == op
    ensures var e := Exec(env, msg, code, m, w, op);
            && (e.Next? ==> e.world == w)
            && (e.Halt? ==> e.world == w)
            && !e.Create?
            && (e.Invoke? ==> StaticMessage(e.call))
  {
    hide Arithmetic, Comparison, Environment, MemExtend, CopyTo, CopyFee, AccountExists, EncodedBytes, PushValue, Swap;
    ExecWorld(env, msg, code, m, w, op);
  }

  /** STATICCALL starts a static message, whoever executes it; CALLCODE moves ether from an account to itself. */
  lemma StaticCallIsStatic(env: Env, msg: Message, m: Machine, w: World, op: Byte)
    requires op == STATICCALL || op == CALLCODE
    requires |m.stack| >= Info(op).value.ins
    ensures var e := ExecCall(env, msg, m, w, op);
            e.Invoke? ==> (op == STATICCALL ==> StaticMessage(e.call)) && (op == CALLCODE ==> e.call.sender == e.call.to == msg.to)
  {
  }

  lemma TransferLedger(w: World, from: Address, to: Address, value: int)
    requires value == 0 || from == to
    ensures var t := TransferValue(w, from, to, value); t.Some? ==> SameLedger(w, t.value)
  {
  }

  lemma {:induction false} StaticExecute(env: Env, msg: Message, code: Bytes, m: Machine, w: World, afterLog: bool)
    requires SoundEnv(env) && msg.isStatic
    ensures SameLedger(w, Execute(env, msg, code, m, w, afterLog).world)
    decreases DepthLeft(msg.depth), 0, GasRank(m.gas)
  {
    hide Exec, Info, CalledCode, SoundEnv, SameLedger, StaticMessage;
    LedgerReflexive(w);
    if m.pc < |code| {
      StepGas(env, msg, code, m, w);
      var e := Step(env, msg, code, m, w);
      if !e.Fail? {
        StepIsExec(env, msg, code, m, w);
        StaticExec(env, msg, code, m.(gas := m.gas - Info(code[m.pc]).value.fee, pc := m.pc + 1), w, code[m.pc]);
      }
      match e
      case Fail =>
      case Halt(_, _, _, _) =>
      case Next(m', w') => StaticExecute(env, msg, code, m', w', IsLog(code[m.pc]));
      case Invoke(m', call, outStart, outSize) =>
        StaticApply(env, call, CalledCode(w, call), w);
        var sub := ApplyMsg(env, call, CalledCode(w, call), w);
        var m'' := AfterCall(m', sub.success, sub.gas, sub.data, outStart, outSize);
        StaticExecute(env, msg, code, m'', sub.world, false);
        LedgerTransitive(w, sub.world, Execute(env, msg, code, m'', sub.world, false).world);
    }
  }

  /** EIP-214: whatever a static call does and calls in turn, the ledger is the same afterwards. */
  lemma {:induction false} StaticApply(env: Env, msg: Message, code: Bytes, w: World)
    requires SoundEnv(env) && StaticMessage(msg)
    ensures SameLedger(w, ApplyMsg(env, msg, code, w).world)
    decreases DepthLeft(msg.depth), 1, 0
  {
    hide Execute, TransferValue, Acct, SameLedger;
    LedgerReflexive(w);
    var t := if msg.transfersValue then TransferValue(w, msg.sender, msg.to, msg.value) else Some(w);
    if t.Some? {
      if msg.transfersValue { TransferLedger(w, msg.sender, msg.to, msg.value); }
      StaticExecute(env, msg, code, Start(msg.gas), t.value, false);
      LedgerTransitive(w, t.value, Execute(env, msg, code, Start(msg.gas), t.value, false).world);
    }
  }

  // ---- the sum of all balances ----

  function BalanceIn(accounts: map<Address, Account>, a: Address): int {
    if a in accounts then accounts[a].balance else 0
  }

  ghost function Total(accounts: map<Address, Account>): int
    decreases |accounts|
  {
    if accounts == map[] then 0
    else
      var a :| a in accounts;
      accounts[a].balance + Total(accounts - {a})
  }

  lemma {:induction false} TotalRemove(accounts: map<Address, Account>, a: Address)
    requires a in accounts
    ensures Total(accounts) == accounts[a].balance + Total(accounts - {a})
    decreases |accounts|
  {
    var b :| b in accounts && Total(accounts) == accounts[b].balance + Total(accounts - {b});
    if a != b {
      TotalRemove(accounts - {b}, a);
      assert accounts - {b} - {a} == accounts - {a} - {b};
      TotalRemove(accounts - {a}, b);
    }
  }

  lemma TotalUpdate(accounts: map<Address, Account>, a: Address, acct: Account)
    ensures Total(accounts[a := acct]) == Total(accounts) - BalanceIn(accounts, a) + acct.balance
  {
    var updated := accounts[a := acct];
    TotalRemove(updated, a);
    assert updated - {a} == accounts - {a};
    if a in accounts {
      TotalRemove(accounts, a);
    } else {
      assert accounts - {a} == accounts;
    }
  }

  predicate NonNegative(w: World) {
    forall a :: a in w.accounts ==> w.accounts[a].balance >= 0
  }

  /** No ether appears, no balance turns negative, and ether disappears only with a self-destruct. */
  ghost predicate Drains(w: World, w': World) {
    NonNegative(w) ==>
      && NonNegative(w')
      && Total(w'.accounts) <= Total(w.accounts)
      && w.suicides <= w'.suicides
      && (w'.suicides == w.suicides ==> Total(w'.accounts) == Total(w.accounts))
  }

  lemma DrainsReflexive(w: World)
    ensures Drains(w, w)
  {
  }

  lemma DrainsTransitive(a: World, b: World, c: World)
    requires Drains(a, b) && Drains(b, c)
    ensures Drains(a, c)
  {
  }

  lemma SetBalanceTotal(w: World, a: Address, v: int)
    ensures Total(SetBalance(w, a, v).accounts) == Total(w.accounts) - GetBalance(w, a) + v
  {
    TotalUpdate(w.accounts, a, Acct(w, a).(balance := v, touched := true));
  }

  /** Rewriting an account without touching its balance. */
  lemma PutDrains(w: World, a: Address, acct: Account)
    requires acct.balance == Acct(w, a).balance
    ensures Drains(w, Put(w, a, acct))
  {
    TotalUpdate(w.accounts, a, acct.(touched := true));
  }

  lemma BalanceAfterSet(w: World, a: Address, v: int, b: Address)
    ensures GetBalance(SetBalance(w, a, v), b) == if b == a then v else GetBalance(w, b)
  {
  }

  lemma TransferTotal(w: World, from: Address, to: Address, value: int)
    ensures Total(DeltaBalance(DeltaBalance(w, from, -value), to, value).accounts) == Total(w.accounts)
  {
    hide SetBalance, GetBalance, Total;
    var w1 := DeltaBalance(w, from, -value);
    SetBalanceTotal(w, from, GetBalance(w, from) - value);
    SetBalanceTotal(w1, to, GetBalance(w1, to) + value);
  }

  lemma TransferNonNegative(w: World, from: Address, to: Address, value: int)
    requires NonNegative(w) && 0 <= value <= GetBalance(w, from)
    ensures NonNegative(DeltaBalance(DeltaBalance(w, from, -value), to, value))
  {
    var w1 := DeltaBalance(w, from, -value);
    SetBalanceNonNegative(w, from, GetBalance(w, from) - value);
    BalanceAfterSet(w, from, GetBalance(w, from) - value, to);
    SetBalanceNonNegative(w1, to, GetBalance(w1, to) + value);
  }

  lemma TransferDrains(w: World, from: Address, to: Address, value: int)
    requires value >= 0
    ensures var t := TransferValue(w, from, to, value); t.Some? ==> Drains(w, t.value)
  {
    TransferTotal(w, from, to, value);
    if NonNegative(w) && GetBalance(w, from) >= value {
      TransferNonNegative(w, from, to, value);
    }
  }

  lemma SetBalanceNonNegative(w: World, a: Address, v: int)
    requires v >= 0
    ensures NonNegative(w) ==> NonNegative(SetBalance(w, a, v))
  {
  }

  lemma SuicideDrains(env: Env, msg: Message, m: Machine, w: World)
    requires |m.stack| >= 1
    ensures var e := ExecSuicide(env, msg, m, w); e.Halt? ==> Drains(w, e.world)
  {
    hide AccountExists, Supplement;
    SweepDrains(w, msg.to, Arg(m.stack, 0) % TT160);
  }

  /** Moving a whole balance away and zeroing the account. */
  lemma SweepDrains(w: World, from: Address, to: Address)
    ensures Drains(w, AddSuicide(SetBalance(SetBalance(w, to, GetBalance(w, to) + GetBalance(w, from)), from, 0), from))
  {
    hide Total, SetBalance, GetBalance;
    var xfer := GetBalance(w, from);
    var w1 := SetBalance(w, to, GetBalance(w, to) + xfer);
    var w2 := SetBalance(w1, from, 0);
    SetBalanceTotal(w, to, GetBalance(w, to) + xfer);
    SetBalanceTotal(w1, from, 0);
    BalanceAfterSet(w, to, GetBalance(w, to) + xfer, from);
    SetBalanceLog(w, to, GetBalance(w, to) + xfer);
    SetBalanceLog(w1, from, 0);
    if NonNegative(w) {
      BalanceNonNegative(w, to);
      BalanceNonNegative(w, from);
      SetBalanceNonNegative(w, to, GetBalance(w, to) + xfer);
      SetBalanceNonNegative(w1, from, 0);
      SuicideLonger(w.suicides, from);
    }
  }

  lemma SetBalanceLog(w: World, a: Address, v: int)
    ensures SetBalance(w, a, v).suicides == w.suicides
  {
  }

  lemma BalanceNonNegative(w: World, a: Address)
    requires NonNegative(w)
    ensures GetBalance(w, a) >= 0
  {
  }

  lemma SuicideLonger(s: seq<Address>, a: Address)
    ensures s <= s + [a] && s + [a] != s
  {
    assert |s + [a]| == |s| + 1;
  }

  lemma LogDrains(w: World, w': World)
    requires w'.accounts == w.accounts && w'.suicides == w.suicides
    ensures Drains(w, w')
  {
  }

  lemma RefundKeepsBalances(w: World, refund: int)
    ensures NonNegative(w) ==> NonNegative(AddRefund(w, refund))
  {
  }

  lemma ExecDrains(env: Env, msg: Message, code: Bytes, m: Machine, w: World, op: Byte)
    requires m.gas >= 0
    requires Info(op).Some? && |m.stack| >= Info(op).value.ins && 0 < m.pc <= |code| && code[m.pc - 1] == op
    ensures var e := Exec(env, msg, code, m, w, op);
            (e.Next? || e.Halt?) ==> Drains(w, e.world)
  {
    hide NonNegative, Total, Acct;
    DrainsReflexive(w);
    ExecWorld(env, msg, code, m, w, op);
    var e := Exec(env, msg, code, m, w, op);
    if op == SSTORE {
      SstoreWorld(msg, m, w);
      if e.Next? {
        var refund: int, k: Word, v: Word :| e.world == SetStorage(AddRefund(w, refund), msg.to, k, v);
        var w1 := AddRefund(w, refund);
        assert NonNegative(w) ==> NonNegative(w1) by { RefundKeepsBalances(w, refund); }
        PutDrains(w1, msg.to, Acct(w1, msg.to).(storage := WithSlot(Acct(w1, msg.to).storage, k, v)));
      }
    } else if IsLog(op) {
      LogWorld(msg, m, w, op - 0xa0);
      if e.Next? { LogDrains(w, e.world); }
    } else if op == SUICIDE {
      SuicideDrains(env, msg, m, w);
    }
  }

  lemma {:induction false} ExecuteDrains(env: Env, msg: Message, code: Bytes, m: Machine, w: World, afterLog: bool)
    requires SoundEnv(env)
    ensures Drains(w, Execute(env, msg, code, m, w, afterLog).world)
    decreases DepthLeft(msg.depth), 0, GasRank(m.gas)
  {
    hide Exec, Info, CalledCode, SoundEnv, Drains;
    DrainsReflexive(w);
    if m.pc < |code| {
      StepGas(env, msg, code, m, w);
      var e := Step(env, msg, code, m, w);
      if !e.Fail? {
        StepIsExec(env, msg, code, m, w);
        ExecDrains(env, msg, code, m.(gas := m.gas - Info(code[m.pc]).value.fee, pc := m.pc + 1), w, code[m.pc]);
      }
      match e
      case Fail =>
      case Halt(_, _, _, _) =>
      case Next(m', w') =>
        ExecuteDrains(env, msg, code, m', w', IsLog(code[m.pc]));
        DrainsTransitive(w, w', Execute(env, msg, code, m', w', IsLog(code[m.pc])).world);
      case Invoke(m', call, outStart, outSize) =>
        ApplyDrains(env, call, CalledCode(w, call), w);
        var sub := ApplyMsg(env, call, CalledCode(w, call), w);
        var m'' := AfterCall(m', sub.success, sub.gas, sub.data, outStart, outSize);
        ExecuteDrains(env, msg, code, m'', sub.world, false);
        DrainsTransitive(w, sub.world, Execute(env, msg, code, m'', sub.world, false).world);
      case Create(m', call) =>
        CreateDrains(env, call, w);
        var sub := CreateContract(env, call, w);
        var m'' := AfterCreate(m', call.gas, sub.success, sub.gas, sub.addr, sub.data);
        ExecuteDrains(env, msg, code, m'', sub.world, false);
        DrainsTransitive(w, sub.world, Execute(env, msg, code, m'', sub.world, false).world);
    }
  }

  /** No message call creates ether or drives a balance below zero. */
  lemma {:induction false} ApplyDrains(env: Env, msg: Message, code: Bytes, w: World)
    requires SoundEnv(env)
    ensures Drains(w, ApplyMsg(env, msg, code, w).world)
    decreases DepthLeft(msg.depth), 1, 0
  {
    hide Execute, TransferValue, Acct, Drains;
    DrainsReflexive(w);
    var t := if msg.transfersValue then TransferValue(w, msg.sender, msg.to, msg.value) else Some(w);
    if t.Some? {
      if msg.transfersValue { TransferDrains(w, msg.sender, msg.to, msg.value); }
      ExecuteDrains(env, msg, code, Start(msg.gas), t.value, false);
      DrainsTransitive(w, t.value, Execute(env, msg, code, Start(msg.gas), t.value, false).world);
    }
  }

  lemma SetupDrains(env: Env, msg: Message, w: World)
    ensures Drains(w, CreateSetup(env, msg, w).0)
  {
    hide Total, NonNegative, Drains;
    DrainsReflexive(w);
    PutDrains(w, msg.sender, Acct(w, msg.sender).(nonce := GetNonce(w, msg.sender) + 1));
  }

  lemma ClearDrains(w: World, a: Address)
    ensures Drains(w, ClearTarget(w, a))
  {
    var w1 := SetBalance(w, a, GetBalance(w, a));
    PutDrains(w, a, Acct(w, a).(balance := GetBalance(w, a)));
    PutDrains(w1, a, Acct(w1, a).(nonce := 0));
    var w2 := SetNonce(w1, a, 0);
    PutDrains(w2, a, Acct(w2, a).(code := []));
  }

  lemma {:induction false} CreateDrains(env: Env, msg: Message, w: World)
    requires SoundEnv(env)
    ensures Drains(w, CreateContract(env, msg, w).world)
    decreases DepthLeft(msg.depth), 2, 0
  {
    var (w1, to) := CreateSetup(env, msg, w);
    SetupDrains(env, msg, w);
    if !Occupied(env, w1, to) {
      ClearDrains(w1, to);
      var w2 := ClearTarget(w1, to);
      DrainsTransitive(w, w1, w2);
      var n := if env.spuriousDragon then 1 else 0;
      var w3 := SetNonce(w2, to, n);
      PutDrains(w2, to, Acct(w2, to).(nonce := n));
      DrainsTransitive(w, w2, w3);
      var msg' := msg.(to := to, data := CallData([], 0, 0));
      ApplyDrains(env, msg', ExtractAll(msg.data), w3);
      var r := ApplyMsg(env, msg', ExtractAll(msg.data), w3);
      DrainsTransitive(w, w3, r.world);
      FinishDrains(env, to, r, w2, w);
    }
  }

  lemma FinishDrains(env: Env, to: Address, r: Result, w2: World, w: World)
    requires Drains(w, w2) && Drains(w, r.world)
    ensures Drains(w, FinishCreate(env, to, r, w2).world)
  {
    PutDrains(r.world, to, Acct(r.world, to).(code := r.data));
    DrainsTransitive(w, r.world, SetCode(r.world, to, r.data));
    PutDrains(r.world, to, Acct(r.world, to).(code := []));
    DrainsTransitive(w, r.world, SetCode(r.world, to, []));
  }

  // ---- a frame that overdraws its gas ----

  /** PUSH1 0, PUSH1 0, MSTORE, PUSH1 32, PUSH1 0, LOG0. */
  function OverdraftCode(): Bytes {
    [0x60, 0x00, 0x60, 0x00, 0x52, 0x60, 0x20, 0x60, 0x00, 0xa0]
  }

  lemma PushOne(env: Env, msg: Message, code: Bytes, m: Machine, w: World, x: bool)
    requires SoundEnv(env) && m.pc + 1 < |code| && code[m.pc] == 0x60 && m.gas >= 3 && |m.stack| < 1024
    ensures Execute(env, msg, code, m, w, x)
         == Execute(env, msg, code, m.(pc := m.pc + 2, gas := m.gas - 3, stack := m.stack + [code[m.pc + 1]]), w, false)
  {
    PushStep(env, msg, code, m, w);
    hide Step;
  }

  lemma PushStep(env: Env, msg: Message, code: Bytes, m: Machine, w: World)
    requires m.pc + 1 < |code| && code[m.pc] == 0x60 && m.gas >= 3 && |m.stack| < 1024
    ensures Step(env, msg, code, m, w)
         == Next(m.(pc := m.pc + 2, gas := m.gas - 3, stack := m.stack + [code[m.pc + 1]]), w)
  {
    hide WordOf;
    var b := code[m.pc + 1];
    assert Window(code, m.pc + 1, 1) == [b];
    assert WordOf([b]) == b by { OneByteWord(b); }
  }

  lemma OneByteWord(b: Byte)
    ensures WordOf([b]) == b
  {
    assert [b][..0] == [] && BigEndianToInt([]) == 0;
  }

  /** The data fee of LOG is taken unchecked, and nothing looks at it when the code ends there:
      with 393 gas this frame succeeds and returns -256. */
  lemma OverdraftExample(env: Env, msg: Message, w: World)
    requires SoundEnv(env) && !msg.isStatic
    ensures var r := Execute(env, msg, OverdraftCode(), Start(393), w, false);
            r.success && r.gas == -256 && r.overdrawn
  {
    hide Execute, Step;
    var code := OverdraftCode();
    var m0 := Start(393);
    PushOne(env, msg, code, m0, w, false);
    var m1 := m0.(pc := 2, gas := 390, stack := [0]);
    assert m0.stack + [code[1]] == m1.stack;
    PushOne(env, msg, code, m1, w, false);
    var m2 := m1.(pc := 4, gas := 387, stack := [0, 0]);
    assert m1.stack + [code[3]] == m2.stack;
    var m3 := m2.(pc := 5, gas := 381, stack := [], mem := EncodeInt32(0));
    StoreStep(env, msg, code, m2, w);
    PushOne(env, msg, code, m3, w, false);
    var m4 := m3.(pc := 7, gas := 378, stack := [32]);
    assert m3.stack + [code[6]] == m4.stack;
    PushOne(env, msg, code, m4, w, false);
    assert m4.stack + [code[8]] == [32, 0];
    LogStep(env, msg, code, m4.(pc := 9, gas := 375, stack := [32, 0]), w);
  }

  lemma StoreZero(m: Machine, w: World)
    requires m.gas == 384 && m.stack == [0, 0] && m.mem == []
    ensures ExecMemory(m, w, MSTORE) == Next(m.(gas := 381, stack := [], mem := EncodeInt32(0)), w)
  {
    hide EncodeInt32;
    assert Ceil32(32) == 32;
    assert MemExtend([], 384, 0, 32) == Extended(381, Zeros(32));
    assert CopyTo(Zeros(32), 0, EncodeInt32(0), 0, 32) == EncodeInt32(0);
    assert Popped(m.stack, 2) == [];
  }

  lemma StoreIsStep(env: Env, msg: Message, code: Bytes, m: Machine, w: World)
    requires m.pc < |code| && code[m.pc] == MSTORE && m.gas == 387 && m.stack == [0, 0] && m.mem == []
    ensures Step(env, msg, code, m, w)
         == Next(m.(pc := m.pc + 1, gas := 381, stack := [], mem := EncodeInt32(0)), w)
  {
    hide ExecMemory, EncodeInt32;
    StoreZero(m.(gas := 384, pc := m.pc + 1), w);
  }

  lemma StoreStep(env: Env, msg: Message, code: Bytes, m: Machine, w: World)
    requires SoundEnv(env) && m.pc < |code| && code[m.pc] == MSTORE
    requires m.gas == 387 && m.stack == [0, 0] && m.mem == []
    ensures Execute(env, msg, code, m, w, false)
         == Execute(env, msg, code, m.(pc := m.pc + 1, gas := 381, stack := [], mem := EncodeInt32(0)), w, false)
  {
    StoreIsStep(env, msg, code, m, w);
    hide Step, EncodeInt32, SoundEnv;
  }

  lemma LogStep(env: Env, msg: Message, code: Bytes, m: Machine, w: World)
    requires SoundEnv(env) && !msg.isStatic && m.pc + 1 == |code| && code[m.pc] == 0xa0
    requires m.gas == 375 && m.stack == [32, 0] && |m.mem| == 32
    ensures var r := Execute(env, msg, code, m, w, false); r.success && r.gas == -256 && r.overdrawn
  {
    hide SoundEnv;
  }
}
