/** What code cannot do to an account from outside: whole runs, with all the calls and creations in them. */
module Isolation {
  import opened ByteStrings
  import opened Words
  import opened Opcodes
  import opened World
  import opened Machine
  import opened Evm
  import opened EvmSafety
  import opened MessageLaws

  // ---- where code runs ----

  /** The addresses at which a frame and the frames below it run, and those that create contracts. */
  ghost function ExecuteAt(env: Env, msg: Message, code: Bytes, m: Machine, w: World): set<Address>
    requires SoundEnv(env)
    decreases DepthLeft(msg.depth), 0, GasRank(m.gas)
  {
    if m.pc >= |code| then {msg.to}
    else
      StepGas(env, msg, code, m, w);
      match Step(env, msg, code, m, w)
      case Fail => {msg.to}
      case Halt(_, _, _, _) => {msg.to}
      case Next(m', w') => ExecuteAt(env, msg, code, m', w')
      case Invoke(m', call, outStart, outSize) =>
        var sub := ApplyMsg(env, call, CalledCode(w, call), w);
        ApplyAt(env, call, CalledCode(w, call), w)
        + ExecuteAt(env, msg, code, AfterCall(m', sub.success, sub.gas, sub.data, outStart, outSize), sub.world)
      case Create(m', call) =>
        var sub := CreateContract(env, call, w);
        CreateAt(env, call, w)
        + ExecuteAt(env, msg, code, AfterCreate(m', call.gas, sub.success, sub.gas, sub.addr, sub.data), sub.world)
  }

  /** A message that moves ether counts for its sender as well. */
  ghost function ApplyAt(env: Env, msg: Message, code: Bytes, w: World): set<Address>
    requires SoundEnv(env)
    decreases DepthLeft(msg.depth), 1, 0
  {
    (if msg.transfersValue then {msg.sender} else {})
    + match if msg.transfersValue then TransferValue(w, msg.sender, msg.to, msg.value) else Some(w)
      case None => {}
      case Some(w1) => RunAt(env, msg, code, w1)
  }

  ghost function RunAt(env: Env, msg: Message, code: Bytes, w: World): set<Address>
    requires SoundEnv(env)
    decreases DepthLeft(msg.depth), 0, GasRank(msg.gas) + 1
  {
    if IsSpecial(env, msg) && msg.gas >= 0 then {} else ExecuteAt(env, msg, code, Start(msg.gas), w)
  }

  ghost function CreateAt(env: Env, msg: Message, w: World): set<Address>
    requires SoundEnv(env)
    decreases DepthLeft(msg.depth), 2, 0
  {
    var (w1, to) := CreateSetup(env, msg, w);
    {msg.sender, to}
    + if Occupied(env, w1, to) then {}
      else ApplyAt(env, msg.(to := to, data := CallData([], 0, 0)), ExtractAll(msg.data),
                   SetNonce(ClearTarget(w1, to), to, if env.spuriousDragon then 1 else 0))
  }

  // ---- what stays ----

  /** The account keeps storage, code and nonce, and loses no ether. */
  ghost predicate Safe(w: World, w': World, a: Address) {
    && (forall k: Word :: GetStorage(w', a, k) == GetStorage(w, a, k))
    && GetCode(w', a) == GetCode(w, a) && GetNonce(w', a) == GetNonce(w, a)
    && (NonNegative(w) ==> NonNegative(w') && GetBalance(w', a) >= GetBalance(w, a))
  }

  lemma SafeReflexive(w: World, a: Address)
    ensures Safe(w, w, a)
  {
  }

  lemma SafeTransitive(w: World, v: World, u: World, a: Address)
    requires Safe(w, v, a) && Safe(v, u, a)
    ensures Safe(w, u, a)
  {
    hide NonNegative, GetStorage, GetBalance, GetCode, GetNonce;
    forall k: Word ensures GetStorage(u, a, k) == GetStorage(w, a, k) {
      assert GetStorage(v, a, k) == GetStorage(w, a, k);
    }
  }

  lemma PutSafe(w: World, b: Address, acct: Account, a: Address)
    requires a != b && (NonNegative(w) ==> acct.balance >= 0)
    ensures Safe(w, Put(w, b, acct), a)
  {
  }

  lemma SweepSafe(w: World, from: Address, to: Address, a: Address)
    requires a != from
    ensures Safe(w, AddSuicide(SetBalance(SetBalance(w, to, GetBalance(w, to) + GetBalance(w, from)), from, 0), from), a)
  {
  }

  lemma TransferSafe(w: World, from: Address, to: Address, value: nat, a: Address)
    requires a != from
    ensures var t := TransferValue(w, from, to, value); t.Some? ==> Safe(w, t.value, a)
  {
    TransferDrains(w, from, to, value);
    hide Drains;
  }

  /** A frame writes to its own account only, and only it sends ether away. */
  lemma StepSafe(env: Env, msg: Message, code: Bytes, m: Machine, w: World, a: Address)
    requires m.pc < |code| && a != msg.to
    ensures var e := Step(env, msg, code, m, w);
            && (e.Next? || e.Halt? ==> Safe(w, e.world, a))
            && (e.Invoke? ==> e.call.transfersValue ==> e.call.sender == msg.to)
            && (e.Create? ==> e.call.sender == msg.to)
  {
    hide Exec, Info, Safe, Step;
    SafeReflexive(w, a);
    if !Step(env, msg, code, m, w).Fail? {
      StepIsExec(env, msg, code, m, w);
      ExecSafe(env, msg, code, m.(gas := m.gas - Info(code[m.pc]).value.fee, pc := m.pc + 1), w, code[m.pc], a);
    }
  }

  lemma ExecSafe(env: Env, msg: Message, code: Bytes, m: Machine, w: World, op: Byte, a: Address)
    requires m.gas >= 0 && a != msg.to
    requires Info(op).Some? && |m.stack| >= Info(op).value.ins && 0 < m.pc <= |code| && code[m.pc - 1] == op
    ensures var e := Exec(env, msg, code, m, w, op);
            && (e.Next? || e.Halt? ==> Safe(w, e.world, a))
            && (e.Invoke? ==> e.call.transfersValue ==> e.call.sender == msg.to)
            && (e.Create? ==> e.call.sender == msg.to)
  {
    hide Safe, Acct, NonNegative;
    SafeReflexive(w, a);
    ExecWorld(env, msg, code, m, w, op);
    var e := Exec(env, msg, code, m, w, op);
    if op == SSTORE {
      SstoreSafe(msg, m, w, a);
    } else if IsLog(op) {
      LogWorld(msg, m, w, op - 0xa0);
      if e.Next? { LogSafe(w, e.world, a); }
    } else if op == SUICIDE {
      SuicideSafe(env, msg, m, w, a);
    } else if op == CREATE {
      CreateSender(env, msg, m, w);
    } else if op == CALL || op == CALLCODE || op == DELEGATECALL || op == STATICCALL {
      CallSender(env, msg, m, w, op);
    }
  }

  lemma CallSender(env: Env, msg: Message, m: Machine, w: World, op: Byte)
    requires op == CALL || op == CALLCODE || op == DELEGATECALL || op == STATICCALL
    requires |m.stack| >= Info(op).value.ins
    ensures var e := ExecCall(env, msg, m, w, op); e.Invoke? && e.call.transfersValue ==> e.call.sender == msg.to
  {
    hide Info, MemExtend, ExtraGas, CallGasLimit, GetBalance;
  }

  lemma CreateSender(env: Env, msg: Message, m: Machine, w: World)
    requires |m.stack| >= 3 && m.gas >= 0
    ensures var e := ExecCreate(env, msg, m, w); e.Create? ==> e.call.sender == msg.to
  {
    hide MemExtend, GetBalance;
  }

  lemma SstoreSafe(msg: Message, m: Machine, w: World, a: Address)
    requires |m.stack| >= 2 && a != msg.to
    ensures var e := ExecSstore(msg, m, w); e.Next? ==> Safe(w, e.world, a)
  {
    SstoreWorld(msg, m, w);
    var e := ExecSstore(msg, m, w);
    if e.Next? {
      var refund: int, k: Word, v: Word :| e.world == SetStorage(AddRefund(w, refund), msg.to, k, v);
      var w1 := AddRefund(w, refund);
      LogSafe(w, w1, a);
      PutSafe(w1, msg.to, Acct(w1, msg.to).(storage := WithSlot(Acct(w1, msg.to).storage, k, v)), a);
      SafeTransitive(w, w1, e.world, a);
    }
  }

  lemma LogSafe(w: World, w': World, a: Address)
    requires w'.accounts == w.accounts
    ensures Safe(w, w', a)
  {
  }

  lemma SuicideSafe(env: Env, msg: Message, m: Machine, w: World, a: Address)
    requires |m.stack| >= 1 && a != msg.to
    ensures var e := ExecSuicide(env, msg, m, w); e.Halt? ==> Safe(w, e.world, a)
  {
    hide Safe;
    SweepSafe(w, msg.to, Arg(m.stack, 0) % TT160, a);
  }

  // ---- whole runs ----

  /** Where no code runs and nothing is created, storage, code and nonce stay as they are and no ether gets away. */
  lemma {:induction false} ExecuteIsolated(env: Env, msg: Message, code: Bytes, m: Machine, w: World, x: bool,
      a: Address)
    requires SoundEnv(env) && a !in ExecuteAt(env, msg, code, m, w)
    ensures Safe(w, Execute(env, msg, code, m, w, x).world, a)
    decreases DepthLeft(msg.depth), 0, GasRank(m.gas)
  {
    hide Step, CalledCode, SoundEnv, Safe;
    SafeReflexive(w, a);
    if m.pc < |code| {
      StepGas(env, msg, code, m, w);
      match Step(env, msg, code, m, w)
      case Fail =>
      case Halt(_, _, _, _) => StepSafe(env, msg, code, m, w, a);
      case Next(m', w') =>
        ExecuteIsolated(env, msg, code, m', w', IsLog(code[m.pc]), a);
        RunsHere(env, msg, code, m', w');
        StepSafe(env, msg, code, m, w, a);
        SafeTransitive(w, w', Execute(env, msg, code, m', w', IsLog(code[m.pc])).world, a);
      case Invoke(m', call, outStart, outSize) =>
        var sub := ApplyMsg(env, call, CalledCode(w, call), w);
        var n := AfterCall(m', sub.success, sub.gas, sub.data, outStart, outSize);
        ApplyIsolated(env, call, CalledCode(w, call), w, a);
        ExecuteIsolated(env, msg, code, n, sub.world, false, a);
        SafeTransitive(w, sub.world, Execute(env, msg, code, n, sub.world, false).world, a);
      case Create(m', call) =>
        var sub := CreateContract(env, call, w);
        var n := AfterCreate(m', call.gas, sub.success, sub.gas, sub.addr, sub.data);
        CreateIsolated(env, call, w, a);
        ExecuteIsolated(env, msg, code, n, sub.world, false, a);
        SafeTransitive(w, sub.world, Execute(env, msg, code, n, sub.world, false).world, a);
    }
  }

  lemma {:induction false} RunsHere(env: Env, msg: Message, code: Bytes, m: Machine, w: World)
    requires SoundEnv(env)
    ensures msg.to in ExecuteAt(env, msg, code, m, w)
    decreases DepthLeft(msg.depth), 0, GasRank(m.gas)
  {
    hide Step, CalledCode, SoundEnv, AfterCall, AfterCreate;
    if m.pc < |code| {
      StepGas(env, msg, code, m, w);
      match Step(env, msg, code, m, w)
      case Next(m', w') => RunsHere(env, msg, code, m', w');
      case Invoke(m', call, outStart, outSize) =>
        var sub := ApplyMsg(env, call, CalledCode(w, call), w);
        AfterCallGas(m', sub.success, sub.gas, sub.data, outStart, outSize);
        RunsHere(env, msg, code, AfterCall(m', sub.success, sub.gas, sub.data, outStart, outSize), sub.world);
      case Create(m', call) =>
        var sub := CreateContract(env, call, w);
        AfterCreateGas(m', call.gas, sub.success, sub.gas, sub.addr, sub.data);
        RunsHere(env, msg, code, AfterCreate(m', call.gas, sub.success, sub.gas, sub.addr, sub.data), sub.world);
      case _ =>
    }
  }

  lemma AfterCallGas(m: Machine, success: bool, gas: int, data: Bytes, outStart: nat, outSize: nat)
    ensures AfterCall(m, success, gas, data, outStart, outSize).gas == m.gas + gas
  {
  }

  lemma AfterCreateGas(m: Machine, ingas: int, success: bool, gas: int, addr: Address, data: Bytes)
    ensures AfterCreate(m, ingas, success, gas, addr, data).gas == m.gas - ingas + gas
  {
  }

  lemma {:induction false} ApplyIsolated(env: Env, msg: Message, code: Bytes, w: World, a: Address)
    requires SoundEnv(env) && a !in ApplyAt(env, msg, code, w)
    ensures Safe(w, ApplyMsg(env, msg, code, w).world, a)
    decreases DepthLeft(msg.depth), 1, 0
  {
    hide Execute, TransferValue, Acct, Safe, ExecuteAt;
    SafeReflexive(w, a);
    var t := if msg.transfersValue then TransferValue(w, msg.sender, msg.to, msg.value) else Some(w);
    if t.Some? {
      if msg.transfersValue { TransferSafe(w, msg.sender, msg.to, msg.value, a); }
      if !(IsSpecial(env, msg) && msg.gas >= 0) {
        ExecuteIsolated(env, msg, code, Start(msg.gas), t.value, false, a);
        SafeTransitive(w, t.value, Execute(env, msg, code, Start(msg.gas), t.value, false).world, a);
      }
    }
  }

  lemma {:induction false} CreateIsolated(env: Env, msg: Message, w: World, a: Address)
    requires SoundEnv(env) && a !in CreateAt(env, msg, w)
    ensures Safe(w, CreateContract(env, msg, w).world, a)
    decreases DepthLeft(msg.depth), 2, 0
  {
    hide ApplyMsg, ApplyAt, Safe, Occupied, ExtractAll;
    var (w1, to) := CreateSetup(env, msg, w);
    SetupSafe(env, msg, w, a);
    if !Occupied(env, w1, to) {
      var w2 := ClearTarget(w1, to);
      var w3 := SetNonce(w2, to, if env.spuriousDragon then 1 else 0);
      var msg' := msg.(to := to, data := CallData([], 0, 0));
      ApplyIsolated(env, msg', ExtractAll(msg.data), w3, a);
      var r := ApplyMsg(env, msg', ExtractAll(msg.data), w3);
      SafeTransitive(w, w3, r.world, a);
      FinishSafe(env, to, r, w2, w, a);
    }
  }

  lemma NonceSafe(w: World, b: Address, n: int, a: Address)
    requires a != b
    ensures Safe(w, SetNonce(w, b, n), a)
  {
  }

  lemma ClearSafe(w: World, b: Address, a: Address)
    requires a != b
    ensures Safe(w, ClearTarget(w, b), a)
  {
    hide Safe, SetNonce, SetCode, SetBalance;
    SafeReflexive(w, a);
    var w1 := SetBalance(w, b, GetBalance(w, b));
    var w2 := SetNonce(w1, b, 0);
    BalanceSafe(w, b, a);
    NonceSafe(w1, b, 0, a);
    CodeSafe(w2, b, [], a);
    SafeTransitive(w, w1, w2, a);
    SafeTransitive(w, w2, SetCode(w2, b, []), a);
  }

  lemma BalanceSafe(w: World, b: Address, a: Address)
    requires a != b
    ensures Safe(w, SetBalance(w, b, GetBalance(w, b)), a)
  {
  }

  lemma SetupSafe(env: Env, msg: Message, w: World, a: Address)
    requires a != msg.sender && a != CreateSetup(env, msg, w).1
    ensures var (w1, to) := CreateSetup(env, msg, w);
            var w2 := ClearTarget(w1, to);
            Safe(w, w1, a) && Safe(w, w2, a) && forall n: int :: Safe(w, SetNonce(w2, to, n), a)
  {
    hide Safe, SetNonce, ClearTarget;
    var (w1, to) := CreateSetup(env, msg, w);
    var w2 := ClearTarget(w1, to);
    SafeReflexive(w, a);
    NonceSafe(w, msg.sender, GetNonce(w, msg.sender) + 1, a);
    ClearSafe(w1, to, a);
    SafeTransitive(w, w1, w2, a);
    forall n: int ensures Safe(w, SetNonce(w2, to, n), a) {
      NonceSafe(w2, to, n, a);
      SafeTransitive(w, w2, SetNonce(w2, to, n), a);
    }
  }

  lemma FinishSafe(env: Env, to: Address, r: Result, w2: World, w: World, a: Address)
    requires Safe(w, w2, a) && Safe(w, r.world, a) && a != to
    ensures Safe(w, FinishCreate(env, to, r, w2).world, a)
  {
    hide Safe;
    CodeSafe(r.world, to, r.data, a);
    CodeSafe(r.world, to, [], a);
    SafeTransitive(w, r.world, SetCode(r.world, to, r.data), a);
    SafeTransitive(w, r.world, SetCode(r.world, to, []), a);
  }

  lemma CodeSafe(w: World, to: Address, code: Bytes, a: Address)
    requires a != to
    ensures Safe(w, SetCode(w, to, code), a)
  {
  }
}
