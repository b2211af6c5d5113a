/** Where negative gas comes from: which code overdraws, and exactly when a frame returns less than nothing. */
module Overdraft {
  import opened ByteStrings
  import opened Words
  import opened Opcodes
  import opened World
  import opened Machine
  import opened Evm
  import opened EvmSafety
  import V = VmRun
  import T = Transactions

  /** The last instruction of the code is a LOG. */
  predicate EndsInLog(code: Bytes) {
    code != [] && IsLog(code[|code| - 1]) && IsStart(code, |code| - 1)
  }

  // ---- which code overdraws ----

  /** The codes run by a frame and by all frames below it. */
  ghost function ExecuteCodes(env: Env, msg: Message, code: Bytes, m: Machine, w: World): set<Bytes>
    requires SoundEnv(env)
    decreases DepthLeft(msg.depth), 0, GasRank(m.gas)
  {
    if m.pc >= |code| then {code}
    else
      StepGas(env, msg, code, m, w);
      match Step(env, msg, code, m, w)
      case Fail => {code}
      case Halt(_, _, _, _) => {code}
      case Next(m', w') => ExecuteCodes(env, msg, code, m', w')
      case Invoke(m', call, outStart, outSize) =>
        var sub := ApplyMsg(env, call, CalledCode(w, call), w);
        ApplyCodes(env, call, CalledCode(w, call), w)
        + ExecuteCodes(env, msg, code, AfterCall(m', sub.success, sub.gas, sub.data, outStart, outSize), sub.world)
      case Create(m', call) =>
        var sub := CreateContract(env, call, w);
        CreateCodes(env, call, w)
        + ExecuteCodes(env, msg, code, AfterCreate(m', call.gas, sub.success, sub.gas, sub.addr, sub.data), sub.world)
  }

  ghost function ApplyCodes(env: Env, msg: Message, code: Bytes, w: World): set<Bytes>
    requires SoundEnv(env)
    decreases DepthLeft(msg.depth), 1, 0
  {
    match if msg.transfersValue then TransferValue(w, msg.sender, msg.to, msg.value) else Some(w)
    case None => {}
    case Some(w1) => RunCodes(env, msg, code, w1)
  }

  ghost function RunCodes(env: Env, msg: Message, code: Bytes, w: World): set<Bytes>
    requires SoundEnv(env)
    decreases DepthLeft(msg.depth), 0, GasRank(msg.gas) + 1
  {
    if Special(env, msg) then {} else ExecuteCodes(env, msg, code, Start(msg.gas), w)
  }

  ghost function CreateCodes(env: Env, msg: Message, w: World): set<Bytes>
    requires SoundEnv(env)
    decreases DepthLeft(msg.depth), 2, 0
  {
    var (w1, to) := CreateSetup(env, msg, w);
    if Occupied(env, w1, to) then {}
    else ApplyCodes(env, CreationMessage(msg, to), ExtractAll(msg.data), CreationWorld(env, w1, to))
  }

  /** The message runs a precompiled contract. */
  predicate Special(env: Env, msg: Message) {
    msg.codeAddress.Some? && msg.gas >= 0 && env.isSpecial(msg.codeAddress.value)
  }

  /** The message that runs the code of a new contract, and the world it runs in. */
  function CreationMessage(msg: Message, to: Address): Message {
    msg.(to := to, data := CallData([], 0, 0))
  }

  function CreationWorld(env: Env, w: World, to: Address): World {
    SetNonce(ClearTarget(w, to), to, if env.spuriousDragon then 1 else 0)
  }

  ghost predicate SomeLog(codes: set<Bytes>) {
    exists c :: c in codes && EndsInLog(c)
  }

  lemma SomeLogOf(a: set<Bytes>, b: set<Bytes>)
    ensures SomeLog(a + b) <==> SomeLog(a) || SomeLog(b)
  {
    if SomeLog(a) { var c :| c in a && EndsInLog(c); assert c in a + b; }
    if SomeLog(b) { var c :| c in b && EndsInLog(c); assert c in a + b; }
  }

  /** What goes on behind a LOG stands right behind it. */
  lemma LogNext(env: Env, msg: Message, code: Bytes, m: Machine, w: World)
    requires m.pc < |code| && IsLog(code[m.pc]) && Step(env, msg, code, m, w).Next?
    ensures Step(env, msg, code, m, w).m.pc == m.pc + 1
  {
    hide Info, MemExtend, Topics;
  }

  /** A frame that stands at an instruction start and is overdrawn has run code that ends in a LOG, or called such a frame. */
  lemma {:induction false} ExecuteEndsInLog(env: Env, msg: Message, code: Bytes, m: Machine, w: World, afterLog: bool)
    requires SoundEnv(env) && IsStart(code, m.pc) && |m.stack| <= 1024
    requires afterLog && m.pc >= |code| ==> EndsInLog(code)
    ensures Execute(env, msg, code, m, w, afterLog).overdrawn ==> SomeLog(ExecuteCodes(env, msg, code, m, w))
    decreases DepthLeft(msg.depth), 0, GasRank(m.gas)
  {
    hide Step, Exec, Info, CalledCode, SoundEnv, IsStart, EndsInLog;
    if m.pc >= |code| {
      assert code in ExecuteCodes(env, msg, code, m, w);
    } else {
      StepGas(env, msg, code, m, w);
      V.StepPlace(env, msg, code, m, w);
      match Step(env, msg, code, m, w)
      case Fail =>
      case Halt(_, _, _, _) =>
      case Next(m', w') =>
        if IsLog(code[m.pc]) { LogAtEnd(env, msg, code, m, w); }
        ExecuteEndsInLog(env, msg, code, m', w', IsLog(code[m.pc]));
      case Invoke(m', call, outStart, outSize) =>
        ApplyEndsInLog(env, call, CalledCode(w, call), w);
        var sub := ApplyMsg(env, call, CalledCode(w, call), w);
        var m1 := AfterCall(m', sub.success, sub.gas, sub.data, outStart, outSize);
        ExecuteEndsInLog(env, msg, code, m1, sub.world, false);
        SomeLogOf(ApplyCodes(env, call, CalledCode(w, call), w), ExecuteCodes(env, msg, code, m1, sub.world));
      case Create(m', call) =>
        CreateEndsInLog(env, call, w);
        var sub := CreateContract(env, call, w);
        var m1 := AfterCreate(m', call.gas, sub.success, sub.gas, sub.addr, sub.data);
        ExecuteEndsInLog(env, msg, code, m1, sub.world, false);
        SomeLogOf(CreateCodes(env, call, w), ExecuteCodes(env, msg, code, m1, sub.world));
    }
  }

  lemma LogAtEnd(env: Env, msg: Message, code: Bytes, m: Machine, w: World)
    requires m.pc < |code| && IsStart(code, m.pc) && IsLog(code[m.pc]) && Step(env, msg, code, m, w).Next?
    ensures Step(env, msg, code, m, w).m.pc >= |code| ==> EndsInLog(code)
  {
    hide Step, IsStart;
    LogNext(env, msg, code, m, w);
  }

  lemma {:induction false} ApplyEndsInLog(env: Env, msg: Message, code: Bytes, w: World)
    requires SoundEnv(env)
    ensures ApplyMsg(env, msg, code, w).overdrawn ==> SomeLog(ApplyCodes(env, msg, code, w))
    decreases DepthLeft(msg.depth), 1, 0
  {
    hide Execute, ExecuteCodes, TransferValue, SoundEnv, SomeLog;
    var t := if msg.transfersValue then TransferValue(w, msg.sender, msg.to, msg.value) else Some(w);
    if t.Some? && !Special(env, msg) {
      ExecuteEndsInLog(env, msg, code, Start(msg.gas), t.value, false);
      assert RunCodes(env, msg, code, t.value) == ExecuteCodes(env, msg, code, Start(msg.gas), t.value);
      assert RunCode(env, msg, code, t.value) == Execute(env, msg, code, Start(msg.gas), t.value, false);
    } else if t.Some? {
      assert !RunCode(env, msg, code, t.value).overdrawn;
    }
  }

  lemma {:induction false} CreateEndsInLog(env: Env, msg: Message, w: World)
    requires SoundEnv(env)
    ensures CreateContract(env, msg, w).overdrawn ==> SomeLog(CreateCodes(env, msg, w))
    decreases DepthLeft(msg.depth), 2, 0
  {
    hide ApplyMsg, ApplyCodes, SoundEnv, SomeLog, SetNonce, ClearTarget, CreateSetup, Occupied, ExtractAll;
    var (w1, to) := CreateSetup(env, msg, w);
    if !Occupied(env, w1, to) {
      ApplyEndsInLog(env, CreationMessage(msg, to), ExtractAll(msg.data), CreationWorld(env, w1, to));
    }
  }

  // ---- exactly when ----

  /** The state before the last step of a frame that runs off the end of its code. */
  ghost function LastStep(env: Env, msg: Message, code: Bytes, m: Machine, w: World): Option<(Machine, World)>
    requires SoundEnv(env)
    decreases GasRank(m.gas), 1
  {
    if m.pc >= |code| then None
    else
      StepGas(env, msg, code, m, w);
      match Step(env, msg, code, m, w)
      case Fail => None
      case Halt(_, _, _, _) => None
      case Next(m', w') => Then(env, msg, code, m, w, m', w')
      case Invoke(m', call, outStart, outSize) =>
        var sub := ApplyMsg(env, call, CalledCode(w, call), w);
        Then(env, msg, code, m, w, AfterCall(m', sub.success, sub.gas, sub.data, outStart, outSize), sub.world)
      case Create(m', call) =>
        var sub := CreateContract(env, call, w);
        Then(env, msg, code, m, w, AfterCreate(m', call.gas, sub.success, sub.gas, sub.addr, sub.data), sub.world)
  }

  ghost function Then(env: Env, msg: Message, code: Bytes, m: Machine, w: World, m': Machine, w': World): Option<(Machine, World)>
    requires SoundEnv(env) && GasRank(m'.gas) < GasRank(m.gas)
    decreases GasRank(m.gas), 0
  {
    if m'.pc >= |code| then Some((m, w)) else LastStep(env, msg, code, m', w')
  }

  /** What is left of the gas once a LOG has paid its fees, memory aside. */
  function LogLeaves(m: Machine, op: Byte): int
    requires IsLog(op) && |m.stack| >= 2
  {
    m.gas - 375 * (1 + (op - 0xa0)) - Arg(m.stack, 1) * GLOGBYTE
  }

  /** The step is a LOG whose data costs more than what is left, or a call or creation that gave back more debt than the
      frame had kept. */
  ghost predicate Overdraws(env: Env, msg: Message, code: Bytes, m: Machine, w: World)
    requires SoundEnv(env) && m.pc < |code|
  {
    match Step(env, msg, code, m, w)
    case Next(_, _) => IsLog(code[m.pc]) && |m.stack| >= 2 && LogLeaves(m, code[m.pc]) < 0
    case Invoke(m', call, _, _) => m'.gas + ApplyMsg(env, call, CalledCode(w, call), w).gas < 0
    case Create(m', call) => m'.gas - call.gas + CreateContract(env, call, w).gas < 0
    case _ => false
  }

  lemma LogOverdraws(env: Env, msg: Message, code: Bytes, m: Machine, w: World)
    requires SoundEnv(env) && m.pc < |code| && m.gas >= 0 && Step(env, msg, code, m, w).Next?
    ensures Overdraws(env, msg, code, m, w) <==> Step(env, msg, code, m, w).m.gas < 0
  {
    hide Step, Exec, MemExtend;
    StepGas(env, msg, code, m, w);
    StepIsExec(env, msg, code, m, w);
    if IsLog(code[m.pc]) {
      var op := code[m.pc];
      var m1 := m.(gas := m.gas - Info(op).value.fee, pc := m.pc + 1);
      LogGas(env, msg, code, m1, w, op);
    }
  }

  lemma HandedOver(env: Env, msg: Message, code: Bytes, m: Machine, w: World)
    requires SoundEnv(env) && m.pc < |code|
    ensures var e := Step(env, msg, code, m, w);
            && (e.Invoke? ==> (Overdraws(env, msg, code, m, w) <==> e.m.gas + ApplyMsg(env, e.call, CalledCode(w, e.call), w).gas < 0))
            && (e.Create? ==> (Overdraws(env, msg, code, m, w) <==> e.m.gas - e.call.gas + CreateContract(env, e.call, w).gas < 0))
  {
    hide Step, ApplyMsg, CreateContract;
  }

  lemma LogGas(env: Env, msg: Message, code: Bytes, m: Machine, w: World, op: Byte)
    requires m.gas >= 0 && IsLog(op) && |m.stack| >= Info(op).value.ins && 0 < m.pc <= |code| && code[m.pc - 1] == op
    requires Exec(env, msg, code, m, w, op).Next?
    ensures Exec(env, msg, code, m, w, op).m.gas < 0 <==> m.gas - Arg(m.stack, 1) * GLOGBYTE < 0
  {
    hide Topics;
  }

  /** A frame that starts with gas returns less than nothing exactly if it runs off the end of its code and its last step
      overdraws. */
  lemma {:induction false} NegativeIff(env: Env, msg: Message, code: Bytes, m: Machine, w: World, afterLog: bool)
    requires SoundEnv(env) && m.gas >= 0
    ensures var last := LastStep(env, msg, code, m, w);
            && (last.Some? ==> last.value.0.pc < |code|)
            && (Execute(env, msg, code, m, w, afterLog).gas < 0 <==>
                last.Some? && Overdraws(env, msg, code, last.value.0, last.value.1))
    ensures Execute(env, msg, code, m, w, afterLog).gas < 0 ==> Execute(env, msg, code, m, w, afterLog).data == []
    decreases GasRank(m.gas)
  {
    hide Step, Exec, Info, CalledCode, SoundEnv, ApplyMsg, CreateContract, Overdraws;
    if m.pc < |code| {
      StepGas(env, msg, code, m, w);
      match Step(env, msg, code, m, w)
      case Fail =>
      case Halt(_, _, _, _) =>
      case Next(m', w') =>
        LogOverdraws(env, msg, code, m, w);
        ThenIff(env, msg, code, m, w, m', w', IsLog(code[m.pc]));
      case Invoke(m', call, outStart, outSize) =>
        var sub := ApplyMsg(env, call, CalledCode(w, call), w);
        HandedOver(env, msg, code, m, w);
        ThenIff(env, msg, code, m, w, AfterCall(m', sub.success, sub.gas, sub.data, outStart, outSize), sub.world, false);
      case Create(m', call) =>
        var sub := CreateContract(env, call, w);
        HandedOver(env, msg, code, m, w);
        ThenIff(env, msg, code, m, w, AfterCreate(m', call.gas, sub.success, sub.gas, sub.addr, sub.data), sub.world, false);
    }
  }

  lemma {:induction false} ThenIff(env: Env, msg: Message, code: Bytes, m: Machine, w: World, m': Machine, w': World,
      afterLog: bool)
    requires SoundEnv(env) && m.gas >= 0 && m.pc < |code| && GasRank(m'.gas) < GasRank(m.gas)
    requires Overdraws(env, msg, code, m, w) <==> m'.gas < 0
    ensures var last := Then(env, msg, code, m, w, m', w');
            && (last.Some? ==> last.value.0.pc < |code|)
            && (Execute(env, msg, code, m', w', afterLog).gas < 0 <==>
                last.Some? && Overdraws(env, msg, code, last.value.0, last.value.1))
    ensures Execute(env, msg, code, m', w', afterLog).gas < 0 ==> Execute(env, msg, code, m', w', afterLog).data == []
    decreases GasRank(m.gas), 0
  {
    hide Exec, CalledCode, SoundEnv, ApplyMsg, CreateContract, Overdraws;
    if m'.pc < |code| {
      if m'.gas >= 0 {
        NegativeIff(env, msg, code, m', w', afterLog);
      } else {
        assert Step(env, msg, code, m', w').Fail?;
      }
    }
  }

  /** What a message returns is what its frame returns, if it gets that far. */
  lemma ApplyNegativeIff(env: Env, msg: Message, code: Bytes, w: World)
    requires SoundEnv(env) && msg.gas >= 0
    ensures var t := if msg.transfersValue then TransferValue(w, msg.sender, msg.to, msg.value) else Some(w);
            ApplyMsg(env, msg, code, w).gas < 0 <==>
              t.Some? && !Special(env, msg) && Execute(env, msg, code, Start(msg.gas), t.value, false).gas < 0
    ensures ApplyMsg(env, msg, code, w).gas < 0 ==> ApplyMsg(env, msg, code, w).success && ApplyMsg(env, msg, code, w).data == []
  {
    hide Execute, TransferValue;
    var t := if msg.transfersValue then TransferValue(w, msg.sender, msg.to, msg.value) else Some(w);
    if t.Some? && !Special(env, msg) {
      NegativeIff(env, msg, code, Start(msg.gas), t.value, false);
      assert RunCode(env, msg, code, t.value) == Execute(env, msg, code, Start(msg.gas), t.value, false);
    }
    ApplyOverdrawn(env, msg, code, w);
  }

  /** The fee for installing code never makes the gas of a creation negative, nor hides that it is. */
  lemma CreateNegativeIff(env: Env, msg: Message, w: World)
    requires SoundEnv(env) && msg.gas >= 0
    ensures var (w1, to) := CreateSetup(env, msg, w);
            CreateContract(env, msg, w).gas < 0 <==>
              !Occupied(env, w1, to) && ApplyMsg(env, CreationMessage(msg, to), ExtractAll(msg.data), CreationWorld(env, w1, to)).gas < 0
  {
    hide ApplyMsg, SoundEnv, SetNonce, ClearTarget, CreateSetup, Occupied, ExtractAll;
    var (w1, to) := CreateSetup(env, msg, w);
    if !Occupied(env, w1, to) {
      ApplyNegativeIff(env, CreationMessage(msg, to), ExtractAll(msg.data), CreationWorld(env, w1, to));
    }
  }

  // ---- transactions ----

  /** The message a transaction sends. */
  function TxMessage(env: Env, tx: T.Tx): Message
    requires T.UpfrontGas(env, tx) <= tx.startgas
  {
    var data := CallData(tx.data, 0, |tx.data|);
    var gas := tx.startgas - T.UpfrontGas(env, tx);
    if tx.to.Some? then Message(tx.sender, tx.to.value, tx.value, gas, data, 0, tx.to, true, false)
    else Message(tx.sender, 0, tx.value, gas, data, 0, None, true, false)
  }

  /** A transaction that passes the checks is thrown away exactly if its message returns less than nothing, and then some
      frame below it has run code that ends in a LOG. */
  lemma RejectedIff(env: Env, tx: T.Tx, world: World, b: T.Block)
    requires SoundEnv(env)
    requires T.ValidateTransaction(env, tx, world, b).None? && T.UpfrontGas(env, tx) <= tx.startgas
    ensures var w := T.BuyGas(tx, world.(logs := [], suicides := [], refunds := 0));
            var msg := TxMessage(env, tx);
            var rejected := T.ApplyTransaction(env, tx, world, b).Rejected?;
            && (tx.to.Some? ==> (rejected <==> ApplyMsg(env, msg, GetCode(w, tx.to.value), w).gas < 0))
            && (tx.to.None? ==> (rejected <==> CreateContract(env, msg, w).gas < 0))
            && (rejected ==> SomeLog(if tx.to.Some? then ApplyCodes(env, msg, GetCode(w, tx.to.value), w) else CreateCodes(env, msg, w)))
  {
    hide ApplyMsg, CreateContract, ApplyCodes, CreateCodes, SomeLog, T.BuyGas, T.ValidateTransaction,
      T.ApplyTransaction, GetCode, SoundEnv;
    T.OnlyOverdraftAborts(env, tx, world, b);
    var w := T.BuyGas(tx, world.(logs := [], suicides := [], refunds := 0));
    if tx.to.Some? {
      ApplyEndsInLog(env, TxMessage(env, tx), GetCode(w, tx.to.value), w);
    } else {
      CreateEndsInLog(env, TxMessage(env, tx), w);
    }
  }
}
