/** Frames: the execution loop, message calls and contract creation, mutually recursive. */
module Evm {
  import opened ByteStrings
  import opened BigEndian
  import opened Words
  import opened Opcodes
  import opened World
  import opened Machine

  const NULL_ADDRESS: Address := TT160 - 1

  predicate IsLog(op: Byte) { 0xa0 <= op <= 0xa4 }

  // ---- what one step does to gas ----

  /** Instructions only spend gas, and only LOG may overdraw it; a frame that hands over keeps the rest. */
  ghost predicate GasSpent(e: Effect, before: int, mayOverdraw: bool, depth: nat) {
    match e
    case Fail => true
    case Halt(_, gas, _, _) => 0 <= gas <= before
    case Next(m, _) => m.gas <= before && (mayOverdraw || 0 <= m.gas)
    case Invoke(m, call, _, _) =>
      0 <= call.gas && 0 <= m.gas && m.gas + call.gas <= before && depth < MAX_DEPTH && call.depth == depth + 1
    case Create(m, call) =>
      0 <= call.gas <= m.gas <= before && depth < MAX_DEPTH && call.depth == depth + 1
  }

  lemma CallGas(env: Env, msg: Message, m: Machine, w: World, op: Byte)
    requires op == CALL || op == CALLCODE || op == DELEGATECALL || op == STATICCALL
    requires |m.stack| >= Info(op).value.ins && m.gas >= 0
    ensures GasSpent(ExecCall(env, msg, m, w, op), m.gas, false, msg.depth)
  {
    hide Info, MemExtend, AccountExists, Arg;
  }

  lemma ExecGas(env: Env, msg: Message, code: Bytes, m: Machine, w: World, op: Byte)
    requires m.gas >= 0
    requires Info(op).Some? && |m.stack| >= Info(op).value.ins && 0 < m.pc <= |code| && code[m.pc - 1] == op
    ensures GasSpent(Exec(env, msg, code, m, w, op), m.gas, IsLog(op), msg.depth)
  {
    hide Info, Arithmetic, Comparison, Environment, CopyTo, AccountExists, EncodedBytes, PushValue, Swap, Arg,
      ExecCall, SetStorage, Mask;
    if op == CALL || op == CALLCODE || op == DELEGATECALL || op == STATICCALL {
      CallGas(env, msg, m, w, op);
    }
  }

  lemma FreeOps(op: Byte)
    requires Info(op).Some? && Info(op).value.fee == 0
    ensures op == STOP || op == SSTORE || op == RETURN || op == REVERT || op == SUICIDE
  {
  }

  /** An instruction without base fee ends the frame or is a paid storage write. */
  lemma FreeOpsCost(env: Env, msg: Message, code: Bytes, m: Machine, w: World, op: Byte)
    requires m.gas >= 0
    requires Info(op).Some? && |m.stack| >= Info(op).value.ins && 0 < m.pc <= |code| && code[m.pc - 1] == op
    requires Info(op).value.fee == 0
    ensures var e := Exec(env, msg, code, m, w, op);
            !e.Invoke? && !e.Create? && (e.Next? ==> e.m.gas < m.gas)
  {
    FreeOps(op);
  }

  /** Every step that does not end the frame costs at least one unit of gas. */
  lemma StepGas(env: Env, msg: Message, code: Bytes, m: Machine, w: World)
    requires m.pc < |code|
    ensures var e := Step(env, msg, code, m, w);
            && GasSpent(e, m.gas, IsLog(code[m.pc]), msg.depth)
            && (e.Fail? || m.gas >= 0)
            && (e.Next? ==> e.m.gas < m.gas)
            && (e.Invoke? ==> e.m.gas + e.call.gas < m.gas)
            && (e.Create? ==> e.m.gas < m.gas)
  {
    hide Step, Exec, Info;
    var op := code[m.pc];
    var e := Step(env, msg, code, m, w);
    if !e.Fail? {
      StepIsExec(env, msg, code, m, w);
      var m1 := m.(gas := m.gas - Info(op).value.fee, pc := m.pc + 1);
      ExecGas(env, msg, code, m1, w, op);
      GasStep(env, msg, code, m, m1, w, op);
    }
  }

  lemma GasStep(env: Env, msg: Message, code: Bytes, m: Machine, m1: Machine, w: World, op: Byte)
    requires Info(op).Some? && m1 == m.(gas := m.gas - Info(op).value.fee, pc := m.pc + 1)
    requires m1.gas >= 0 && |m.stack| >= Info(op).value.ins && m.pc < |code| && code[m.pc] == op
    requires GasSpent(Exec(env, msg, code, m1, w, op), m1.gas, IsLog(op), msg.depth)
    ensures var e := Exec(env, msg, code, m1, w, op);
            && GasSpent(e, m.gas, IsLog(op), msg.depth)
            && (e.Next? ==> e.m.gas < m.gas)
            && (e.Invoke? ==> e.m.gas + e.call.gas < m.gas)
            && (e.Create? ==> e.m.gas < m.gas)
  {
    hide Exec, Info;
    if Info(op).value.fee == 0 {
      FreeOpsCost(env, msg, code, m1, w, op);
    }
  }

  /** A step that does not fail passed the checks and is the effect of its opcode. */
  lemma StepIsExec(env: Env, msg: Message, code: Bytes, m: Machine, w: World)
    requires m.pc < |code| && !Step(env, msg, code, m, w).Fail?
    ensures var op := code[m.pc];
            && Info(op).Some?
            && m.gas >= Info(op).value.fee
            && Info(op).value.ins <= |m.stack|
            && |m.stack| - Info(op).value.ins + Info(op).value.outs <= 1024
            && Step(env, msg, code, m, w)
               == Exec(env, msg, code, m.(gas := m.gas - Info(op).value.fee, pc := m.pc + 1), w, op)
  {
  }

  // ---- frames ----

  /** Outcome of a frame. `overdrawn` records that it, or a frame below it, ran off the end of its code
      directly behind a LOG instruction; the program itself does not look at it. */
  datatype Result = Result(success: bool, gas: int, data: Bytes, world: World, overdrawn: bool)

  /** Outcome of a contract creation; addr is meaningful on success, data on failure. */
  datatype Created = Created(success: bool, gas: int, addr: Address, data: Bytes, world: World, overdrawn: bool)

  function DepthLeft(depth: nat): nat {
    if depth <= MAX_DEPTH then MAX_DEPTH - depth else 0
  }

  function GasRank(gas: int): nat {
    if gas < 0 then 0 else gas + 1
  }

  function Max0(x: int): nat { if x < 0 then 0 else x }

  /** The loop of `vm_execute` from machine state m. */
  function Execute(env: Env, msg: Message, code: Bytes, m: Machine, w: World, afterLog: bool): (r: Result)
    requires SoundEnv(env)
    ensures r.gas <= Max0(m.gas)
    decreases DepthLeft(msg.depth), 0, GasRank(m.gas)
  {
    if m.pc >= |code| then Result(true, m.gas, [], w, afterLog)
    else
      StepGas(env, msg, code, m, w);
      match Step(env, msg, code, m, w)
      case Fail => Result(false, 0, [], w, false)
      case Halt(success, gas, data, w') => Result(success, gas, data, w', false)
      case Next(m', w') => Execute(env, msg, code, m', w', IsLog(code[m.pc]))
      case Invoke(m', call, outStart, outSize) =>
        var sub := ApplyMsg(env, call, CalledCode(w, call), w);
        var r := Execute(env, msg, code, AfterCall(m', sub.success, sub.gas, sub.data, outStart, outSize), sub.world, false);
        r.(overdrawn := r.overdrawn || sub.overdrawn)
      case Create(m', call) =>
        var sub := CreateContract(env, call, w);
        var r := Execute(env, msg, code, AfterCreate(m', call.gas, sub.success, sub.gas, sub.addr, sub.data), sub.world, false);
        r.(overdrawn := r.overdrawn || sub.overdrawn)
  }

  function CalledCode(w: World, call: Message): Bytes {
    if call.codeAddress.Some? then GetCode(w, call.codeAddress.value) else []
  }

  function Start(gas: int): Machine { Machine(0, gas, [], [], []) }

  /** Transfer, run, and restore the world when the run reports failure. */
  function ApplyMsg(env: Env, msg: Message, code: Bytes, w: World): (r: Result)
    requires SoundEnv(env)
    ensures r.gas <= Max0(msg.gas)
    decreases DepthLeft(msg.depth), 1, 0
  {
    match if msg.transfersValue then TransferValue(w, msg.sender, msg.to, msg.value) else Some(w)
    case None => Result(true, msg.gas, [], w, false)
    case Some(w1) =>
      var r := RunCode(env, msg, code, w1);
      if r.success then r else r.(world := w)
  }

  /** A precompiled contract or the interpreter. */
  function RunCode(env: Env, msg: Message, code: Bytes, w: World): (r: Result)
    requires SoundEnv(env)
    ensures r.gas <= Max0(msg.gas)
    decreases DepthLeft(msg.depth), 0, GasRank(msg.gas) + 1
  {
    if msg.codeAddress.Some? && msg.gas >= 0 && env.isSpecial(msg.codeAddress.value) then
      var p := env.special(msg.codeAddress.value, msg.data, msg.gas);
      Result(p.success, p.gas, p.data, w, false)
    else Execute(env, msg, code, Start(msg.gas), w, false)
  }

  /** The world in which the new contract's code runs is prepared: nonce of the creator, address, old nonce and code. */
  function CreateSetup(env: Env, msg: Message, w: World): (World, Address) {
    var w1 := if env.txOrigin != msg.sender then IncrementNonce(w, msg.sender) else w;
    var to := if env.constantinople && msg.sender == NULL_ADDRESS then env.contractAddress(msg.sender, 0)
              else env.contractAddress(msg.sender, GetNonce(w1, msg.sender) - 1);
    (w1, to)
  }

  predicate Occupied(env: Env, w: World, a: Address) {
    env.metropolis && (GetNonce(w, a) != 0 || GetCode(w, a) != [])
  }

  /** An address that already holds ether is cleared of nonce and code. */
  function ClearTarget(w: World, a: Address): World {
    if GetBalance(w, a) > 0 then SetCode(SetNonce(SetBalance(w, a, GetBalance(w, a)), a, 0), a, []) else w
  }

  function CreateContract(env: Env, msg: Message, w: World): (r: Created)
    requires SoundEnv(env)
    ensures r.gas <= Max0(msg.gas)
    decreases DepthLeft(msg.depth), 2, 0
  {
    var code := ExtractAll(msg.data);
    var (w1, to) := CreateSetup(env, msg, w);
    if Occupied(env, w1, to) then Created(false, 0, to, [], w1, false)
    else
      var w2 := ClearTarget(w1, to);
      var msg' := msg.(to := to, data := CallData([], 0, 0));
      var r := ApplyMsg(env, msg', code, SetNonce(w2, to, if env.spuriousDragon then 1 else 0));
      FinishCreate(env, to, r, w2)
  }

  /** Pays for and installs the returned code; w2 is the world of the snapshot. */
  function FinishCreate(env: Env, to: Address, r: Result, w2: World): Created {
    if !r.success then Created(false, r.gas, to, r.data, w2, r.overdrawn)
    else if r.data == [] then Created(true, r.gas, to, [], r.world, r.overdrawn)
    else
      var gcost := |r.data| * GCONTRACTBYTE;
      if r.gas >= gcost && (|r.data| <= 24576 || !env.spuriousDragon) then
        Created(true, r.gas - gcost, to, [], SetCode(r.world, to, r.data), r.overdrawn)
      else if env.homestead then Created(false, 0, to, [], w2, r.overdrawn)
      else Created(true, r.gas, to, [], SetCode(r.world, to, []), r.overdrawn)
  }
}
