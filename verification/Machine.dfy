/** One instruction of the virtual machine: the effect of every opcode inside a frame. */
module Machine {
  import opened ByteStrings
  import opened BigEndian
  import opened Words
  import opened Opcodes
  import opened World

  datatype Machine = Machine(pc: nat, gas: int, stack: seq<Word>, mem: Bytes, last: Bytes)

  /** What an instruction does: end the frame with an exception, end it with a result, go on,
      or hand over to another frame. */
  datatype Effect =
    | Fail
    | Halt(success: bool, gas: int, data: Bytes, world: World)
    | Next(m: Machine, world: World)
    | Invoke(m: Machine, call: Message, outStart: nat, outSize: nat)
    | Create(m: Machine, call: Message)

  // ---- memory ----

  function MemFee(words: nat): nat {
    words * GMEMORY + words * words / GQUADRATICMEMDENOM
  }

  lemma MemFeeGrows(a: nat, b: nat)
    requires a <= b
    ensures MemFee(a) <= MemFee(b)
    ensures a < b ==> MemFee(a) < MemFee(b)
  {
    assert b * b - a * a == (b - a) * (b + a);
    assert (b - a) * (b + a) >= 0;
    assert a * a <= b * b;
  }

  datatype Extension = NoGas | Extended(gas: int, mem: Bytes)

  /** Grows memory to whole words and pays the difference of the total fees. */
  function MemExtend(mem: Bytes, gas: int, start: nat, sz: nat): (r: Extension)
    ensures r.Extended? ==> r.gas <= gas && |r.mem| >= |mem| && (sz > 0 ==> start + sz <= |r.mem|)
    ensures r.Extended? && gas >= 0 ==> r.gas >= 0
  {
    if sz != 0 && start + sz > |mem| then
      var oldsize := |mem| / 32;
      var newsize := Ceil32(start + sz) / 32;
      MemFeeGrows(oldsize, newsize);
      var memfee := MemFee(newsize) - MemFee(oldsize);
      if gas < memfee then NoGas
      else Extended(gas - memfee, mem + Zeros((newsize - oldsize) * 32))
    else Extended(gas, mem)
  }

  /** The memory invariant: whole words, and what was paid is the total fee for them. */
  lemma MemExtendPays(mem: Bytes, gas: int, start: nat, sz: nat)
    requires |mem| % 32 == 0
    ensures var r := MemExtend(mem, gas, start, sz);
            r.Extended? ==> |r.mem| % 32 == 0 && gas - r.gas == MemFee(|r.mem| / 32) - MemFee(|mem| / 32)
  {
    if sz != 0 && start + sz > |mem| {
      var newsize := Ceil32(start + sz) / 32;
      assert |mem| + (newsize - |mem| / 32) * 32 == newsize * 32;
    }
  }

  /** `mem[start + i] = src[s2 + i]`, with zero beyond the source, for i below size. */
  function CopyTo(mem: Bytes, start: nat, src: Bytes, s2: nat, size: nat): (r: Bytes)
    requires size > 0 ==> start + size <= |mem|
    ensures |r| == |mem|
  {
    if size == 0 then mem else mem[..start] + Window(src, s2, size) + mem[start + size..]
  }

  function CopyFee(size: nat): nat {
    GCOPY * Ceil32(size) / 32
  }

  function AllBut1N(x: nat, n: nat): (r: nat)
    requires n > 0
    ensures r <= x
  {
    DivBelow(x, n);
    x - x / n
  }

  // ---- stack ----

  /** The k-th argument from the top of the stack. */
  function Arg(stack: seq<Word>, k: nat): Word
    requires k < |stack|
  {
    stack[|stack| - 1 - k]
  }

  function Popped(stack: seq<Word>, n: nat): seq<Word>
    requires n <= |stack|
  {
    stack[..|stack| - n]
  }

  /** Replaces n arguments by one result. */
  function Reply(m: Machine, n: nat, v: Word): Machine
    requires n <= |m.stack|
  {
    m.(stack := Popped(m.stack, n) + [v])
  }

  // ---- code ----

  /** The instruction after the one at i. */
  function NextInstr(code: Bytes, i: nat): (j: nat)
    requires i < |code|
    ensures j > i
  {
    if IsPush(code[i]) then i + (code[i] - 0x5e) else i + 1
  }

  /** i is reached from the instruction at p by stepping over push data. */
  predicate StartsFrom(code: Bytes, p: nat, i: nat)
    decreases |code| + 33 - p
  {
    p == i || (p < i && p < |code| && StartsFrom(code, NextInstr(code, p), i))
  }

  /** i is the start of an instruction. */
  predicate IsStart(code: Bytes, i: nat) {
    StartsFrom(code, 0, i)
  }

  lemma {:induction false} StartsChain(code: Bytes, q: nat, p: nat)
    requires p < |code| && StartsFrom(code, q, p)
    ensures StartsFrom(code, q, NextInstr(code, p))
    decreases |code| + 33 - q
  {
    if q != p {
      StartsChain(code, NextInstr(code, q), p);
    }
  }

  /** No instruction starts strictly inside another one. */
  lemma {:induction false} NoStartInside(code: Bytes, q: nat, p: nat, i: nat)
    requires p < |code| && StartsFrom(code, q, p) && p < i < NextInstr(code, p)
    ensures !StartsFrom(code, q, i)
    decreases |code| + 33 - q
  {
    if q != p {
      NoStartInside(code, NextInstr(code, q), p, i);
    }
  }

  predicate ValidJump(code: Bytes, i: nat) {
    i < |code| && code[i] == JUMPDEST && IsStart(code, i)
  }

  /** The word pushed by the instruction at i; code is zero-extended. */
  function PushValue(code: Bytes, i: nat): Word
    requires i < |code| && IsPush(code[i])
  {
    WordOf(Window(code, i + 1, code[i] - 0x5f))
  }

  // ---- instructions without effect on memory, storage or other frames ----

  function Arithmetic(op: Byte, s: seq<Word>): Word
    requires op < 0x10 && op != STOP && op != EXP && Info(op).Some? && |s| >= Info(op).value.ins
  {
    var s0, s1 := Arg(s, 0), Arg(s, 1);
    if op == 0x01 then Mask((s0 as int) + s1)
    else if op == 0x02 then Mask((s0 as int) * s1)
    else if op == 0x03 then Mask((s0 as int) - s1)
    else if op == 0x04 then Div(s0, s1)
    else if op == 0x05 then SDiv(s0, s1)
    else if op == 0x06 then Mod(s0, s1)
    else if op == 0x07 then SMod(s0, s1)
    else if op == 0x08 then ModBelow((s0 as int) + s1, Arg(s, 2))
    else if op == 0x09 then ModBelow((s0 as int) * s1, Arg(s, 2))
    else SignExtend(s0, s1)
  }

  function Comparison(op: Byte, s: seq<Word>): Word
    requires 0x10 <= op < 0x20 && Info(op).Some? && |s| >= Info(op).value.ins
  {
    var s0 := Arg(s, 0);
    if op == 0x15 then Bool(s0 == 0)
    else if op == 0x19 then TT256 - 1 - s0
    else
      var s1 := Arg(s, 1);
      if op == 0x10 then Bool(s0 < s1)
      else if op == 0x11 then Bool(s0 > s1)
      else if op == 0x12 then Bool(ToSigned(s0) < ToSigned(s1))
      else if op == 0x13 then Bool(ToSigned(s0) > ToSigned(s1))
      else if op == 0x14 then Bool(s0 == s1)
      else if op == 0x16 then And(s0, s1)
      else if op == 0x17 then OrWord(s0, s1)
      else if op == 0x18 then XorWord(s0, s1)
      else ByteAt(s0, s1)
  }

  /** Words read from the environment; lengths and gas fit a word. */
  function Environment(env: Env, msg: Message, code: Bytes, m: Machine, op: Byte): Word
    requires Info(op).Some? && |m.stack| >= Info(op).value.ins
    requires (0x30 <= op <= 0x3d && Info(op).value.outs == 1 && op != BALANCE && op != EXTCODESIZE)
          || 0x40 <= op <= 0x45 || 0x58 <= op <= 0x5a
  {
    if op == 0x30 then msg.to
    else if op == 0x32 then env.txOrigin
    else if op == 0x33 then msg.sender
    else if op == 0x34 then msg.value
    else if op == 0x35 then Extract32(msg.data, Arg(m.stack, 0))
    else if op == 0x36 then Mask(msg.data.size)
    else if op == 0x38 then Mask(|code|)
    else if op == 0x3a then env.txGasPrice
    else if op == 0x3d then Mask(|m.last|)
    else if op == 0x40 then env.blockHash(Arg(m.stack, 0))
    else if op == 0x41 then env.coinbase
    else if op == 0x42 then env.timestamp
    else if op == 0x43 then env.number
    else if op == 0x44 then env.difficulty
    else if op == 0x45 then env.gasLimit
    else if op == PC then Mask(m.pc - 1)
    else if op == 0x59 then Mask(|m.mem|)
    else Mask(m.gas)
  }

  // ---- the effect of one instruction, after its base fee and the stack checks ----

  /** pc already stands behind the opcode byte. */
  function Exec(env: Env, msg: Message, code: Bytes, m: Machine, w: World, op: Byte): Effect
    requires m.gas >= 0
    requires Info(op).Some? && |m.stack| >= Info(op).value.ins && 0 < m.pc <= |code| && code[m.pc - 1] == op
  {
    if IsPush(op) then
      Next(m.(stack := m.stack + [PushValue(code, m.pc - 1)], pc := m.pc + (op - 0x5f)), w)
    else if op == STOP then Halt(true, m.gas, [], w)
    else if op == EXP then ExecExp(env, m, w)
    else if op < 0x10 then Next(Reply(m, Info(op).value.ins, Arithmetic(op, m.stack)), w)
    else if op < 0x20 then Next(Reply(m, Info(op).value.ins, Comparison(op, m.stack)), w)
    else if op < 0x50 then ExecEnvironment(env, msg, code, m, w, op)
    else if op < 0x60 then ExecMachine(env, msg, code, m, w, op)
    else if op < 0x90 then Next(Reply(m, 0, Arg(m.stack, op - 0x80)), w)
    else if op < 0xa0 then Next(m.(stack := Swap(m.stack, op - 0x8f)), w)
    else if op <= 0xa4 then ExecLog(msg, m, w, op - 0xa0)
    else if op == CREATE then ExecCreate(env, msg, m, w)
    else if op == CALL || op == CALLCODE || op == DELEGATECALL || op == STATICCALL then ExecCall(env, msg, m, w, op)
    else if op == RETURN then ExecReturn(m, w, true)
    else if op == REVERT then if env.metropolis then ExecReturn(m, w, false) else Fail
    else if op == SUICIDE then ExecSuicide(env, msg, m, w)
    else Next(m, w)
  }

  /** Exchanges the top of the stack with the k-th word below it. */
  function Swap(stack: seq<Word>, k: nat): seq<Word>
    requires k < |stack|
  {
    var top := |stack| - 1;
    stack[top - k := stack[top]][top := stack[top - k]]
  }

  /** Bytes of an encoded integer; the encoder writes 0 as no byte or as one, depending on the library behind it. */
  function EncodedBytes(env: Env, n: nat): nat {
    if n == 0 then env.zeroBytes else ByteLength(n)
  }

  function ExecExp(env: Env, m: Machine, w: World): Effect
    requires |m.stack| >= 2
  {
    var base, exponent := Arg(m.stack, 0), Arg(m.stack, 1);
    var nbytes := EncodedBytes(env, exponent);
    var expfee := nbytes * GEXPONENTBYTE + if env.spuriousDragon then EXP_SUPPLEMENTAL_GAS * nbytes else 0;
    if m.gas < expfee then Fail
    else Next(Reply(m, 2, Mask(Power(base, exponent))).(gas := m.gas - expfee), w)
  }

  /** An amount charged from the anti-DoS fork on. */
  function Supplement(env: Env, amount: nat): nat {
    if env.antiDos then amount else 0
  }

  function ExecEnvironment(env: Env, msg: Message, code: Bytes, m: Machine, w: World, op: Byte): Effect
    requires 0x20 <= op < 0x50 && Info(op).Some? && |m.stack| >= Info(op).value.ins
  {
    var s := m.stack;
    if op == SHA3 then ExecSha3(env, m, w)
    else if op == BALANCE then ExecBalance(env, m, w)
    else if op == EXTCODESIZE then ExecExtcodesize(env, m, w)
    else if op == CALLDATACOPY then CopyOp(m, w, 3, m.gas, Arg(s, 0), ExtractAll(msg.data), Arg(s, 1), Arg(s, 2))
    else if op == CODECOPY then CopyOp(m, w, 3, m.gas, Arg(s, 0), code, Arg(s, 1), Arg(s, 2))
    else if op == RETURNDATACOPY then ExecReturndatacopy(m, w)
    else if op == EXTCODECOPY then ExecExtcodecopy(env, m, w)
    else Next(Reply(m, Info(op).value.ins, Environment(env, msg, code, m, op)), w)
  }

  function ExecSha3(env: Env, m: Machine, w: World): Effect
    requires |m.stack| >= 2
  {
    var s0, s1 := Arg(m.stack, 0), Arg(m.stack, 1);
    var g := m.gas - GSHA3WORD * (Ceil32(s1) / 32);
    if g < 0 then Fail
    else
      match MemExtend(m.mem, g, s0, s1)
      case NoGas => Fail
      case Extended(gas, mem) => Next(Reply(m, 2, env.sha3(Slice(mem, s0, (s0 as int) + s1))).(gas := gas, mem := mem), w)
  }

  function ExecBalance(env: Env, m: Machine, w: World): Effect
    requires |m.stack| >= 1
  {
    var fee := Supplement(env, BALANCE_SUPPLEMENTAL_GAS);
    if m.gas < fee then Fail
    else Next(Reply(m, 1, Mask(GetBalance(w, Arg(m.stack, 0) % TT160))).(gas := m.gas - fee), w)
  }

  function ExecExtcodesize(env: Env, m: Machine, w: World): Effect
    requires |m.stack| >= 1
  {
    var fee := Supplement(env, EXTCODELOAD_SUPPLEMENTAL_GAS);
    if m.gas < fee then Fail
    else Next(Reply(m, 1, Mask(|GetCode(w, Arg(m.stack, 0) % TT160)|)).(gas := m.gas - fee), w)
  }

  function ExecReturndatacopy(m: Machine, w: World): Effect
    requires |m.stack| >= 3
  {
    var s := m.stack;
    var done := CopyOp(m, w, 3, m.gas, Arg(s, 0), m.last, Arg(s, 1), Arg(s, 2));
    if done.Fail? || (Arg(s, 1) as int) + Arg(s, 2) > |m.last| then Fail else done
  }

  function ExecExtcodecopy(env: Env, m: Machine, w: World): Effect
    requires |m.stack| >= 4
  {
    var s := m.stack;
    var fee := Supplement(env, EXTCODELOAD_SUPPLEMENTAL_GAS);
    if m.gas < fee then Fail
    else CopyOp(m, w, 4, m.gas - fee, Arg(s, 1), GetCode(w, Arg(s, 0) % TT160), Arg(s, 2), Arg(s, 3))
  }

  /** Extends memory, pays the copy fee and copies; n arguments are popped. */
  function CopyOp(m: Machine, w: World, n: nat, gas: int, start: nat, src: Bytes, s2: nat, size: nat): Effect
    requires n <= |m.stack|
  {
    match MemExtend(m.mem, gas, start, size)
    case NoGas => Fail
    case Extended(g, mem) =>
      if g < CopyFee(size) then Fail
      else Next(m.(stack := Popped(m.stack, n), gas := g - CopyFee(size), mem := CopyTo(mem, start, src, s2, size)), w)
  }

  function ExecMachine(env: Env, msg: Message, code: Bytes, m: Machine, w: World, op: Byte): Effect
    requires 0x50 <= op < 0x60 && Info(op).Some? && |m.stack| >= Info(op).value.ins && m.pc > 0
  {
    var s := m.stack;
    if op == POP then Next(m.(stack := Popped(s, 1)), w)
    else if op == MLOAD || op == MSTORE || op == MSTORE8 then ExecMemory(m, w, op)
    else if op == SLOAD then ExecSload(env, msg, m, w)
    else if op == SSTORE then ExecSstore(msg, m, w)
    else if op == JUMP || op == JUMPI then ExecJump(code, m, w, op == JUMPI)
    else if op == JUMPDEST then Next(m, w)
    else Next(Reply(m, 0, Environment(env, msg, code, m, op)), w)
  }

  function ExecMemory(m: Machine, w: World, op: Byte): Effect
    requires |m.stack| >= if op == MLOAD then 1 else 2
  {
    var s := m.stack;
    match MemExtend(m.mem, m.gas, Arg(s, 0), if op == MSTORE8 then 1 else 32)
    case NoGas => Fail
    case Extended(gas, mem) =>
      if op == MLOAD then Next(Reply(m, 1, WordOf(Window(mem, Arg(s, 0), 32))).(gas := gas, mem := mem), w)
      else if op == MSTORE then
        Next(m.(stack := Popped(s, 2), gas := gas, mem := CopyTo(mem, Arg(s, 0), EncodeInt32(Arg(s, 1)), 0, 32)), w)
      else
        Next(m.(stack := Popped(s, 2), gas := gas, mem := CopyTo(mem, Arg(s, 0), [Arg(s, 1) % 256], 0, 1)), w)
  }

  function ExecSload(env: Env, msg: Message, m: Machine, w: World): Effect
    requires |m.stack| >= 1
  {
    var fee := Supplement(env, SLOAD_SUPPLEMENTAL_GAS);
    if m.gas < fee then Fail
    else Next(Reply(m, 1, GetStorage(w, msg.to, Arg(m.stack, 0))).(gas := m.gas - fee), w)
  }

  function ExecJump(code: Bytes, m: Machine, w: World, conditional: bool): Effect
    requires |m.stack| >= if conditional then 2 else 1
  {
    var s := m.stack;
    var popped := m.(stack := Popped(s, if conditional then 2 else 1));
    if conditional && Arg(s, 1) == 0 then Next(popped, w)
    else if ValidJump(code, Arg(s, 0)) then Next(popped.(pc := Arg(s, 0)), w)
    else Fail
  }

  function ExecSstore(msg: Message, m: Machine, w: World): Effect
    requires |m.stack| >= 2
  {
    var s0, s1 := Arg(m.stack, 0), Arg(m.stack, 1);
    if msg.isStatic then Fail
    else
      var present := GetStorage(w, msg.to, s0) != 0;
      var gascost := if present then (if s1 != 0 then GSTORAGEMOD else GSTORAGEKILL)
                     else if s1 != 0 then GSTORAGEADD else GSTORAGEMOD;
      var refund := if present && s1 == 0 then GSTORAGEREFUND else 0;
      if m.gas < gascost then Fail
      else Next(m.(stack := Popped(m.stack, 2), gas := m.gas - gascost),
                SetStorage(AddRefund(w, refund), msg.to, s0, s1))
  }

  /** The k words below the first two arguments, topmost first. */
  function Topics(stack: seq<Word>, k: nat): (t: seq<Word>)
    requires k + 2 <= |stack|
    ensures |t| == k
  {
    seq(k, i requires 0 <= i < k => Arg(stack, 2 + i))
  }

  /** The fee for the data is taken without a check. */
  function ExecLog(msg: Message, m: Machine, w: World, depth: nat): Effect
    requires |m.stack| >= depth + 2
  {
    var mstart, msz := Arg(m.stack, 0), Arg(m.stack, 1);
    if msg.isStatic then Fail
    else
      match MemExtend(m.mem, m.gas - msz * GLOGBYTE, mstart, msz)
      case NoGas => Fail
      case Extended(gas, mem) =>
        Next(m.(stack := Popped(m.stack, depth + 2), gas := gas, mem := mem),
             AddLog(w, Log(msg.to, Topics(m.stack, depth), Slice(mem, mstart, mstart + msz))))
  }

  function ExecReturn(m: Machine, w: World, success: bool): Effect
    requires |m.stack| >= 2
  {
    var s0, s1 := Arg(m.stack, 0), Arg(m.stack, 1);
    match MemExtend(m.mem, m.gas, s0, s1)
    case NoGas => Fail
    case Extended(gas, mem) => Halt(success, gas, Slice(mem, s0, s0 + s1), w)
  }

  function ExecSuicide(env: Env, msg: Message, m: Machine, w: World): Effect
    requires |m.stack| >= 1
  {
    if msg.isStatic then Fail
    else
      var to: Address := Arg(m.stack, 0) % TT160;
      var xfer := GetBalance(w, msg.to);
      var newAccount := !AccountExists(env, w, to) && (xfer > 0 || !env.spuriousDragon);
      var extraGas := Supplement(env, SUICIDE_SUPPLEMENTAL_GAS + if newAccount then GCALLNEWACCOUNT else 0);
      if m.gas < extraGas then Fail
      else
        var w1 := SetBalance(w, to, GetBalance(w, to) + xfer);
        Halt(true, m.gas - extraGas, [], AddSuicide(SetBalance(w1, msg.to, 0), msg.to))
  }

  // ---- handing over to another frame ----

  function ExecCreate(env: Env, msg: Message, m: Machine, w: World): Effect
    requires |m.stack| >= 3 && m.gas >= 0
  {
    var value, mstart, msz := Arg(m.stack, 0), Arg(m.stack, 1), Arg(m.stack, 2);
    match MemExtend(m.mem, m.gas, mstart, msz)
    case NoGas => Fail
    case Extended(gas, mem) =>
      if msg.isStatic then Fail
      else
        SendCreate(env, msg, m.(stack := Popped(m.stack, 3), gas := gas, mem := mem), w, value, CallData(mem, mstart, msz))
  }

  function SendCreate(env: Env, msg: Message, m: Machine, w: World, value: Word, cd: CallData): Effect
    requires m.gas >= 0
  {
    if GetBalance(w, msg.to) >= value && msg.depth < MAX_DEPTH then
      var ingas := if env.antiDos then AllBut1N(m.gas, CALL_CHILD_LIMIT_DENOM) else m.gas;
      Create(m, Message(msg.to, 0, value, ingas, cd, msg.depth + 1, None, true, false))
    else Next(m.(stack := m.stack + [0], last := []), w)
  }

  /** Gas for reaching an account, for a transfer and since the anti-DoS fork. */
  function ExtraGas(env: Env, w: World, op: Byte, to: Address, value: Word): nat {
    (if op == CALL && !AccountExists(env, w, to) && (value > 0 || !env.spuriousDragon) then GCALLNEWACCOUNT else 0)
    + (if value > 0 then GCALLVALUETRANSFER else 0)
    + Supplement(env, CALL_SUPPLEMENTAL_GAS)
  }

  function ExecCall(env: Env, msg: Message, m: Machine, w: World, op: Byte): Effect
    requires op == CALL || op == CALLCODE || op == DELEGATECALL || op == STATICCALL
    requires |m.stack| >= Info(op).value.ins
  {
    var s := m.stack;
    var hasValue := op == CALL || op == CALLCODE;
    var k := if hasValue then 3 else 2;
    var value: Word := if hasValue then Arg(s, 2) else 0;
    var meminstart, meminsz := Arg(s, k), Arg(s, k + 1);
    var memoutstart, memoutsz := Arg(s, k + 2), Arg(s, k + 3);
    if msg.isStatic && value > 0 && op == CALL then Fail
    else
      match MemExtend(m.mem, m.gas, meminstart, meminsz)
      case NoGas => Fail
      case Extended(g1, mem1) =>
        match MemExtend(mem1, g1, memoutstart, memoutsz)
        case NoGas => Fail
        case Extended(g2, mem2) =>
          var m1 := m.(stack := Popped(s, k + 4), gas := g2, mem := mem2);
          CallWith(env, msg, m1, w, op, Arg(s, 0), Arg(s, 1) % TT160, value,
                   CallData(mem2, meminstart, meminsz), memoutstart, memoutsz)
  }

  /** The gas a call may pass on; None when the caller cannot pay. */
  function CallGasLimit(env: Env, available: int, askedGas: Word, extraGas: nat): (r: Option<int>)
    ensures r.Some? ==> 0 <= r.value && r.value + extraGas <= available
  {
    if available < extraGas || (!env.antiDos && available < askedGas as int + extraGas) then None
    else
      var limit: int := AllBut1N(available - extraGas, CALL_CHILD_LIMIT_DENOM);
      Some(if env.antiDos && limit < askedGas then limit else askedGas)
  }

  /** The message of a call; None when its opcode is not active yet. */
  function CallMessage(env: Env, msg: Message, op: Byte, to: Address, value: Word, gas: int, cd: CallData): Option<Message> {
    var depth := msg.depth + 1;
    if op == CALL then Some(Message(msg.to, to, value, gas, cd, depth, Some(to), true, msg.isStatic))
    else if op == DELEGATECALL && env.homestead then
      Some(Message(msg.sender, msg.to, msg.value, gas, cd, depth, Some(to), false, msg.isStatic))
    else if op == STATICCALL && env.metropolis then
      Some(Message(msg.to, to, value, gas, cd, depth, Some(to), true, true))
    else if op == CALLCODE then
      Some(Message(msg.to, msg.to, value, gas, cd, depth, Some(to), true, msg.isStatic))
    else None
  }

  function CallWith(env: Env, msg: Message, m: Machine, w: World, op: Byte, askedGas: Word, to: Address, value: Word,
      cd: CallData, memoutstart: nat, memoutsz: nat): Effect
  {
    var extraGas := ExtraGas(env, w, op, to, value);
    match CallGasLimit(env, m.gas, askedGas, extraGas)
    case None => Fail
    case Some(gas) => SendCall(env, msg, m, w, op, gas, extraGas, to, value, cd, memoutstart, memoutsz)
  }

  /** Balance and depth decide whether the message is sent. */
  function SendCall(env: Env, msg: Message, m: Machine, w: World, op: Byte, gas: int, extraGas: nat, to: Address,
      value: Word, cd: CallData, memoutstart: nat, memoutsz: nat): Effect
  {
    var submsgGas := gas + if value > 0 then GSTIPEND else 0;
    if GetBalance(w, msg.to) < value || msg.depth >= MAX_DEPTH then
      Next(m.(stack := m.stack + [0], gas := m.gas - (gas + extraGas - submsgGas), last := []), w)
    else
      match CallMessage(env, msg, op, to, value, submsgGas, cd)
      case None => Fail
      case Some(call) => Invoke(m.(gas := m.gas - (gas + extraGas)), call, memoutstart, memoutsz)
  }

  // ---- one step of the loop ----

  /** Fetch, base fee, stack checks, effect. */
  function Step(env: Env, msg: Message, code: Bytes, m: Machine, w: World): Effect
    requires m.pc < |code|
  {
    var op := code[m.pc];
    match Info(op)
    case None => Fail
    case Some(info) =>
      if IsMetropolis(op) && !env.metropolis then Fail
      else if m.gas - info.fee < 0 then Fail
      else if info.ins > |m.stack| then Fail
      else if |m.stack| - info.ins + info.outs > 1024 then Fail
      else Exec(env, msg, code, m.(gas := m.gas - info.fee, pc := m.pc + 1), w, op)
  }

  /** The caller after a call has returned: the flag, the output window, the gas given back. */
  function AfterCall(m: Machine, success: bool, gas: int, data: Bytes, outStart: nat, outSize: nat): Machine {
    var n := if |data| < outSize then |data| else outSize;
    m.(stack := m.stack + [Bool(success)],
       mem := if n > 0 && outStart + n <= |m.mem| then CopyTo(m.mem, outStart, data, 0, n) else m.mem,
       gas := m.gas + gas, last := data)
  }

  function AfterCreate(m: Machine, ingas: int, success: bool, gas: int, addr: Address, data: Bytes): Machine {
    m.(stack := m.stack + [if success then addr else 0],
       gas := m.gas - ingas + gas,
       last := if success then [] else data)
  }
}
