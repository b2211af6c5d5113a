/** The chunked interpreter of ethereum/fastvm.py and its refinement of the step-by-step one. */
module FastVm {
  import opened ByteStrings
  import opened BigEndian
  import opened Words
  import opened Opcodes
  import opened World
  import opened Machine
  import opened Evm

  /** One preprocessed instruction with its push value. */
  datatype ChunkOp = ChunkOp(op: Byte, pushval: Word)

  /** A straight-line piece of code: instructions, least and greatest stack height on entry, base fees, next position. */
  datatype Chunk = Chunk(ops: seq<ChunkOp>, minstack: int, maxstack: int, gascost: nat, next: nat)

  /** Undefined opcodes count as free instructions without arguments. */
  function ChunkInfo(op: Byte): OpInfo {
    if Info(op).Some? then Info(op).value else OpInfo(0, 0, 0)
  }

  predicate IsBreak(op: Byte) {
    || Info(op).None?
    || op == JUMP || op == GAS || op == JUMPI || op == CALL || op == CREATE || op == CALLCODE || op == DELEGATECALL
    || op == STATICCALL || op == SUICIDE || op == RETURN || op == REVERT || op == STOP
  }

  predicate StartsChunk(op: Byte) { op == JUMPDEST || op == PC }

  /** The instructions both interpreters treat alike. */
  predicate Supported(op: Byte) {
    || Info(op).None?
    || IsPush(op)
    || 0x80 <= op < 0xa0
    || (op < 0x20 && op != EXP)
    || (0x50 <= op < 0x60 && op != PC)
    || op == RETURN
    || op == 0x30 || (0x32 <= op <= 0x36) || op == 0x38 || op == 0x3a || (0x40 <= op <= 0x45)
  }

  predicate SupportedCode(code: Bytes) {
    forall i :: 0 <= i < |code| && IsStart(code, i) ==> Supported(code[i])
  }

  // ---- chunk summaries ----

  /** Running totals over a chunk: least height needed, greatest rise, net rise, fees. */
  datatype Summary = Summary(minstack: int, maxstack: int, stack: int, gascost: nat)

  function Max(a: int, b: int): int { if a < b then b else a }

  function AddOp(s: Summary, op: Byte): Summary {
    var info := ChunkInfo(op);
    var stack := s.stack + info.outs - info.ins;
    Summary(Max(info.ins - s.stack, s.minstack), Max(stack, s.maxstack), stack, s.gascost + info.fee)
  }

  function Summarize(ops: seq<ChunkOp>): Summary {
    if ops == [] then Summary(0, 0, 0, 0)
    else AddOp(Summarize(ops[..|ops| - 1]), ops[|ops| - 1].op)
  }

  function Fees(ops: seq<ChunkOp>): nat {
    if ops == [] then 0 else ChunkInfo(ops[0].op).fee + Fees(ops[1..])
  }

  /** Every instruction is defined and passes its own checks, when dynamic costs are left out. */
  predicate StaticOk(ops: seq<ChunkOp>, height: int, gas: int) {
    ops == [] ||
    (var info := ChunkInfo(ops[0].op);
     && Info(ops[0].op).Some?
     && info.fee <= gas
     && info.ins <= height
     && height - info.ins + info.outs <= 1024
     && StaticOk(ops[1..], height - info.ins + info.outs, gas - info.fee))
  }

  lemma {:induction false} StaticOkFees(ops: seq<ChunkOp>, height: int, gas: int)
    requires gas >= 0 && StaticOk(ops, height, gas)
    ensures Fees(ops) <= gas
  {
    if ops != [] {
      var info := ChunkInfo(ops[0].op);
      StaticOkFees(ops[1..], height - info.ins + info.outs, gas - info.fee);
    }
  }

  lemma {:induction false} StaticOkMoreGas(ops: seq<ChunkOp>, height: int, gas: int, gas': int)
    requires StaticOk(ops, height, gas) && gas <= gas'
    ensures StaticOk(ops, height, gas')
  {
    if ops != [] {
      var info := ChunkInfo(ops[0].op);
      StaticOkMoreGas(ops[1..], height - info.ins + info.outs, gas - info.fee, gas' - info.fee);
    }
  }

  /** Checking one more instruction at the end. */
  lemma {:induction false} StaticOkSnoc(ops: seq<ChunkOp>, op: ChunkOp, height: int, gas: int)
    ensures var info := ChunkInfo(op.op);
            var s := Summarize(ops);
            StaticOk(ops + [op], height, gas) <==>
              && StaticOk(ops, height, gas)
              && Info(op.op).Some?
              && info.fee <= gas - s.gascost
              && info.ins <= height + s.stack
              && height + s.stack - info.ins + info.outs <= 1024
    decreases |ops|
  {
    var all := ops + [op];
    if ops == [] {
      assert all[1..] == [];
    } else {
      assert all[1..] == ops[1..] + [op];
      var info := ChunkInfo(ops[0].op);
      StaticOkSnoc(ops[1..], op, height - info.ins + info.outs, gas - info.fee);
      SummarizeCons(ops);
    }
  }

  /** The totals split off the first instruction. */
  lemma {:induction false} SummarizeCons(ops: seq<ChunkOp>)
    requires ops != []
    ensures var info := ChunkInfo(ops[0].op);
            && Summarize(ops).stack == info.outs - info.ins + Summarize(ops[1..]).stack
            && Summarize(ops).gascost == info.fee + Summarize(ops[1..]).gascost
    decreases |ops|
  {
    if |ops| > 1 {
      assert ops[..|ops| - 1][1..] == ops[1..][..|ops| - 2];
      SummarizeCons(ops[..|ops| - 1]);
    } else {
      assert ops[..0] == [] && ops[1..] == [];
      assert Summarize(ops) == AddOp(Summarize([]), ops[0].op);
    }
  }

  predicate AllDefined(ops: seq<ChunkOp>) {
    forall i :: 0 <= i < |ops| ==> Info(ops[i].op).Some?
  }

  /** The three numbers of a chunk fail exactly when some instruction inside would fail its own check. */
  lemma {:induction false} SummaryExact(ops: seq<ChunkOp>, height: nat, gas: nat)
    requires height <= 1024
    ensures var s := Summarize(ops);
            (s.minstack <= height && height <= 1024 - s.maxstack && s.gascost <= gas && AllDefined(ops))
            <==> StaticOk(ops, height, gas)
    ensures Summarize(ops).minstack >= 0 && Summarize(ops).maxstack >= 0
    decreases |ops|
  {
    if ops != [] {
      var init, last := ops[..|ops| - 1], ops[|ops| - 1];
      assert ops == init + [last];
      SummaryExact(init, height, gas);
      StaticOkSnoc(init, last, height, gas);
      assert AllDefined(ops) <==> AllDefined(init) && Info(last.op).Some? by {
        assert forall i :: 0 <= i < |init| ==> init[i] == ops[i];
        assert ops[|init|] == last;
      }
    }
  }

  lemma {:induction false} SummaryFees(ops: seq<ChunkOp>)
    ensures Summarize(ops).gascost == Fees(ops)
    decreases |ops|
  {
    if ops != [] {
      SummarizeCons(ops);
      SummaryFees(ops[1..]);
    }
  }

  // ---- tables ----

  /** The instructions of the code from position p up to `next`. */
  predicate Matches(code: Bytes, p: nat, ops: seq<ChunkOp>, next: nat)
    decreases |ops|
  {
    if ops == [] then p == next
    else
      && p < |code|
      && ops[0].op == code[p]
      && (IsPush(code[p]) ==> ops[0].pushval == PushValue(code, p))
      && Matches(code, NextInstr(code, p), ops[1..], next)
  }

  /** A chunk is summed up correctly and only its last instruction may leave the straight line. */
  predicate GoodChunk(code: Bytes, start: nat, c: Chunk) {
    && start < |code| && IsStart(code, start) && c.ops != []
    && Matches(code, start, c.ops, c.next)
    && Summarize(c.ops) == Summary(c.minstack, 1024 - c.maxstack, Summarize(c.ops).stack, c.gascost)
    && forall i :: 0 <= i < |c.ops| - 1 ==> !IsBreak(c.ops[i].op)
  }

  /** Chunks cover the code: the entry, every jump destination, and what follows every chunk. */
  predicate GoodTable(code: Bytes, table: map<nat, Chunk>) {
    && (forall p :: p in table ==> GoodChunk(code, p, table[p]))
    && (|code| > 0 ==> 0 in table)
    && (forall p :: 0 <= p < |code| && IsStart(code, p) && code[p] == JUMPDEST ==> p in table)
    && (forall p :: p in table ==> table[p].next in table || table[p].next >= |code|)
  }

  // ---- chunked execution ----

  /** A jump is only checked to land on a JUMPDEST byte. */
  predicate FastJump(code: Bytes, target: nat) {
    target < |code| && code[target] == JUMPDEST
  }

  function FastExec(env: Env, msg: Message, code: Bytes, m: Machine, w: World, o: ChunkOp): Effect
    requires Supported(o.op) && Info(o.op).Some? && |m.stack| >= Info(o.op).value.ins && m.pc > 0
  {
    var op, s := o.op, m.stack;
    if IsPush(op) then Next(m.(stack := s + [o.pushval]), w)
    else if op == STOP then Halt(true, m.gas, [], w)
    else if op < 0x10 then Next(Reply(m, Info(op).value.ins, Arithmetic(op, s)), w)
    else if op < 0x20 then Next(Reply(m, Info(op).value.ins, Comparison(op, s)), w)
    else if op < 0x50 then Next(Reply(m, Info(op).value.ins, Environment(env, msg, code, m, op)), w)
    else if op == JUMP then
      if FastJump(code, Arg(s, 0)) then Next(m.(stack := Popped(s, 1), pc := Arg(s, 0)), w) else Fail
    else if op == JUMPI then
      if Arg(s, 1) == 0 then Next(m.(stack := Popped(s, 2)), w)
      else if FastJump(code, Arg(s, 0)) then Next(m.(stack := Popped(s, 2), pc := Arg(s, 0)), w)
      else Fail
    else if op < 0x60 then ExecMachine(env, msg, code, m, w, op)
    else if op < 0x90 then Next(Reply(m, 0, Arg(s, op - 0x80)), w)
    else if op < 0xa0 then Next(m.(stack := Swap(s, op - 0x8f)), w)
    else ExecReturn(m, w, true)
  }

  /** A supported instruction moves the stack by its table entry and pays something or ends the frame. */
  lemma FastExecBounds(env: Env, msg: Message, code: Bytes, m: Machine, w: World, o: ChunkOp)
    requires Supported(o.op) && Info(o.op).Some? && |m.stack| >= Info(o.op).value.ins && m.pc > 0
    requires m.gas >= 0
    ensures var e := FastExec(env, msg, code, m, w, o);
            && !e.Invoke? && !e.Create?
            && (e.Next? ==> 0 <= e.m.gas <= m.gas && |e.m.stack| == |m.stack| - Info(o.op).value.ins + Info(o.op).value.outs)
            && (e.Next? && o.op != JUMP && o.op != JUMPI ==> e.m.pc == m.pc)
            && (e.Next? && (o.op == JUMP || o.op == JUMPI) ==> e.m.pc == m.pc || FastJump(code, e.m.pc))
            && (e.Next? && Info(o.op).value.fee == 0 ==> e.m.gas < m.gas)
            && (e.Halt? ==> 0 <= e.gas <= m.gas && IsBreak(o.op))
  {
    hide Arithmetic, Comparison, Environment, CopyTo, PushValue, Arg, FastJump;
  }

  function FastOps(env: Env, msg: Message, code: Bytes, ops: seq<ChunkOp>, m: Machine, w: World): (e: Effect)
    requires StaticOk(ops, |m.stack|, Fees(ops)) && m.pc > 0 && m.gas >= 0
    requires forall i :: 0 <= i < |ops| ==> Supported(ops[i].op)
    requires forall i :: 0 <= i < |ops| - 1 ==> !IsBreak(ops[i].op)
    ensures !e.Invoke? && !e.Create?
    ensures e.Next? ==> 0 <= e.m.gas <= m.gas && |e.m.stack| == |m.stack| + Summarize(ops).stack
    ensures e.Next? && ops != [] && Fees(ops) == 0 ==> e.m.gas < m.gas
    ensures e.Halt? ==> e.gas <= m.gas
    decreases |ops|
  {
    if ops == [] then Next(m, w)
    else
      FastExecBounds(env, msg, code, m, w, ops[0]);
      SummarizeCons(ops);
      var e := FastExec(env, msg, code, m, w, ops[0]);
      if !e.Next? then e
      else if |ops| == 1 then assert ops[1..] == []; e
      else
        assert !IsBreak(ops[0].op);
        FastOps(env, msg, code, ops[1..], e.m, e.world)
  }

  /** The chunk checks of the loop head. */
  predicate ChunkPasses(c: Chunk, height: nat, gas: int)
    requires c.ops != []
  {
    && height >= c.minstack && height <= c.maxstack && c.gascost <= gas
    && Info(c.ops[|c.ops| - 1].op).Some?
  }

  lemma ChunkPassesExact(code: Bytes, start: nat, c: Chunk, height: nat, gas: nat)
    requires GoodChunk(code, start, c) && height <= 1024
    ensures ChunkPasses(c, height, gas) <==> StaticOk(c.ops, height, gas)
    ensures StaticOk(c.ops, height, gas) ==> StaticOk(c.ops, height, Fees(c.ops)) && c.gascost == Fees(c.ops) <= gas
  {
    SummaryExact(c.ops, height, gas);
    SummaryFees(c.ops);
    SummaryExact(c.ops, height, Fees(c.ops));
    var n := |c.ops|;
    assert AllDefined(c.ops) <==> Info(c.ops[n - 1].op).Some? by {
      forall i | 0 <= i < n - 1 ensures Info(c.ops[i].op).Some? {
        assert !IsBreak(c.ops[i].op);
      }
    }
  }

  lemma {:induction false} MatchesSupported(code: Bytes, p: nat, ops: seq<ChunkOp>, next: nat)
    requires SupportedCode(code) && IsStart(code, p) && Matches(code, p, ops, next)
    ensures forall i :: 0 <= i < |ops| ==> Supported(ops[i].op)
    decreases |ops|
  {
    if ops != [] {
      StartNext(code, p);
      MatchesSupported(code, NextInstr(code, p), ops[1..], next);
      forall i | 0 <= i < |ops| ensures Supported(ops[i].op) {
        if i > 0 { assert ops[i] == ops[1..][i - 1]; }
      }
    }
  }

  /** The instruction after an instruction start is an instruction start. */
  lemma StartNext(code: Bytes, p: nat)
    requires p < |code| && IsStart(code, p)
    ensures IsStart(code, NextInstr(code, p))
  {
    StartsChain(code, 0, p);
  }

  lemma {:induction false} MatchesNext(code: Bytes, p: nat, ops: seq<ChunkOp>, next: nat)
    requires Matches(code, p, ops, next) && ops != []
    ensures next > p
    decreases |ops|
  {
    if |ops| > 1 { MatchesNext(code, NextInstr(code, p), ops[1..], next); }
  }

  /** The loop of the chunked interpreter. */
  function FastRun(env: Env, msg: Message, code: Bytes, table: map<nat, Chunk>, m: Machine, w: World): Result
    requires SupportedCode(code) && GoodTable(code, table) && m.gas >= 0 && |m.stack| <= 1024
    decreases m.gas
  {
    if m.pc in table then
      var c := table[m.pc];
      assert GoodChunk(code, m.pc, c);
      if !ChunkPasses(c, |m.stack|, m.gas) then Result(false, 0, [], w, false)
      else
        ChunkPassesExact(code, m.pc, c, |m.stack|, m.gas);
        MatchesSupported(code, m.pc, c.ops, c.next);
        MatchesNext(code, m.pc, c.ops, c.next);
        SummaryExact(c.ops, |m.stack|, m.gas);
        var e := FastOps(env, msg, code, c.ops, m.(gas := m.gas - c.gascost, pc := c.next), w);
        if e.Fail? then Result(false, 0, [], w, false)
        else if e.Halt? then Result(e.success, e.gas, e.data, e.world, false)
        else
          HeightAfter(c.ops, |m.stack|, m.gas);
          FastRun(env, msg, code, table, e.m, e.world)
    else if m.pc >= |code| then Result(true, m.gas, [], w, false)
    else Result(false, 0, [], w, false)
  }

  lemma HeightAfter(ops: seq<ChunkOp>, height: nat, gas: nat)
    requires height <= 1024 && StaticOk(ops, height, gas)
    ensures height + Summarize(ops).stack <= 1024
  {
    if ops != [] {
      var init, last := ops[..|ops| - 1], ops[|ops| - 1];
      assert ops == init + [last];
      StaticOkSnoc(init, last, height, gas);
    }
  }

  // ---- refinement ----

  /** The same status, gas and data, and the same world when the status is success. */
  predicate Agrees(a: Result, b: Result) {
    a.success == b.success && a.gas == b.gas && a.data == b.data && (a.success ==> a.world == b.world)
  }

  predicate Failed(r: Result) {
    !r.success && r.gas == 0 && r.data == []
  }

  /** Whether the last instruction was a LOG is not observable. */
  lemma AfterLogUnobservable(env: Env, msg: Message, code: Bytes, m: Machine, w: World, x: bool, y: bool)
    requires SoundEnv(env)
    ensures Agrees(Execute(env, msg, code, m, w, x), Execute(env, msg, code, m, w, y))
  {
  }

  /** One instruction of the chunk against the same instruction with d more gas and the pc behind it:
      the step-by-step interpreter does the same, or fails too, or goes on with less than d gas. */
  ghost predicate Shifted(fast: Effect, slow: Effect, d: nat, isJump: bool, next: nat) {
    match fast
    case Fail => slow.Fail? || (slow.Next? && slow.m.gas < d) || (slow.Halt? && slow.gas < d)
    case Halt(s, g, data, w) => slow == Halt(s, g + d, data, w)
    case Next(m, w) => slow == Next(m.(gas := m.gas + d, pc := if isJump then m.pc else next), w)
    case _ => false
  }

  lemma ShiftMem(mem: Bytes, gas: nat, d: nat, start: nat, sz: nat)
    ensures var a, b := MemExtend(mem, gas, start, sz), MemExtend(mem, gas + d, start, sz);
            if a.Extended? then b == Extended(a.gas + d, a.mem) else b.NoGas? || b.gas < d
  {
  }

  lemma ShiftMemory(env: Env, msg: Message, code: Bytes, m: Machine, w: World, op: Byte, d: nat, pc: nat)
    requires op == MLOAD || op == MSTORE || op == MSTORE8
    requires |m.stack| >= Info(op).value.ins && m.pc > 0 && pc > 0 && m.gas >= 0
    ensures Shifted(ExecMachine(env, msg, code, m, w, op),
                    ExecMachine(env, msg, code, m.(gas := m.gas + d, pc := pc), w, op), d, false, pc)
  {
    hide MemExtend, CopyTo, EncodeInt32, WordOf, Window;
    ShiftMem(m.mem, m.gas, d, Arg(m.stack, 0), if op == MSTORE8 then 1 else 32);
  }

  lemma ShiftStorage(env: Env, msg: Message, code: Bytes, m: Machine, w: World, op: Byte, d: nat, pc: nat)
    requires op == SLOAD || op == SSTORE
    requires |m.stack| >= Info(op).value.ins && m.pc > 0 && pc > 0 && m.gas >= 0
    ensures Shifted(ExecMachine(env, msg, code, m, w, op),
                    ExecMachine(env, msg, code, m.(gas := m.gas + d, pc := pc), w, op), d, false, pc)
  {
  }

  lemma ShiftMachine(env: Env, msg: Message, code: Bytes, m: Machine, w: World, op: Byte, d: nat, pc: nat)
    requires 0x50 <= op < 0x60 && op != PC && Info(op).Some?
    requires |m.stack| >= Info(op).value.ins && m.pc > 0 && pc > 0 && m.gas >= 0
    requires op != JUMP && op != JUMPI && (op == GAS ==> d == 0)
    ensures Shifted(ExecMachine(env, msg, code, m, w, op),
                    ExecMachine(env, msg, code, m.(gas := m.gas + d, pc := pc), w, op), d, false, pc)
  {
    if op == MLOAD || op == MSTORE || op == MSTORE8 {
      ShiftMemory(env, msg, code, m, w, op, d, pc);
    } else if op == SLOAD || op == SSTORE {
      ShiftStorage(env, msg, code, m, w, op, d, pc);
    }
  }

  lemma ShiftReturn(m: Machine, w: World, d: nat, pc: nat)
    requires |m.stack| >= 2 && m.gas >= 0
    ensures Shifted(ExecReturn(m, w, true), ExecReturn(m.(gas := m.gas + d, pc := pc), w, true), d, false, pc)
  {
    ShiftMem(m.mem, m.gas, d, Arg(m.stack, 0), Arg(m.stack, 1));
  }

  lemma ShiftPush(env: Env, msg: Message, code: Bytes, m: Machine, w: World, o: ChunkOp, d: nat, p: nat)
    requires IsPush(o.op)
    requires Supported(o.op) && Info(o.op).Some? && |m.stack| >= Info(o.op).value.ins && m.pc > 0 && m.gas >= 0
    requires p < |code| && code[p] == o.op && (IsPush(o.op) ==> o.pushval == PushValue(code, p))
    ensures Shifted(FastExec(env, msg, code, m, w, o),
                    Exec(env, msg, code, m.(gas := m.gas + d, pc := p + 1), w, o.op), d, false, NextInstr(code, p))
  {
  }

  lemma ShiftArithmetic(env: Env, msg: Message, code: Bytes, m: Machine, w: World, o: ChunkOp, d: nat, p: nat)
    requires o.op < 0x10
    requires Supported(o.op) && Info(o.op).Some? && |m.stack| >= Info(o.op).value.ins && m.pc > 0 && m.gas >= 0
    requires p < |code| && code[p] == o.op
    ensures Shifted(FastExec(env, msg, code, m, w, o),
                    Exec(env, msg, code, m.(gas := m.gas + d, pc := p + 1), w, o.op), d, false, NextInstr(code, p))
  {
  }

  lemma ShiftComparison(env: Env, msg: Message, code: Bytes, m: Machine, w: World, o: ChunkOp, d: nat, p: nat)
    requires 0x10 <= o.op < 0x20
    requires Supported(o.op) && Info(o.op).Some? && |m.stack| >= Info(o.op).value.ins && m.pc > 0 && m.gas >= 0
    requires p < |code| && code[p] == o.op
    ensures Shifted(FastExec(env, msg, code, m, w, o),
                    Exec(env, msg, code, m.(gas := m.gas + d, pc := p + 1), w, o.op), d, false, NextInstr(code, p))
  {
  }

  lemma EnvironmentFixed(env: Env, msg: Message, code: Bytes, m: Machine, m': Machine, op: Byte)
    requires op == 0x30 || (0x32 <= op <= 0x36) || op == 0x38 || op == 0x3a || (0x40 <= op <= 0x45)
    requires |m.stack| >= Info(op).value.ins && m'.stack == m.stack
    ensures Environment(env, msg, code, m, op) == Environment(env, msg, code, m', op)
  {
  }

  lemma ShiftEnvironment(env: Env, msg: Message, code: Bytes, m: Machine, w: World, o: ChunkOp, d: nat, p: nat)
    requires 0x20 <= o.op < 0x50
    requires Supported(o.op) && Info(o.op).Some? && |m.stack| >= Info(o.op).value.ins && m.pc > 0 && m.gas >= 0
    requires p < |code| && code[p] == o.op
    ensures Shifted(FastExec(env, msg, code, m, w, o),
                    Exec(env, msg, code, m.(gas := m.gas + d, pc := p + 1), w, o.op), d, false, NextInstr(code, p))
  {
    EnvironmentFixed(env, msg, code, m, m.(gas := m.gas + d, pc := p + 1), o.op);
  }

  lemma ShiftStack(env: Env, msg: Message, code: Bytes, m: Machine, w: World, o: ChunkOp, d: nat, p: nat)
    requires 0x80 <= o.op < 0xa0
    requires Supported(o.op) && Info(o.op).Some? && |m.stack| >= Info(o.op).value.ins && m.pc > 0 && m.gas >= 0
    requires p < |code| && code[p] == o.op
    ensures Shifted(FastExec(env, msg, code, m, w, o),
                    Exec(env, msg, code, m.(gas := m.gas + d, pc := p + 1), w, o.op), d, false, NextInstr(code, p))
  {
  }

  lemma ShiftMachineExec(env: Env, msg: Message, code: Bytes, m: Machine, w: World, o: ChunkOp, d: nat, p: nat)
    requires 0x50 <= o.op < 0x60 && o.op != JUMP && o.op != JUMPI && (o.op == GAS ==> d == 0)
    requires Supported(o.op) && Info(o.op).Some? && |m.stack| >= Info(o.op).value.ins && m.pc > 0 && m.gas >= 0
    requires p < |code| && code[p] == o.op
    ensures Shifted(FastExec(env, msg, code, m, w, o),
                    Exec(env, msg, code, m.(gas := m.gas + d, pc := p + 1), w, o.op), d, false, NextInstr(code, p))
  {
    ShiftMachine(env, msg, code, m, w, o.op, d, p + 1);
  }

  lemma ShiftReturnExec(env: Env, msg: Message, code: Bytes, m: Machine, w: World, o: ChunkOp, d: nat, p: nat)
    requires o.op == RETURN
    requires Supported(o.op) && Info(o.op).Some? && |m.stack| >= Info(o.op).value.ins && m.pc > 0 && m.gas >= 0
    requires p < |code| && code[p] == o.op
    ensures Shifted(FastExec(env, msg, code, m, w, o),
                    Exec(env, msg, code, m.(gas := m.gas + d, pc := p + 1), w, o.op), d, false, NextInstr(code, p))
  {
    hide MemExtend;
    ShiftReturn(m, w, d, p + 1);
  }

  lemma ShiftExec(env: Env, msg: Message, code: Bytes, m: Machine, w: World, o: ChunkOp, d: nat, p: nat)
    requires Supported(o.op) && Info(o.op).Some? && |m.stack| >= Info(o.op).value.ins && m.pc > 0 && m.gas >= 0
    requires p < |code| && code[p] == o.op && (IsPush(o.op) ==> o.pushval == PushValue(code, p))
    requires o.op != JUMP && o.op != JUMPI && (o.op == GAS ==> d == 0)
    ensures Shifted(FastExec(env, msg, code, m, w, o),
                    Exec(env, msg, code, m.(gas := m.gas + d, pc := p + 1), w, o.op), d, false, NextInstr(code, p))
  {
    if IsPush(o.op) {
      ShiftPush(env, msg, code, m, w, o, d, p);
    } else if o.op < 0x10 {
      ShiftArithmetic(env, msg, code, m, w, o, d, p);
    } else if o.op < 0x20 {
      ShiftComparison(env, msg, code, m, w, o, d, p);
    } else if o.op < 0x50 {
      ShiftEnvironment(env, msg, code, m, w, o, d, p);
    } else if o.op < 0x60 {
      ShiftMachineExec(env, msg, code, m, w, o, d, p);
    } else if o.op < 0xa0 {
      ShiftStack(env, msg, code, m, w, o, d, p);
    } else {
      ShiftReturnExec(env, msg, code, m, w, o, d, p);
    }
  }

  /** A jump ends its chunk, so both interpreters have the same gas. The chunked one may land inside push data;
      it then fails at the next loop head. */
  lemma JumpExec(env: Env, msg: Message, code: Bytes, m: Machine, w: World, o: ChunkOp, p: nat)
    requires o.op == JUMP || o.op == JUMPI
    requires p < |code| && code[p] == o.op
    requires |m.stack| >= Info(o.op).value.ins && m.pc == NextInstr(code, p) && m.gas >= 0
    ensures var fast := FastExec(env, msg, code, m, w, o);
            var slow := Exec(env, msg, code, m.(pc := p + 1), w, o.op);
            || slow == fast
            || (slow.Fail? && fast.Next? && fast.m.pc < |code| && !IsStart(code, fast.m.pc))
  {
  }

  /** Instructions of one chunk: supported, and on a straight line up to the last. */
  predicate StraightLine(ops: seq<ChunkOp>) {
    && (forall i :: 0 <= i < |ops| ==> Supported(ops[i].op))
    && (forall i :: 0 <= i < |ops| - 1 ==> !IsBreak(ops[i].op))
  }

  lemma StraightLineTail(ops: seq<ChunkOp>)
    requires StraightLine(ops) && ops != []
    ensures StraightLine(ops[1..])
  {
    var rest := ops[1..];
    assert forall i :: 0 <= i < |rest| ==> rest[i] == ops[i + 1];
  }

  /** A supported instruction that is no jump goes on to the next instruction, and never with more gas. */
  lemma SlowExec(env: Env, msg: Message, code: Bytes, m: Machine, w: World, o: ChunkOp)
    requires Supported(o.op) && Info(o.op).Some? && |m.stack| >= Info(o.op).value.ins && m.gas >= 0
    requires m.pc < |code| && code[m.pc] == o.op && (IsPush(o.op) ==> o.pushval == PushValue(code, m.pc))
    requires o.op != JUMP && o.op != JUMPI
    ensures var e := Exec(env, msg, code, m.(pc := m.pc + 1), w, o.op);
            && (e.Fail? || e.Next? || e.Halt?)
            && (e.Next? ==> 0 <= e.m.gas <= m.gas && e.m.pc == NextInstr(code, m.pc))
            && (e.Next? ==> |e.m.stack| == |m.stack| - Info(o.op).value.ins + Info(o.op).value.outs)
            && (e.Halt? ==> IsBreak(o.op) && 0 <= e.gas)
  {
    hide Exec, FastExec, Info, PushValue;
    ExecGas(env, msg, code, m.(pc := m.pc + 1), w, o.op);
    FastExecBounds(env, msg, code, m.(pc := 1), w, o);
    ShiftExec(env, msg, code, m.(pc := 1), w, o, 0, m.pc);
    assert m.(pc := 1).(gas := m.(pc := 1).gas + 0, pc := m.pc + 1) == m.(pc := m.pc + 1);
  }

  /** One unfolding of the loop. */
  lemma Unfold(env: Env, msg: Message, code: Bytes, m: Machine, w: World, x: bool)
    requires SoundEnv(env) && m.pc < |code|
    ensures var e := Step(env, msg, code, m, w);
            var r := Execute(env, msg, code, m, w, x);
            && (e.Fail? ==> Failed(r))
            && (e.Halt? ==> Agrees(r, Result(e.success, e.gas, e.data, e.world, false)))
            && (e.Next? ==> Agrees(r, Execute(env, msg, code, e.m, e.world, false)))
  {
    var e := Step(env, msg, code, m, w);
    StepGas(env, msg, code, m, w);
    if e.Next? {
      AfterLogUnobservable(env, msg, code, e.m, e.world, IsLog(code[m.pc]), false);
    }
  }

  /** What a step does on a supported instruction that passes its checks. */
  lemma StepPassing(env: Env, msg: Message, code: Bytes, m: Machine, w: World, o: ChunkOp)
    requires Supported(o.op) && m.pc < |code| && code[m.pc] == o.op
    ensures var e := Step(env, msg, code, m, w);
            var info := ChunkInfo(o.op);
            if Info(o.op).Some? && info.fee <= m.gas && info.ins <= |m.stack| && |m.stack| - info.ins + info.outs <= 1024
            then e == Exec(env, msg, code, m.(gas := m.gas - info.fee, pc := m.pc + 1), w, o.op)
            else e.Fail?
  {
    hide Exec;
  }

  lemma Chain(a: Result, b: Result, c: Result)
    requires Agrees(a, b) && Agrees(b, c)
    ensures Agrees(a, c)
  {
  }

  /** The step-by-step interpreter fails on a chunk whose static checks do not pass, wherever it stands in it. */
  lemma {:induction false} Doomed(env: Env, msg: Message, code: Bytes, ops: seq<ChunkOp>, next: nat, m: Machine,
      w: World, x: bool)
    requires SoundEnv(env) && Matches(code, m.pc, ops, next) && StraightLine(ops)
    requires !StaticOk(ops, |m.stack|, m.gas)
    ensures Failed(Execute(env, msg, code, m, w, x))
    decreases |ops|
  {
    var o := ops[0];
    StepPassing(env, msg, code, m, w, o);
    Unfold(env, msg, code, m, w, x);
    var e := Step(env, msg, code, m, w);
    if !e.Fail? {
      DoomedHead(env, msg, code, ops, m, w);
      StraightLineTail(ops);
      if e.Next? {
        Doomed(env, msg, code, ops[1..], next, e.m, e.world, false);
      }
    }
  }

  lemma SingleOk(ops: seq<ChunkOp>, height: int, gas: int)
    requires |ops| == 1
    ensures var info := ChunkInfo(ops[0].op);
            StaticOk(ops, height, gas) <==>
              Info(ops[0].op).Some? && info.fee <= gas && info.ins <= height && height - info.ins + info.outs <= 1024
  {
    assert ops[1..] == [];
  }

  /** A chunk that fails its static checks behind a first instruction that passes still fails them after it. */
  lemma DoomedHead(env: Env, msg: Message, code: Bytes, ops: seq<ChunkOp>, m: Machine, w: World)
    requires StraightLine(ops) && ops != [] && m.pc < |code| && code[m.pc] == ops[0].op
    requires IsPush(code[m.pc]) ==> ops[0].pushval == PushValue(code, m.pc)
    requires !StaticOk(ops, |m.stack|, m.gas) && !Step(env, msg, code, m, w).Fail?
    ensures var e := Step(env, msg, code, m, w);
            e.Next? && e.m.pc == NextInstr(code, m.pc) && !StaticOk(ops[1..], |e.m.stack|, e.m.gas)
  {
    hide Exec, Step, Info, Supported, PushValue;
    var o := ops[0];
    var info := ChunkInfo(o.op);
    StepPassing(env, msg, code, m, w, o);
    if |ops| == 1 { SingleOk(ops, |m.stack|, m.gas); }
    assert !IsBreak(ops[0].op);
    SlowExec(env, msg, code, m.(gas := m.gas - info.fee), w, o);
    var e := Step(env, msg, code, m, w);
    if StaticOk(ops[1..], |e.m.stack|, e.m.gas) {
      StaticOkMoreGas(ops[1..], |e.m.stack|, e.m.gas, m.gas - info.fee);
    }
  }

  /** The outcome of a chunk in the chunked interpreter decides the outcome of the step-by-step one. */
  ghost predicate Decides(env: Env, msg: Message, code: Bytes, e: Effect, next: nat, r: Result)
    requires SoundEnv(env)
  {
    match e
    case Fail => Failed(r)
    case Halt(s, g, data, w) => Agrees(r, Result(s, g, data, w, false))
    case Next(m, w) =>
      && (m.pc == next || FastJump(code, m.pc))
      && (if m.pc != next && !IsStart(code, m.pc) then Failed(r) else Agrees(r, Execute(env, msg, code, m, w, false)))
    case _ => false
  }

  /** Running a chunk with its fees paid in advance matches stepping through it with the fees still at hand. */
  lemma {:induction false} SimulateOps(env: Env, msg: Message, code: Bytes, ops: seq<ChunkOp>, p: nat, next: nat,
      mf: Machine, w: World, x: bool)
    requires SoundEnv(env) && IsStart(code, p) && Matches(code, p, ops, next) && StraightLine(ops) && ops != []
    requires StaticOk(ops, |mf.stack|, Fees(ops)) && mf.pc == next && next > 0 && mf.gas >= 0
    ensures Decides(env, msg, code, FastOps(env, msg, code, ops, mf, w), next,
                    Execute(env, msg, code, mf.(pc := p, gas := mf.gas + Fees(ops)), w, x))
    decreases |ops|
  {
    hide Exec, FastExec, Execute, Info, Supported, StartsFrom, Agrees, PushValue;
    var o := ops[0];
    var m := mf.(pc := p, gas := mf.gas + Fees(ops));
    if o.op == JUMP || o.op == JUMPI {
      assert IsBreak(ops[0].op);
      assert |ops| == 1 && ops[1..] == [] && Fees(ops) == Info(o.op).value.fee;
      SimulateJump(env, msg, code, o, p, mf, w, x);
    } else {
      var fast := FastExec(env, msg, code, mf, w, o);
      SimulateHead(env, msg, code, ops, p, next, mf, w, x);
      if |ops| > 1 {
        assert !IsBreak(ops[0].op);
        StraightLineTail(ops);
        if fast.Next? {
          StartNext(code, p);
          var m' := fast.m.(pc := NextInstr(code, p), gas := fast.m.gas + Fees(ops[1..]));
          SimulateOps(env, msg, code, ops[1..], NextInstr(code, p), next, fast.m, fast.world, false);
          DecidesChain(env, msg, code, FastOps(env, msg, code, ops[1..], fast.m, fast.world), next,
                       Execute(env, msg, code, m, w, x), Execute(env, msg, code, m', fast.world, false));
        }
      }
    }
  }

  lemma DecidesChain(env: Env, msg: Message, code: Bytes, e: Effect, next: nat, r: Result, r': Result)
    requires SoundEnv(env) && Agrees(r, r') && Decides(env, msg, code, e, next, r')
    ensures Decides(env, msg, code, e, next, r)
  {
    hide Exec, FastExec;
  }

  /** The first instruction of a chunk in both interpreters, one with the remaining fees paid and one without. */
  lemma HeadShift(env: Env, msg: Message, code: Bytes, ops: seq<ChunkOp>, p: nat, next: nat, mf: Machine, w: World)
    requires Matches(code, p, ops, next) && StraightLine(ops) && ops != []
    requires StaticOk(ops, |mf.stack|, Fees(ops)) && mf.pc == next && next > 0 && mf.gas >= 0
    requires ops[0].op != JUMP && ops[0].op != JUMPI
    ensures var fast := FastExec(env, msg, code, mf, w, ops[0]);
            var slow := Step(env, msg, code, mf.(pc := p, gas := mf.gas + Fees(ops)), w);
            var height := |mf.stack| - ChunkInfo(ops[0].op).ins + ChunkInfo(ops[0].op).outs;
            && Shifted(fast, slow, Fees(ops[1..]), false, NextInstr(code, p))
            && (slow.Next? ==> 0 <= slow.m.gas && slow.m.pc == NextInstr(code, p) && |slow.m.stack| == height)
            && (slow.Halt? ==> 0 <= slow.gas)
            && (fast.Next? ==> 0 <= fast.m.gas && fast.m.pc == next && |fast.m.stack| == height)
            && (fast.Halt? || slow.Halt? ==> |ops| == 1)
            && StaticOk(ops[1..], height, Fees(ops[1..]))
  {
    hide Exec, FastExec, Step, Info, Supported, PushValue;
    var o := ops[0];
    var info := Info(o.op).value;
    var d := Fees(ops[1..]);
    var m := mf.(pc := p, gas := mf.gas + Fees(ops));
    var m1 := mf.(gas := mf.gas + d, pc := p + 1);
    assert m.(gas := m.gas - info.fee, pc := m.pc + 1) == m1;
    StepPassing(env, msg, code, m, w, o);
    FastExecBounds(env, msg, code, mf, w, o);
    if |ops| > 1 { assert !IsBreak(ops[0].op); }
    ShiftExec(env, msg, code, mf, w, o, d, p);
    SlowExec(env, msg, code, m1.(pc := p), w, o);
    assert m1.(pc := p).(pc := p + 1) == m1;
  }

  /** The first instruction of a chunk: the step-by-step interpreter follows the chunked one, or is doomed with it. */
  lemma SimulateHead(env: Env, msg: Message, code: Bytes, ops: seq<ChunkOp>, p: nat, next: nat, mf: Machine, w: World,
      x: bool)
    requires SoundEnv(env) && Matches(code, p, ops, next) && StraightLine(ops) && ops != []
    requires StaticOk(ops, |mf.stack|, Fees(ops)) && mf.pc == next && next > 0 && mf.gas >= 0
    requires ops[0].op != JUMP && ops[0].op != JUMPI
    ensures var fast := FastExec(env, msg, code, mf, w, ops[0]);
            var r := Execute(env, msg, code, mf.(pc := p, gas := mf.gas + Fees(ops)), w, x);
            && (fast.Fail? ==> Failed(r))
            && (fast.Halt? ==> |ops| == 1 && Agrees(r, Result(fast.success, fast.gas, fast.data, fast.world, false)))
            && (fast.Next? ==>
                  && 0 <= fast.m.gas && fast.m.pc == next
                  && StaticOk(ops[1..], |fast.m.stack|, Fees(ops[1..]))
                  && Agrees(r, Execute(env, msg, code, fast.m.(pc := NextInstr(code, p), gas := fast.m.gas + Fees(ops[1..])),
                                       fast.world, false)))
            && !fast.Invoke? && !fast.Create?
  {
    hide Exec, FastExec, Execute, Step, Info, Supported, IsBreak, PushValue;
    var m := mf.(pc := p, gas := mf.gas + Fees(ops));
    HeadShift(env, msg, code, ops, p, next, mf, w);
    Unfold(env, msg, code, m, w, x);
    var fast := FastExec(env, msg, code, mf, w, ops[0]);
    var slow := Step(env, msg, code, m, w);
    if |ops| == 1 { assert ops[1..] == [] && Fees(ops[1..]) == 0; }
    if fast.Fail? && slow.Next? {
      StraightLineTail(ops);
      if StaticOk(ops[1..], |slow.m.stack|, slow.m.gas) {
        StaticOkFees(ops[1..], |slow.m.stack|, slow.m.gas);
      }
      Doomed(env, msg, code, ops[1..], next, slow.m, slow.world, false);
    }
  }

  lemma SimulateJump(env: Env, msg: Message, code: Bytes, o: ChunkOp, p: nat, mf: Machine, w: World, x: bool)
    requires SoundEnv(env) && (o.op == JUMP || o.op == JUMPI)
    requires p < |code| && IsStart(code, p) && code[p] == o.op && mf.pc == NextInstr(code, p) && mf.gas >= 0
    requires StaticOk([o], |mf.stack|, Fees([o]))
    ensures Decides(env, msg, code, FastExec(env, msg, code, mf, w, o), mf.pc,
                    Execute(env, msg, code, mf.(pc := p, gas := mf.gas + Info(o.op).value.fee), w, x))
  {
    var fee := Info(o.op).value.fee;
    var m := mf.(pc := p, gas := mf.gas + fee);
    StartNext(code, p);
    JumpExec(env, msg, code, mf, w, o, p);
    FastExecBounds(env, msg, code, mf, w, o);
    assert m.(gas := m.gas - fee, pc := m.pc + 1) == mf.(pc := p + 1);
    StepPassing(env, msg, code, m, w, o);
    Unfold(env, msg, code, m, w, x);
    JumpLands(env, msg, code, mf, w, o, p);
  }

  /** A jump the step-by-step interpreter accepts ends at an instruction start or falls through. */
  lemma JumpLands(env: Env, msg: Message, code: Bytes, mf: Machine, w: World, o: ChunkOp, p: nat)
    requires o.op == JUMP || o.op == JUMPI
    requires p < |code| && code[p] == o.op
    requires |mf.stack| >= Info(o.op).value.ins && mf.pc == NextInstr(code, p) && mf.gas >= 0
    ensures var slow := Exec(env, msg, code, mf.(pc := p + 1), w, o.op);
            slow.Next? ==> slow.m.pc == mf.pc || IsStart(code, slow.m.pc)
  {
  }

  /** A chunk whose three numbers pass can be run straight through. */
  lemma ChunkRuns(code: Bytes, c: Chunk, m: Machine)
    requires SupportedCode(code) && GoodChunk(code, m.pc, c) && m.gas >= 0 && |m.stack| <= 1024
    requires ChunkPasses(c, |m.stack|, m.gas)
    ensures StaticOk(c.ops, |m.stack|, Fees(c.ops)) && StraightLine(c.ops) && c.gascost == Fees(c.ops) <= m.gas
    ensures 0 < c.next && c.ops != [] && IsStart(code, m.pc) && Matches(code, m.pc, c.ops, c.next)
    ensures 0 <= |m.stack| + Summarize(c.ops).stack <= 1024
  {
    hide Info, Supported, StartsFrom, IsBreak;
    ChunkPassesExact(code, m.pc, c, |m.stack|, m.gas);
    MatchesSupported(code, m.pc, c.ops, c.next);
    MatchesNext(code, m.pc, c.ops, c.next);
    HeightAfter(c.ops, |m.stack|, m.gas);
  }

  /** One chunk of the chunked loop. */
  lemma FastUnfold(env: Env, msg: Message, code: Bytes, table: map<nat, Chunk>, m: Machine, w: World, c: Chunk)
    requires SupportedCode(code) && GoodTable(code, table) && m.gas >= 0 && |m.stack| <= 1024
    requires m.pc in table && c == table[m.pc] && GoodChunk(code, m.pc, c)
    ensures !ChunkPasses(c, |m.stack|, m.gas) ==> Failed(FastRun(env, msg, code, table, m, w))
    ensures ChunkPasses(c, |m.stack|, m.gas) ==>
              && StaticOk(c.ops, |m.stack|, Fees(c.ops)) && StraightLine(c.ops) && c.gascost == Fees(c.ops) <= m.gas
              && 0 < c.next && c.ops != [] && IsStart(code, m.pc) && Matches(code, m.pc, c.ops, c.next)
              && (var e := FastOps(env, msg, code, c.ops, m.(gas := m.gas - c.gascost, pc := c.next), w);
                  var r := FastRun(env, msg, code, table, m, w);
                  && !e.Invoke? && !e.Create?
                  && (e.Fail? ==> Failed(r))
                  && (e.Halt? ==> r == Result(e.success, e.gas, e.data, e.world, false))
                  && (e.Next? ==> 0 <= e.m.gas < m.gas && |e.m.stack| <= 1024)
                  && (e.Next? ==> r == FastRun(env, msg, code, table, e.m, e.world)))
  {
    hide Exec, FastExec, FastOps, Info, Supported, StartsFrom, StaticOk, Fees, Summarize, IsStart, Matches, GoodTable;
    if ChunkPasses(c, |m.stack|, m.gas) {
      ChunkRuns(code, c, m);
    }
  }

  /** One chunk of the loop against the instructions it stands for: both runs are over and agree,
      or both go on from the same state at a chunk boundary, with less gas. */
  lemma ChunkRefines(env: Env, msg: Message, code: Bytes, table: map<nat, Chunk>, m: Machine, w: World, x: bool)
    returns (done: bool, m': Machine, w': World)
    requires SoundEnv(env) && SupportedCode(code) && GoodTable(code, table)
    requires m.gas >= 0 && |m.stack| <= 1024 && m.pc in table
    ensures done ==> Agrees(FastRun(env, msg, code, table, m, w), Execute(env, msg, code, m, w, x))
    ensures !done ==> 0 <= m'.gas < m.gas && |m'.stack| <= 1024 && (m'.pc in table || m'.pc >= |code|)
    ensures !done ==> FastRun(env, msg, code, table, m, w) == FastRun(env, msg, code, table, m', w')
    ensures !done ==> Agrees(Execute(env, msg, code, m, w, x), Execute(env, msg, code, m', w', false))
  {
    hide FastRun, Exec, FastExec, Execute, Step, FastOps, GoodTable, SupportedCode, Info, Supported, IsStart,
      StartsFrom;
    hide Matches, Summarize, StaticOk, Fees, ChunkPasses, SoundEnv, FastJump, GoodChunk;
    TableChunks(code, table, m.pc);
    var c := table[m.pc];
    done, m', w' := true, m, w;
    FastUnfold(env, msg, code, table, m, w, c);
    if !ChunkPasses(c, |m.stack|, m.gas) {
      DoomedChunk(env, msg, code, c, m, w, x);
    } else {
      var mf := m.(gas := m.gas - c.gascost, pc := c.next);
      assert mf.(pc := m.pc, gas := mf.gas + Fees(c.ops)) == m;
      SimulateOps(env, msg, code, c.ops, m.pc, c.next, mf, w, x);
      var e := FastOps(env, msg, code, c.ops, mf, w);
      if e.Next? {
        JumpTargets(code, table, e.m.pc);
        if e.m.pc == c.next || IsStart(code, e.m.pc) {
          done, m', w' := false, e.m, e.world;
        } else {
          OutsideChunks(env, msg, code, table, e.m, e.world);
        }
      }
    }
  }

  /** Chunked execution refines stepwise execution: the same status, gas and data, and on success the same world. */
  lemma {:induction false} FastRefines(env: Env, msg: Message, code: Bytes, table: map<nat, Chunk>, m: Machine,
      w: World, x: bool)
    requires SoundEnv(env) && SupportedCode(code) && GoodTable(code, table)
    requires m.gas >= 0 && |m.stack| <= 1024 && (m.pc in table || m.pc >= |code|)
    ensures Agrees(FastRun(env, msg, code, table, m, w), Execute(env, msg, code, m, w, x))
    decreases m.gas
  {
    if m.pc in table {
      hide FastRun, Execute, GoodTable, SupportedCode;
      var done, m', w' := ChunkRefines(env, msg, code, table, m, w, x);
      if !done {
        FastRefines(env, msg, code, table, m', w', false);
      }
    } else {
      RunEnds(env, msg, code, m, w, x);
    }
  }

  lemma DoomedChunk(env: Env, msg: Message, code: Bytes, c: Chunk, m: Machine, w: World, x: bool)
    requires SoundEnv(env) && SupportedCode(code) && GoodChunk(code, m.pc, c) && m.gas >= 0 && |m.stack| <= 1024
    requires !ChunkPasses(c, |m.stack|, m.gas)
    ensures Failed(Execute(env, msg, code, m, w, x))
  {
    ChunkPassesExact(code, m.pc, c, |m.stack|, m.gas);
    MatchesSupported(code, m.pc, c.ops, c.next);
    Doomed(env, msg, code, c.ops, c.next, m, w, x);
  }

  /** A jump into push data ends the chunked run with an exception. */
  lemma OutsideChunks(env: Env, msg: Message, code: Bytes, table: map<nat, Chunk>, m: Machine, w: World)
    requires SupportedCode(code) && GoodTable(code, table) && m.gas >= 0 && |m.stack| <= 1024
    requires FastJump(code, m.pc) && !IsStart(code, m.pc)
    ensures Failed(FastRun(env, msg, code, table, m, w))
  {
    ChunksAtStarts(code, table, m.pc);
  }

  lemma RunEnds(env: Env, msg: Message, code: Bytes, m: Machine, w: World, x: bool)
    requires SoundEnv(env)
    ensures m.pc >= |code| ==> Agrees(Execute(env, msg, code, m, w, x), Result(true, m.gas, [], w, false))
  {
  }

  lemma TableChunks(code: Bytes, table: map<nat, Chunk>, p: nat)
    requires GoodTable(code, table)
    ensures p in table ==> GoodChunk(code, p, table[p]) && p < |code|
    ensures p in table ==> table[p].next in table || table[p].next >= |code|
  {
  }

  lemma JumpTargets(code: Bytes, table: map<nat, Chunk>, p: nat)
    requires GoodTable(code, table)
    ensures IsStart(code, p) && FastJump(code, p) ==> p in table
  {
  }

  lemma ChunksAtStarts(code: Bytes, table: map<nat, Chunk>, p: nat)
    requires GoodTable(code, table)
    ensures p in table ==> IsStart(code, p)
  {
    if p in table { assert GoodChunk(code, p, table[p]); }
  }

  /** The whole frame, from its first instruction. */
  lemma FastVmRefinesVm(env: Env, msg: Message, code: Bytes, table: map<nat, Chunk>, w: World)
    requires SoundEnv(env) && SupportedCode(code) && GoodTable(code, table) && msg.gas >= 0
    ensures Agrees(FastRun(env, msg, code, table, Start(msg.gas), w), Execute(env, msg, code, Start(msg.gas), w, false))
  {
    FastRefines(env, msg, code, table, Start(msg.gas), w, false);
  }

  // ---- building the table ----

  lemma {:induction false} MatchesSnoc(code: Bytes, p: nat, ops: seq<ChunkOp>, next: nat, o: ChunkOp)
    requires Matches(code, p, ops, next)
    requires next < |code| && o.op == code[next] && (IsPush(o.op) ==> o.pushval == PushValue(code, next))
    ensures Matches(code, p, ops + [o], NextInstr(code, next))
    decreases |ops|
  {
    var all := ops + [o];
    if ops == [] {
      assert all[1..] == [];
    } else {
      assert all[1..] == ops[1..] + [o];
      MatchesSnoc(code, NextInstr(code, p), ops[1..], next, o);
    }
  }

  lemma SummarizeSnoc(ops: seq<ChunkOp>, o: ChunkOp)
    ensures Summarize(ops + [o]) == AddOp(Summarize(ops), o.op)
  {
    assert (ops + [o])[..|ops|] == ops;
  }

  /** The table while the instructions before position i have been read and those from `start` on are pending. */
  ghost predicate Pending(code: Bytes, table: map<nat, Chunk>, start: nat, i: nat) {
    && (forall p :: p in table ==> GoodChunk(code, p, table[p]))
    && (start > 0 ==> 0 in table)
    && (forall p :: 0 <= p < i && p < |code| && p != start && IsStart(code, p) && code[p] == JUMPDEST ==> p in table)
    && (forall p :: p in table ==> table[p].next in table || table[p].next == start)
  }

  lemma PendingFlush(code: Bytes, table: map<nat, Chunk>, start: nat, i: nat, c: Chunk)
    requires Pending(code, table, start, i) && GoodChunk(code, start, c) && c.next == i
    ensures Pending(code, table[start := c], i, i)
  {
  }

  lemma PendingAdvance(code: Bytes, table: map<nat, Chunk>, start: nat, i: nat)
    requires Pending(code, table, start, i) && i < |code| && IsStart(code, i)
    requires i == start || code[i] != JUMPDEST
    ensures Pending(code, table, start, NextInstr(code, i))
  {
    hide GoodChunk, StartsFrom;
    var j := NextInstr(code, i);
    forall p | 0 <= p < j && p < |code| && p != start && IsStart(code, p) && code[p] == JUMPDEST ensures p in table {
      if p > i {
        NoStartInside(code, 0, i, p);
      }
    }
  }

  /** The preprocessor's state before position i: a table, and pending instructions from `start` on with their totals. */
  ghost predicate Reading(code: Bytes, table: map<nat, Chunk>, start: nat, i: nat, ops: seq<ChunkOp>, s: Summary) {
    && IsStart(code, i) && IsStart(code, start) && start <= i && (ops == [] <==> start == i)
    && Matches(code, start, ops, i) && Summarize(ops) == s && s.gascost >= 0
    && (forall k :: 0 <= k < |ops| - 1 ==> !IsBreak(ops[k].op))
    && Pending(code, table, start, i)
  }

  /** Pending instructions become a chunk. */
  lemma ReadFlush(code: Bytes, table: map<nat, Chunk>, start: nat, i: nat, ops: seq<ChunkOp>, s: Summary)
    requires Reading(code, table, start, i, ops, s) && ops != []
    ensures Reading(code, table[start := Chunk(ops, s.minstack, 1024 - s.maxstack, s.gascost, i)], i, i, [], Summary(0, 0, 0, 0))
  {
    var c := Chunk(ops, s.minstack, 1024 - s.maxstack, s.gascost, i);
    MatchesInside(code, start, ops, i);
    assert GoodChunk(code, start, c);
    PendingFlush(code, table, start, i, c);
  }

  lemma MatchesInside(code: Bytes, p: nat, ops: seq<ChunkOp>, next: nat)
    requires Matches(code, p, ops, next) && ops != []
    ensures p < |code|
  {
  }

  /** One more instruction is pending. */
  lemma ReadNext(code: Bytes, table: map<nat, Chunk>, start: nat, i: nat, ops: seq<ChunkOp>, s: Summary, o: ChunkOp)
    requires Reading(code, table, start, i, ops, s) && i < |code| && (i == start || code[i] != JUMPDEST)
    requires ops != [] ==> !IsBreak(ops[|ops| - 1].op)
    requires o.op == code[i] && (IsPush(o.op) ==> o.pushval == PushValue(code, i))
    ensures Reading(code, table, start, NextInstr(code, i), ops + [o], AddOp(s, o.op))
  {
    hide IsStart, GoodChunk, IsBreak;
    MatchesSnoc(code, start, ops, i, o);
    SummarizeSnoc(ops, o);
    StartNext(code, i);
    PendingAdvance(code, table, start, i);
  }

  lemma ReadStart(code: Bytes)
    ensures Reading(code, map[], 0, 0, [], Summary(0, 0, 0, 0))
  {
  }

  lemma ReadEnd(code: Bytes, table: map<nat, Chunk>, i: nat, s: Summary)
    requires Reading(code, table, i, i, [], s) && i >= |code|
    ensures GoodTable(code, table)
  {
  }

  /** The preprocessor's loop fills a table that covers the code. */
  method PreprocessCode(code: Bytes) returns (outdict: map<nat, Chunk>)
    ensures GoodTable(code, outdict)
  {
    hide Reading, GoodTable, Info, IsBreak, StartsChunk, PushValue, Pending, Matches, Summarize;
    outdict := map[];
    var curStart: nat, i: nat := 0, 0;
    var ops: seq<ChunkOp> := [];
    var stack: int, minstack: int, maxstack: int, gascost: nat := 0, 0, 0, 0;
    ReadStart(code);
    while i < |code|
      invariant Reading(code, outdict, curStart, i, ops, Summary(minstack, maxstack, stack, gascost))
      invariant (ops == [] <==> curStart == i) && curStart <= i
      invariant ops != [] ==> !IsBreak(ops[|ops| - 1].op)
      decreases |code| + 33 - i
    {
      var o := code[i];
      if i > curStart && StartsChunk(o) {
        ReadFlush(code, outdict, curStart, i, ops, Summary(minstack, maxstack, stack, gascost));
        outdict := outdict[curStart := Chunk(ops, minstack, 1024 - maxstack, gascost, i)];
        curStart := i;
        ops := [];
        minstack, maxstack, stack, gascost := 0, 0, 0, 0;
      }
      JumpdestStartsChunk(o);
      var op := ChunkOp(o, if IsPush(o) then PushValue(code, i) else 0);
      ghost var before, next := Summary(minstack, maxstack, stack, gascost), NextInstr(code, i);
      ReadNext(code, outdict, curStart, i, ops, before, op);
      ops := ops + [op];
      if IsPush(o) { i := i + (o - 0x5f); }
      minstack := Max(ChunkInfo(o).ins - stack, minstack);
      stack := stack + ChunkInfo(o).outs - ChunkInfo(o).ins;
      maxstack := Max(stack, maxstack);
      gascost := gascost + ChunkInfo(o).fee;
      assert i + 1 == next && Summary(minstack, maxstack, stack, gascost) == AddOp(before, o);
      assert Reading(code, outdict, curStart, next, ops, Summary(minstack, maxstack, stack, gascost));
      if IsBreak(o) {
        BreakNotPush(o);
        ReadFlush(code, outdict, curStart, next, ops, Summary(minstack, maxstack, stack, gascost));
        outdict := outdict[curStart := Chunk(ops, minstack, 1024 - maxstack, gascost, i + 1)];
        curStart := i + 1;
        ops := [];
        minstack, maxstack, stack, gascost := 0, 0, 0, 0;
      }
      i := i + 1;
    }
    if ops != [] {
      ReadFlush(code, outdict, curStart, i, ops, Summary(minstack, maxstack, stack, gascost));
      outdict := outdict[curStart := Chunk(ops, minstack, 1024 - maxstack, gascost, i)];
      curStart, ops, minstack, maxstack, stack, gascost := i, [], 0, 0, 0, 0;
    }
    ReadEnd(code, outdict, i, Summary(minstack, maxstack, stack, gascost));
  }

  lemma JumpdestStartsChunk(op: Byte)
    ensures op == JUMPDEST ==> StartsChunk(op)
  {
  }

  lemma BreakNotPush(op: Byte)
    ensures IsBreak(op) ==> !IsPush(op)
  {
  }
}
