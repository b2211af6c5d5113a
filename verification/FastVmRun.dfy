/** The loop of ethereum/fastvm.py over the journaled state, proved against the step-by-step interpreter. */
module FastVmRun {
  import opened ByteStrings
  import opened BigEndian
  import opened Words
  import opened Opcodes
  import opened World
  import opened Machine
  import M = Machine
  import opened Evm
  import opened StateJournal
  import opened ComputeState
  import V = VmRun
  import opened FastVm
  import F = FastVm

  /** What was done is the effect e of the chunked interpreter. */
  ghost predicate Did(e: Effect, out: V.Outcome, m': Machine, w': World) {
    match e
    case Fail => out == V.Exception
    case Halt(success, gas, data, w1) => out == V.Exit(success, gas, data) && w' == w1
    case Next(m1, w1) => out == V.Continue && m' == m1 && w' == w1
    case Invoke(_, _, _, _) => false
    case Create(_, _) => false
  }

  /** Jumps only look at the byte they land on. */
  method RunFastJump(code: Bytes, c: Compustate, conditional: bool) returns (ok: bool)
    requires |c.stack| >= if conditional then 2 else 1
    modifies c`stack, c`pc
    ensures ok == ((conditional && Arg(old(c.stack), 1) == 0) || FastJump(code, Arg(old(c.stack), 0)))
    ensures ok ==> c.stack == Popped(old(c.stack), if conditional then 2 else 1)
    ensures ok ==> c.pc == if conditional && Arg(old(c.stack), 1) == 0 then old(c.pc) else Arg(old(c.stack), 0)
  {
    var s0 := c.Pop();
    if conditional {
      var s1 := c.Pop();
      if s1 == 0 {
        return true;
      }
    }
    c.pc := s0;
    var opnew := if c.pc < |code| then code[c.pc] else 0;
    return opnew == JUMPDEST;
  }

  /** The instructions from 0x50 to 0x5f but jumps. */
  method RunFastMachine(ext: State, env: Env, msg: Message, code: Bytes, c: Compustate, op: Byte) returns (ok: bool)
    requires ext.Valid() && c.MemoryPaid() && c.gas >= 0 && c.pc > 0
    requires 0x50 <= op < 0x60 && op != JUMP && op != JUMPI && Info(op).Some? && |c.stack| >= Info(op).value.ins
    modifies ext, ext.Accounts(), c
    ensures ext.Valid() && ext.Moved() && c.MemoryPaid()
    ensures ExecMachine(env, msg, code, old(c.Value()), old(ext.View()), op) == if ok then Next(c.Value(), ext.View()) else Fail
  {
    hide State.View, CachedAccount.View, Undoes, ExecMemory, ExecSload, ExecSstore, ExecJump, Environment, MemFee,
      ValidJump;
    ghost var w := ext.View();
    UndoesNothing(w, ext.journal);
    V.Apart(ext, c);
    ok := true;
    if op == POP {
      var v := c.Pop();
    } else if op == MLOAD || op == MSTORE || op == MSTORE8 {
      ok := V.RunMemory(c, op, w);
    } else if op == SLOAD {
      ok := V.RunSload(ext, env, msg, c);
    } else if op == SSTORE {
      ok := V.RunSstore(ext, msg, c);
    } else if op == JUMPDEST {
    } else {
      V.RunEnvironment(env, msg, code, c, op, w);
    }
  }

  /** One instruction of a chunk; fees and stack heights were checked for the whole chunk. */
  method RunOp(ext: State, env: Env, msg: Message, code: Bytes, c: Compustate, o: ChunkOp) returns (out: V.Outcome)
    requires ext.Valid() && c.MemoryPaid() && c.gas >= 0 && c.pc > 0
    requires Supported(o.op) && Info(o.op).Some? && |c.stack| >= Info(o.op).value.ins
    modifies ext, ext.Accounts(), c
    ensures ext.Valid() && ext.Moved() && c.MemoryPaid()
    ensures Did(FastExec(env, msg, code, old(c.Value()), old(ext.View()), o), out, c.Value(), ext.View())
  {
    hide State.View, CachedAccount.View, Undoes, MemFee;
    hide M.Arithmetic, M.Comparison, Environment, ExecMachine, Swap, ExecReturn, FastJump;
    ghost var w := ext.View();
    UndoesNothing(w, ext.journal);
    V.Apart(ext, c);
    var op := o.op;
    var ok := true;
    if IsPush(op) {
      c.Push(o.pushval);
    } else if op == STOP {
      return V.Exit(true, c.gas, []);
    } else if op < 0x10 {
      c.Arithmetic(op);
    } else if op < 0x20 {
      c.Comparison(op);
    } else if op < 0x50 {
      V.RunEnvironment(env, msg, code, c, op, w);
    } else if op == JUMP || op == JUMPI {
      ok := RunFastJump(code, c, op == JUMPI);
    } else if op < 0x60 {
      ok := RunFastMachine(ext, env, msg, code, c, op);
    } else if op < 0x90 {
      c.Dup(op);
    } else if op < 0xa0 {
      c.SwapTop(op);
    } else {
      var data := V.RunReturn(c, true, w);
      return if data.Some? then V.Exit(true, c.gas, data.value) else V.Exception;
    }
    return if ok then V.Continue else V.Exception;
  }

  /** A chunk of ops can be run from a stack of this height. */
  predicate Runnable(ops: seq<ChunkOp>, m: Machine) {
    && StaticOk(ops, |m.stack|, Fees(ops)) && StraightLine(ops)
    && m.pc > 0 && m.gas >= 0
  }

  ghost function Rest(env: Env, msg: Message, code: Bytes, ops: seq<ChunkOp>, m: Machine, w: World): Effect
    requires Runnable(ops, m)
  {
    FastOps(env, msg, code, ops, m, w)
  }

  /** One instruction of a chunk, and the rest. */
  lemma FastOpsStep(env: Env, msg: Message, code: Bytes, ops: seq<ChunkOp>, m: Machine, w: World)
    requires Runnable(ops, m) && ops != []
    ensures Supported(ops[0].op) && Info(ops[0].op).Some? && |m.stack| >= Info(ops[0].op).value.ins
    ensures var e := FastExec(env, msg, code, m, w, ops[0]);
            var all := Rest(env, msg, code, ops, m, w);
            && (!e.Next? || |ops| == 1 ==> all == e)
            && (e.Next? && |ops| > 1 ==> Runnable(ops[1..], e.m) && all == Rest(env, msg, code, ops[1..], e.m, e.world))
  {
    hide FastExec, Info, Supported;
    FastExecBounds(env, msg, code, m, w, ops[0]);
    if |ops| > 1 {
      StraightLineTail(ops);
      assert !IsBreak(ops[0].op);
    } else {
      assert ops[1..] == [];
    }
  }

  /** The for loop over a chunk. */
  method RunChunk(ext: State, env: Env, msg: Message, code: Bytes, c: Compustate, ops: seq<ChunkOp>)
    returns (out: V.Outcome)
    requires ext.Valid() && c.MemoryPaid() && Runnable(ops, c.Value()) && ops != []
    modifies ext, ext.Accounts(), c
    ensures ext.Valid() && ext.Moved() && c.MemoryPaid()
    ensures Did(Rest(env, msg, code, ops, old(c.Value()), old(ext.View())), out, c.Value(), ext.View())
  {
    hide State.View, CachedAccount.View, Undoes, MemFee, Rest, FastExec, Runnable, Info, Supported;
    ghost var w, j := ext.View(), ext.journal;
    ghost var e := Rest(env, msg, code, ops, c.Value(), w);
    UndoesNothing(w, j);
    var i := 0;
    assert ops[0..] == ops;
    while i < |ops|
      invariant i <= |ops| && ext.Valid() && ext.Extends() && Undoes(w, j, ext.View(), ext.journal) && c.MemoryPaid()
      invariant i < |ops| ==> Runnable(ops[i..], c.Value()) && e == Rest(env, msg, code, ops[i..], c.Value(), ext.View())
      invariant i == |ops| ==> e == Next(c.Value(), ext.View())
    {
      ghost var m1, w1, j1 := c.Value(), ext.View(), ext.journal;
      FastOpsStep(env, msg, code, ops[i..], m1, w1);
      RunnableParts(ops[i..], m1);
      out := RunOp(ext, env, msg, code, c, ops[i]);
      UndoesTransitive(w, j, w1, j1, ext.View(), ext.journal);
      if out != V.Continue {
        return;
      }
      if i + 1 < |ops| { assert ops[i..][1..] == ops[i + 1..]; }
      i := i + 1;
    }
    return V.Continue;
  }

  lemma RunnableParts(ops: seq<ChunkOp>, m: Machine)
    requires Runnable(ops, m)
    ensures m.pc > 0 && m.gas >= 0
  {
  }

  /** One turn of the loop: the checks of a chunk, then its instructions. It decides the run or leads on to the rest of it. */
  method ChunkTurn(ext: State, env: Env, msg: Message, code: Bytes, ghost table: map<nat, Chunk>, c: Compustate,
      chunk: Chunk) returns (out: V.Outcome)
    requires ext.Valid() && c.MemoryPaid() && SupportedCode(code) && GoodTable(code, table)
    requires c.gas >= 0 && |c.stack| <= 1024 && c.pc in table && chunk == table[c.pc]
    modifies ext, ext.Accounts(), c
    ensures ext.Valid() && ext.Moved() && c.MemoryPaid()
    ensures var r := FastRun(env, msg, code, table, old(c.Value()), old(ext.View()));
            match out
            case Exception => Failed(r)
            case Exit(s, g, d) => r == Result(s, g, d, ext.View(), false)
            case Continue =>
              0 <= c.gas < old(c.gas) && |c.stack| <= 1024 && r == FastRun(env, msg, code, table, c.Value(), ext.View())
  {
    hide State.View, CachedAccount.View, Undoes, MemFee, FastRun, FastOps, SupportedCode, GoodTable, StaticOk, Fees,
      Summarize;
    hide IsStart, StartsFrom, Matches, StraightLine, Info, Supported, IsBreak;
    TableChunks(code, table, c.pc);
    FastUnfold(env, msg, code, table, c.Value(), ext.View(), chunk);
    UndoesNothing(ext.View(), ext.journal);
    V.Apart(ext, c);
    if |c.stack| < chunk.minstack || |c.stack| > chunk.maxstack || chunk.gascost > c.gas {
      return V.Exception;
    }
    c.gas := c.gas - chunk.gascost;
    c.pc := chunk.next;
    if Info(chunk.ops[|chunk.ops| - 1].op).None? {
      return V.Exception;
    }
    out := RunChunk(ext, env, msg, code, c, chunk.ops);
  }

  /** The chunked loop returns what the step-by-step interpreter returns, and on success leaves the same world. */
  method VmExecute(ext: State, env: Env, msg: Message, code: Bytes) returns (success: bool, gas: int, data: Bytes)
    requires SoundEnv(env) && ext.Valid() && SupportedCode(code) && msg.gas >= 0
    modifies ext, ext.Accounts()
    ensures ext.Valid() && ext.Moved()
    ensures var r := Execute(env, msg, code, Start(msg.gas), old(ext.View()), false);
            success == r.success && gas == r.gas && data == r.data && (success ==> ext.View() == r.world)
  {
    hide State.View, CachedAccount.View, Undoes, MemFee, FastRun, Execute, SupportedCode, GoodTable, SoundEnv;
    ghost var w, j := ext.View(), ext.journal;
    UndoesNothing(w, j);
    var compustate := new Compustate(msg.gas);
    var processed := F.PreprocessCode(code);
    ghost var r := FastRun(env, msg, code, processed, Start(msg.gas), w);
    FastVmRefinesVm(env, msg, code, processed, w);
    while compustate.pc in processed
      invariant ext.Valid() && ext.Extends() && Undoes(w, j, ext.View(), ext.journal)
      invariant compustate.MemoryPaid() && fresh(compustate)
      invariant compustate.gas >= 0 && |compustate.stack| <= 1024
      invariant r == FastRun(env, msg, code, processed, compustate.Value(), ext.View())
      decreases compustate.gas
    {
      ghost var w1, j1 := ext.View(), ext.journal;
      var out := ChunkTurn(ext, env, msg, code, processed, compustate, processed[compustate.pc]);
      UndoesTransitive(w, j, w1, j1, ext.View(), ext.journal);
      match out {
        case Exception => return false, 0, [];
        case Exit(s, g, d) => return s, g, d;
        case Continue =>
      }
    }
    FastEnd(env, msg, code, processed, compustate.Value(), ext.View());
    if compustate.pc >= |code| {
      return true, compustate.gas, [];
    }
    return false, 0, [];
  }

  lemma FastEnd(env: Env, msg: Message, code: Bytes, table: map<nat, Chunk>, m: Machine, w: World)
    requires SupportedCode(code) && GoodTable(code, table) && m.gas >= 0 && |m.stack| <= 1024 && m.pc !in table
    ensures FastRun(env, msg, code, table, m, w)
         == if m.pc >= |code| then Result(true, m.gas, [], w, false) else Result(false, 0, [], w, false)
  {
  }
}
