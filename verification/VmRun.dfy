/** The interpreter of ethereum/vm.py and the message calls of ethereum/messages.py over the journaled state. */
module VmRun {
  import opened ByteStrings
  import opened BigEndian
  import opened Words
  import opened Opcodes
  import opened World
  import opened Machine
  import M = Machine
  import opened Evm
  import opened StateJournal
  import opened ComputeState
  import L = MessageLaws

  /** The machine state is no account object. */
  lemma Apart(ext: State, c: Compustate)
    ensures forall o: object :: o in ext.Accounts() ==> o != c
  {
  }

  // ---- environment and memory ----

  /** Extends memory, pays for the copy and copies; m is the machine before the n arguments were popped. */
  method CopyToMemory(c: Compustate, start: nat, src: Bytes, s2: nat, size: nat, ghost m: Machine, ghost w: World,
      ghost n: nat) returns (ok: bool)
    requires c.MemoryPaid()
    requires n <= |m.stack| && c.Value() == m.(stack := Popped(m.stack, n), gas := c.gas)
    modifies c`gas, c`memory, c`paid
    ensures c.MemoryPaid()
    ensures CopyOp(m, w, n, old(c.gas), start, src, s2, size) == if ok then Next(c.Value(), w) else Fail
  {
    hide M.MemExtend, CopyTo, CopyFee, MemFee;
    ok := c.MemExtend(start, size);
    if ok {
      MemExtendRoom(m.mem, old(c.gas), start, size);
      ok := c.DataCopy(size);
      if ok {
        c.CopyIn(start, src, s2, size);
      }
    }
  }

  lemma MemExtendRoom(mem: Bytes, gas: int, start: nat, size: nat)
    ensures var r := M.MemExtend(mem, gas, start, size); r.Extended? && size > 0 ==> start + size <= |r.mem|
  {
  }

  method RunSha3(env: Env, c: Compustate, ghost w: World) returns (ok: bool)
    requires |c.stack| >= 2 && c.MemoryPaid()
    modifies c
    ensures c.MemoryPaid()
    ensures ExecSha3(env, old(c.Value()), w) == if ok then Next(c.Value(), w) else Fail
  {
    hide Ceil32, M.MemExtend, MemFee, Slice;
    var s0 := c.Pop();
    var s1 := c.Pop();
    c.gas := c.gas - GSHA3WORD * (Ceil32(s1) / 32);
    if c.gas < 0 {
      return false;
    }
    ok := c.MemExtend(s0, s1);
    if ok {
      c.Push(env.sha3(Slice(c.memory, s0, (s0 as int) + s1)));
    }
  }

  /** CALLDATACOPY, CODECOPY and RETURNDATACOPY. */
  method RunCopy(env: Env, msg: Message, code: Bytes, c: Compustate, op: Byte, ghost w: World) returns (ok: bool)
    requires op == CALLDATACOPY || op == CODECOPY || op == RETURNDATACOPY
    requires |c.stack| >= 3 && c.MemoryPaid() && Covered(msg.data)
    modifies c
    ensures c.MemoryPaid()
    ensures ExecEnvironment(env, msg, code, old(c.Value()), w, op) == if ok then Next(c.Value(), w) else Fail
  {
    hide M.MemExtend, CopyTo, CopyFee, MemFee, ExtractAll;
    ghost var m := c.Value();
    var mstart := c.Pop();
    var dstart := c.Pop();
    var size := c.Pop();
    if op == CALLDATACOPY {
      ok := c.MemExtend(mstart, size);
      if ok {
        MemExtendRoom(m.mem, m.gas, mstart, size);
        ok := c.DataCopy(size);
        if ok {
          c.ExtractCopy(msg.data, mstart, dstart, size);
        }
      }
    } else if op == CODECOPY {
      ok := CopyToMemory(c, mstart, code, dstart, size, m, w, 3);
    } else {
      ok := CopyToMemory(c, mstart, c.lastReturned, dstart, size, m, w, 3);
      if ok && (dstart as int) + size > |c.lastReturned| {
        return false;
      }
    }
  }

  /** BALANCE and EXTCODESIZE look at another account. */
  method RunAccount(ext: State, env: Env, c: Compustate, isBalance: bool) returns (ok: bool)
    requires ext.Valid() && |c.stack| >= 1 && c.gas >= 0
    modifies ext`cache, c`gas, c`stack
    ensures ext.Valid() && ext.Extends() && ext.View() == old(ext.View())
    ensures (if isBalance then ExecBalance(env, old(c.Value()), old(ext.View()))
             else ExecExtcodesize(env, old(c.Value()), old(ext.View())))
         == if ok then Next(c.Value(), old(ext.View())) else Fail
  {
    hide State.View, Mask, Acct;
    Apart(ext, c);
    if env.antiDos {
      ok := c.EatGas(if isBalance then BALANCE_SUPPLEMENTAL_GAS else EXTCODELOAD_SUPPLEMENTAL_GAS);
      if !ok {
        return;
      }
    }
    var word := c.Pop();
    var addr: Address := word % TT160;
    if isBalance {
      var b := ext.GetBalance(addr);
      Apart(ext, c);
      c.Push(Mask(b));
    } else {
      var extcode := ext.GetCode(addr);
      Apart(ext, c);
      c.Push(Mask(|extcode|));
    }
    ok := true;
  }

  method RunExtcodecopy(ext: State, env: Env, c: Compustate) returns (ok: bool)
    requires ext.Valid() && |c.stack| >= 4 && c.MemoryPaid() && c.gas >= 0
    modifies ext`cache, c
    ensures ext.Valid() && ext.Extends() && ext.View() == old(ext.View()) && c.MemoryPaid()
    ensures ExecExtcodecopy(env, old(c.Value()), old(ext.View()))
         == if ok then Next(c.Value(), old(ext.View())) else Fail
  {
    hide State.View, CopyOp, Acct, MemFee;
    ghost var m, w := c.Value(), ext.View();
    Apart(ext, c);
    if env.antiDos {
      ok := c.EatGas(EXTCODELOAD_SUPPLEMENTAL_GAS);
      if !ok {
        return;
      }
    }
    var args := c.PopMany(4);
    assert c.gas == m.gas - Supplement(env, EXTCODELOAD_SUPPLEMENTAL_GAS);
    var extcode := ext.GetCode(args[0] % TT160);
    Apart(ext, c);
    assert ext.View() == w;
    ok := CopyToMemory(c, args[1], extcode, args[2], args[3], m, w, 4);
  }

  /** The instructions that push a word of the environment. */
  method RunEnvironment(env: Env, msg: Message, code: Bytes, c: Compustate, op: Byte, ghost w: World)
    requires Info(op).Some? && |c.stack| >= Info(op).value.ins && c.pc > 0
    requires (0x30 <= op <= 0x3d && Info(op).value.outs == 1 && op != BALANCE && op != EXTCODESIZE)
          || 0x40 <= op <= 0x45 || 0x58 <= op <= 0x5a
    modifies c`stack
    ensures c.Value() == Reply(old(c.Value()), Info(op).value.ins, Environment(env, msg, code, old(c.Value()), op))
  {
    hide Mask, Extract32;
    if op == 0x30 { c.Push(msg.to); }
    else if op == 0x32 { c.Push(env.txOrigin); }
    else if op == 0x33 { c.Push(msg.sender); }
    else if op == 0x34 { c.Push(msg.value); }
    else if op == 0x35 {
      var i := c.Pop();
      c.Push(Extract32(msg.data, i));
    }
    else if op == 0x36 { c.Push(Mask(msg.data.size)); }
    else if op == 0x38 { c.Push(Mask(|code|)); }
    else if op == 0x3a { c.Push(env.txGasPrice); }
    else if op == 0x3d { c.Push(Mask(|c.lastReturned|)); }
    else if op == 0x40 {
      var n := c.Pop();
      c.Push(env.blockHash(n));
    }
    else if op == 0x41 { c.Push(env.coinbase); }
    else if op == 0x42 { c.Push(env.timestamp); }
    else if op == 0x43 { c.Push(env.number); }
    else if op == 0x44 { c.Push(env.difficulty); }
    else if op == 0x45 { c.Push(env.gasLimit); }
    else if op == PC { c.Push(Mask(c.pc - 1)); }
    else if op == 0x59 { c.Push(Mask(|c.memory|)); }
    else { c.Push(Mask(c.gas)); }
  }

  // ---- memory, storage and jumps ----

  method RunMemory(c: Compustate, op: Byte, ghost w: World) returns (ok: bool)
    requires op == MLOAD || op == MSTORE || op == MSTORE8
    requires |c.stack| >= (if op == MLOAD then 1 else 2) && c.MemoryPaid()
    modifies c
    ensures c.MemoryPaid()
    ensures ExecMemory(old(c.Value()), w, op) == if ok then Next(c.Value(), w) else Fail
  {
    hide M.MemExtend, CopyTo, MemFee, EncodeInt32, WordOf, Window;
    ghost var m := c.Value();
    var s0 := c.Pop();
    if op == MLOAD {
      ok := c.MemExtend(s0, 32);
      if ok {
        c.Push(WordOf(Window(c.memory, s0, 32)));
      }
    } else {
      var s1 := c.Pop();
      var size := if op == MSTORE then 32 else 1;
      ok := c.MemExtend(s0, size);
      if ok {
        MemExtendRoom(m.mem, m.gas, s0, size);
        c.CopyIn(s0, if op == MSTORE then EncodeInt32(s1) else [s1 % 256], 0, size);
      }
    }
  }

  method RunSload(ext: State, env: Env, msg: Message, c: Compustate) returns (ok: bool)
    requires ext.Valid() && |c.stack| >= 1 && c.gas >= 0
    modifies ext, ext.Accounts(), c`gas, c`stack
    ensures ext.Valid() && ext.Extends() && ext.View() == old(ext.View()) && ext.journal == old(ext.journal)
    ensures ExecSload(env, msg, old(c.Value()), old(ext.View()))
         == if ok then Next(c.Value(), old(ext.View())) else Fail
  {
    hide State.View, CachedAccount.View;
    if env.antiDos {
      ok := c.EatGas(SLOAD_SUPPLEMENTAL_GAS);
      if !ok {
        return;
      }
    }
    var s0 := c.Pop();
    var v := ext.GetStorageData(msg.to, s0);
    Apart(ext, c);
    c.Push(v);
    ok := true;
  }

  method RunSstore(ext: State, msg: Message, c: Compustate) returns (ok: bool)
    requires ext.Valid() && |c.stack| >= 2
    modifies ext, ext.Accounts(), c`gas, c`stack
    ensures ext.Valid() && ext.Moved()
    ensures ExecSstore(msg, old(c.Value()), old(ext.View())) == if ok then Next(c.Value(), ext.View()) else Fail
  {
    hide State.View, CachedAccount.View, Undoes, WithSlot, Acct, Put;
    UndoesNothing(ext.View(), ext.journal);
    var s0 := c.Pop();
    var s1 := c.Pop();
    if msg.isStatic {
      return false;
    }
    var present := ext.GetStorageData(msg.to, s0);
    Apart(ext, c);
    var gascost, refund;
    if present != 0 {
      gascost := if s1 != 0 then GSTORAGEMOD else GSTORAGEKILL;
      refund := if s1 != 0 then 0 else GSTORAGEREFUND;
    } else {
      gascost := if s1 != 0 then GSTORAGEADD else GSTORAGEMOD;
      refund := 0;
    }
    if c.gas < gascost {
      return false;
    }
    c.gas := c.gas - gascost;
    RefundAndStore(ext, refund, msg.to, s0, s1);
    return true;
  }

  method RefundAndStore(ext: State, refund: int, a: Address, key: Word, value: Word)
    requires ext.Valid()
    modifies ext, ext.Accounts()
    ensures ext.Valid() && ext.Moved()
    ensures ext.View() == SetStorage(AddRefund(old(ext.View()), refund), a, key, value)
  {
    hide State.View, CachedAccount.View, Undoes, WithSlot, Acct, Put;
    ghost var w0, j0 := ext.View(), ext.journal;
    ext.AddRefund(refund);
    ghost var w1, j1 := ext.View(), ext.journal;
    ext.SetStorageData(a, key, value);
    UndoesTransitive(w0, j0, w1, j1, ext.View(), ext.journal);
  }

  method RunJump(code: Bytes, mask: set<nat>, c: Compustate, conditional: bool, ghost w: World) returns (ok: bool)
    requires |c.stack| >= if conditional then 2 else 1
    requires forall p: nat :: p in mask <==> ValidJump(code, p)
    modifies c`stack, c`pc
    ensures ExecJump(code, old(c.Value()), w, conditional) == if ok then Next(c.Value(), w) else Fail
  {
    hide IsStart;
    var s0 := c.Pop();
    if !conditional {
      if s0 >= |code| || s0 !in mask {
        return false;
      }
      c.pc := s0;
    } else {
      var s1 := c.Pop();
      if s1 != 0 {
        if s0 >= |code| || s0 !in mask {
          return false;
        }
        c.pc := s0;
      }
    }
    return true;
  }

  // ---- logs, the end of a frame ----

  method RunLog(ext: State, msg: Message, c: Compustate, depth: nat) returns (ok: bool)
    requires ext.Valid() && |c.stack| >= depth + 2 && c.MemoryPaid()
    modifies ext, ext.Accounts(), c
    ensures ext.Valid() && ext.Moved() && c.MemoryPaid()
    ensures ExecLog(msg, old(c.Value()), old(ext.View()), depth) == if ok then Next(c.Value(), ext.View()) else Fail
  {
    hide State.View, CachedAccount.View, Undoes, M.MemExtend, MemFee, Slice;
    ghost var m := c.Value();
    UndoesNothing(ext.View(), ext.journal);
    var mstart := c.Pop();
    var msz := c.Pop();
    var topics := c.PopMany(depth);
    assert topics == Topics(m.stack, depth);
    c.gas := c.gas - msz * GLOGBYTE;
    if msg.isStatic {
      return false;
    }
    ok := c.MemExtend(mstart, msz);
    if ok {
      var data := Slice(c.memory, mstart, mstart + msz);
      ext.AddLog(Log(msg.to, topics, data));
    }
  }

  /** RETURN and REVERT; None is the exception. */
  method RunReturn(c: Compustate, success: bool, ghost w: World) returns (data: Option<Bytes>)
    requires |c.stack| >= 2 && c.MemoryPaid()
    modifies c
    ensures c.MemoryPaid()
    ensures ExecReturn(old(c.Value()), w, success) == if data.Some? then Halt(success, c.gas, data.value, w) else Fail
  {
    hide M.MemExtend, MemFee, Slice;
    var s0 := c.Pop();
    var s1 := c.Pop();
    var ok := c.MemExtend(s0, s1);
    if !ok {
      return None;
    }
    return Some(Slice(c.memory, s0, (s0 as int) + s1));
  }

  method RunSuicide(ext: State, env: Env, msg: Message, c: Compustate) returns (ok: bool)
    requires ext.Valid() && |c.stack| >= 1 && c.gas >= 0
    modifies ext, ext.Accounts(), c`gas, c`stack
    ensures ext.Valid() && ext.Moved()
    ensures ExecSuicide(env, msg, old(c.Value()), old(ext.View())) == if ok then Halt(true, c.gas, [], ext.View()) else Fail
  {
    hide State.View, CachedAccount.View, Undoes, W.AccountExists, W.SetBalance, W.GetBalance;
    UndoesNothing(ext.View(), ext.journal);
    if msg.isStatic {
      return false;
    }
    var word := c.Pop();
    var to: Address := word % TT160;
    var xfer := ext.GetBalance(msg.to);
    Apart(ext, c);
    if env.antiDos {
      var known := ext.AccountExists(env, to);
      Apart(ext, c);
      var extraGas := SUICIDE_SUPPLEMENTAL_GAS
                      + if !known && (xfer > 0 || !env.spuriousDragon) then GCALLNEWACCOUNT else 0;
      ok := c.EatGas(extraGas);
      if !ok {
        return;
      }
    }
    Sweep(ext, msg.to, to, xfer);
    ok := true;
  }

  method Sweep(ext: State, from: Address, to: Address, xfer: int)
    requires ext.Valid()
    modifies ext, ext.Accounts()
    ensures ext.Valid() && ext.Moved()
    ensures var w1 := SetBalance(old(ext.View()), to, GetBalance(old(ext.View()), to) + xfer);
            ext.View() == AddSuicide(SetBalance(w1, from, 0), from)
  {
    hide State.View, CachedAccount.View, Undoes, W.SetBalance, W.GetBalance;
    ghost var w0, j0 := ext.View(), ext.journal;
    var b := ext.GetBalance(to);
    ext.SetBalance(to, b + xfer);
    ghost var w1, j1 := ext.View(), ext.journal;
    ext.SetBalance(from, 0);
    ghost var w2, j2 := ext.View(), ext.journal;
    UndoesTransitive(w0, j0, w1, j1, w2, j2);
    ext.AddSuicide(from);
    UndoesTransitive(w0, j0, w2, j2, ext.View(), ext.journal);
  }

  // ---- one turn of the loop ----

  datatype Outcome = Continue | Exception | Exit(success: bool, gas: int, data: Bytes)

  /** What was done is the effect e: on from the machine m' and the world w', or out. */
  ghost predicate Ran(env: Env, e: Effect, w: World, out: Outcome, m': Machine, w': World)
    requires SoundEnv(env)
  {
    match e
    case Fail => out == Exception
    case Halt(success, gas, data, w1) => out == Exit(success, gas, data) && w' == w1
    case Next(m1, w1) => out == Continue && m' == m1 && w' == w1
    case Invoke(m1, call, outStart, outSize) =>
      var sub := Evm.ApplyMsg(env, call, CalledCode(w, call), w);
      out == Continue && m' == AfterCall(m1, sub.success, sub.gas, sub.data, outStart, outSize) && w' == sub.world
    case Create(m1, call) =>
      var sub := Evm.CreateContract(env, call, w);
      out == Continue && m' == AfterCreate(m1, call.gas, sub.success, sub.gas, sub.addr, sub.data) && w' == sub.world
  }

  /** Extra gas for a call. */
  method CallExtraGas(ext: State, env: Env, op: Byte, to: Address, value: Word) returns (extraGas: nat)
    requires ext.Valid()
    modifies ext`cache
    ensures ext.Valid() && ext.Extends() && ext.View() == old(ext.View())
    ensures extraGas == ExtraGas(env, ext.View(), op, to, value)
  {
    hide State.View, W.AccountExists;
    extraGas := 0;
    if op == CALL {
      var known := ext.AccountExists(env, to);
      if !known && (value > 0 || !env.spuriousDragon) {
        extraGas := extraGas + GCALLNEWACCOUNT;
      }
    }
    if value > 0 {
      extraGas := extraGas + GCALLVALUETRANSFER;
    }
    if env.antiDos {
      extraGas := extraGas + CALL_SUPPLEMENTAL_GAS;
    }
  }

  /** The caller after a call: the flag, the output window, the gas given back. */
  method FinishCall(c: Compustate, result: bool, gas: int, data: Bytes, memoutstart: nat, memoutsz: nat)
    requires c.MemoryPaid() && (memoutsz > 0 ==> memoutstart + memoutsz <= |c.memory|)
    modifies c
    ensures c.MemoryPaid()
    ensures c.Value() == AfterCall(old(c.Value()), result, gas, data, memoutstart, memoutsz)
  {
    hide CopyTo, MemFee;
    c.Push(if result then 1 else 0);
    var n := if |data| < memoutsz then |data| else memoutsz;
    if n > 0 {
      c.CopyIn(memoutstart, data, 0, n);
    }
    c.gas := c.gas + gas;
    c.lastReturned := data;
  }

  /** The gas a call may pass on; None when the caller cannot pay. */
  method ChooseGas(env: Env, available: int, askedGas: Word, extraGas: nat) returns (gas: Option<int>)
    ensures gas == CallGasLimit(env, available, askedGas, extraGas)
  {
    if env.antiDos {
      if available < extraGas {
        return None;
      }
      return Some(MinInt(askedGas, AllBut1N(available - extraGas, CALL_CHILD_LIMIT_DENOM)));
    }
    if available < askedGas as int + extraGas {
      return None;
    }
    return Some(askedGas);
  }

  function MinInt(a: int, b: int): int { if b < a then b else a }

  /** Gas, balance and depth of a call; then the call itself. */
  method PlaceCall(ext: State, env: Env, msg: Message, c: Compustate, op: Byte, askedGas: Word, to: Address,
      value: Word, cd: CallData, memoutstart: nat, memoutsz: nat) returns (out: Outcome)
    requires SoundEnv(env) && ext.Valid() && c.MemoryPaid() && Covered(cd)
    requires memoutsz > 0 ==> memoutstart + memoutsz <= |c.memory|
    modifies ext, ext.Accounts(), c
    ensures ext.Valid() && ext.Moved() && c.MemoryPaid()
    ensures Ran(env, CallWith(env, msg, old(c.Value()), old(ext.View()), op, askedGas, to, value, cd, memoutstart, memoutsz),
                old(ext.View()), out, c.Value(), ext.View())
    decreases DepthLeft(msg.depth), 0, 1
  {
    hide State.View, CachedAccount.View, Undoes, ExtraGas, MemFee, SoundEnv, SendCall, CallGasLimit, Ran;
    ghost var w := ext.View();
    UndoesNothing(w, ext.journal);
    Apart(ext, c);
    var extraGas := CallExtraGas(ext, env, op, to, value);
    Apart(ext, c);
    var gas := ChooseGas(env, c.gas, askedGas, extraGas);
    if gas == None {
      RanFail(env, w, c.Value(), ext.View());
      return Exception;
    }
    Apart(ext, c);
    out := SendMessage(ext, env, msg, c, op, gas.value, extraGas, to, value, cd, memoutstart, memoutsz);
  }

  method SendMessage(ext: State, env: Env, msg: Message, c: Compustate, op: Byte, gas: nat, extraGas: nat, to: Address,
      value: Word, cd: CallData, memoutstart: nat, memoutsz: nat) returns (out: Outcome)
    requires SoundEnv(env) && ext.Valid() && c.MemoryPaid() && Covered(cd)
    requires memoutsz > 0 ==> memoutstart + memoutsz <= |c.memory|
    modifies ext, ext.Accounts(), c
    ensures ext.Valid() && ext.Moved() && c.MemoryPaid()
    ensures Ran(env, SendCall(env, msg, old(c.Value()), old(ext.View()), op, gas, extraGas, to, value, cd, memoutstart, memoutsz),
                old(ext.View()), out, c.Value(), ext.View())
    decreases DepthLeft(msg.depth), 0, 0
  {
    hide State.View, CachedAccount.View, Undoes, MemFee, SoundEnv, W.GetBalance, W.GetCode, CallMessage, Evm.ApplyMsg,
      AfterCall, Ran;
    ghost var w := ext.View();
    UndoesNothing(w, ext.journal);
    var submsgGas := gas + if value > 0 then GSTIPEND else 0;
    var b := ext.GetBalance(msg.to);
    Apart(ext, c);
    if b < value || msg.depth >= MAX_DEPTH {
      c.gas := c.gas - (gas + extraGas - submsgGas);
      c.Push(0);
      c.lastReturned := [];
      RanNext(env, c.Value(), w);
      return Continue;
    }
    c.gas := c.gas - (gas + extraGas);
    var callMsg := CallMessage(env, msg, op, to, value, submsgGas, cd);
    if callMsg == None {
      RanFail(env, w, c.Value(), ext.View());
      return Exception;
    }
    CallMessageForm(env, msg, op, to, value, submsgGas, cd);
    Deliver(ext, env, callMsg.value, to, c, memoutstart, memoutsz);
    return Continue;
  }

  /** `ext.msg`: the callee's code is fetched and run, and the caller continues with the result. */
  method Deliver(ext: State, env: Env, call: Message, to: Address, c: Compustate, memoutstart: nat, memoutsz: nat)
    requires SoundEnv(env) && ext.Valid() && c.MemoryPaid() && Covered(call.data) && call.gas >= 0
    requires call.codeAddress == Some(to)
    requires memoutsz > 0 ==> memoutstart + memoutsz <= |c.memory|
    modifies ext, ext.Accounts(), c
    ensures ext.Valid() && ext.Moved() && c.MemoryPaid()
    ensures Ran(env, Invoke(old(c.Value()), call, memoutstart, memoutsz), old(ext.View()), Continue, c.Value(), ext.View())
    decreases DepthLeft(call.depth), 2, 0
  {
    hide State.View, CachedAccount.View, Undoes, MemFee, SoundEnv, W.GetCode, Evm.ApplyMsg, AfterCall, Ran;
    ghost var m, w := c.Value(), ext.View();
    var code := ext.GetCode(to);
    var result, gasLeft, data := ApplyMsg(ext, env, call, code);
    Apart(ext, c);
    FinishCall(c, result, gasLeft, data, memoutstart, memoutsz);
    RanInvoke(env, m, call, code, memoutstart, memoutsz, w, Result(result, gasLeft, data, ext.View(), false), c.Value());
  }

  lemma CallMessageForm(env: Env, msg: Message, op: Byte, to: Address, value: Word, gas: int, cd: CallData)
    ensures var call := CallMessage(env, msg, op, to, value, gas, cd);
            call.Some? ==>
              && call.value.depth == msg.depth + 1 && call.value.gas == gas && call.value.data == cd
              && call.value.codeAddress == Some(to)
  {
  }

  /** Memory for the input of a call, then for its output. */
  method MemExtendTwice(c: Compustate, start1: nat, size1: nat, start2: nat, size2: nat) returns (ok: bool)
    requires c.MemoryPaid()
    modifies c`gas, c`memory, c`paid
    ensures c.MemoryPaid()
    ensures ok <==>
      var first := M.MemExtend(old(c.memory), old(c.gas), start1, size1);
      first.Extended? && M.MemExtend(first.mem, first.gas, start2, size2).Extended?
    ensures ok ==>
      var first := M.MemExtend(old(c.memory), old(c.gas), start1, size1);
      M.MemExtend(first.mem, first.gas, start2, size2) == Extended(c.gas, c.memory)
    ensures ok && size1 > 0 ==> start1 + size1 <= |c.memory|
    ensures ok && size2 > 0 ==> start2 + size2 <= |c.memory|
  {
    hide M.MemExtend;
    MemExtendRoom(c.memory, c.gas, start1, size1);
    ok := c.MemExtend(start1, size1);
    if ok {
      MemExtendKeeps(c.memory, c.gas, start2, size2);
      MemExtendRoom(c.memory, c.gas, start2, size2);
      ok := c.MemExtend(start2, size2);
    }
  }

  method RunCall(ext: State, env: Env, msg: Message, c: Compustate, op: Byte) returns (out: Outcome)
    requires SoundEnv(env) && ext.Valid() && c.MemoryPaid()
    requires op == CALL || op == CALLCODE || op == DELEGATECALL || op == STATICCALL
    requires |c.stack| >= Info(op).value.ins
    modifies ext, ext.Accounts(), c
    ensures ext.Valid() && ext.Moved() && c.MemoryPaid()
    ensures Ran(env, ExecCall(env, msg, old(c.Value()), old(ext.View()), op), old(ext.View()), out, c.Value(), ext.View())
    decreases DepthLeft(msg.depth), 0, 2
  {
    hide State.View, CachedAccount.View, Undoes, CallWith, MemFee, SoundEnv, M.MemExtend, Ran, Info;
    ghost var m, w := c.Value(), ext.View();
    UndoesNothing(w, ext.journal);
    Apart(ext, c);
    CallArguments(op);
    var hasValue := op == CALL || op == CALLCODE;
    var k := if hasValue then 3 else 2;
    var args := c.PopMany(k + 4);
    var value := if hasValue then args[2] else 0;
    if msg.isStatic && value > 0 && op == CALL {
      RanFail(env, w, c.Value(), ext.View());
      return Exception;
    }
    var ok := MemExtendTwice(c, args[k], args[k + 1], args[k + 2], args[k + 3]);
    if !ok {
      RanFail(env, w, c.Value(), ext.View());
      return Exception;
    }
    out := PlaceCall(ext, env, msg, c, op, args[0], args[1] % TT160, value,
                     CallData(c.memory, args[k], args[k + 1]), args[k + 2], args[k + 3]);
  }

  lemma RanNext(env: Env, m: Machine, w: World)
    requires SoundEnv(env)
    ensures Ran(env, Next(m, w), w, Continue, m, w)
  {
  }

  lemma RanInvoke(env: Env, m: Machine, call: Message, code: Bytes, outStart: nat, outSize: nat, w: World, sub: Result,
      m': Machine)
    requires SoundEnv(env) && call.codeAddress.Some? && code == GetCode(w, call.codeAddress.value)
    requires var r := Evm.ApplyMsg(env, call, code, w);
             sub.success == r.success && sub.gas == r.gas && sub.data == r.data && sub.world == r.world
    requires m' == AfterCall(m, sub.success, sub.gas, sub.data, outStart, outSize)
    ensures Ran(env, Invoke(m, call, outStart, outSize), w, Continue, m', sub.world)
  {
  }

  lemma CallArguments(op: Byte)
    requires op == CALL || op == CALLCODE || op == DELEGATECALL || op == STATICCALL
    ensures Info(op).value.ins == if op == CALL || op == CALLCODE then 7 else 6
  {
  }

  lemma RanFail(env: Env, w: World, m': Machine, w': World)
    requires SoundEnv(env)
    ensures Ran(env, Fail, w, Exception, m', w')
  {
  }

  lemma MemExtendKeeps(mem: Bytes, gas: int, start: nat, size: nat)
    ensures var r := M.MemExtend(mem, gas, start, size); r.Extended? ==> |r.mem| >= |mem|
  {
  }

  method RunCreate(ext: State, env: Env, msg: Message, c: Compustate) returns (out: Outcome)
    requires SoundEnv(env) && ext.Valid() && c.MemoryPaid() && |c.stack| >= 3 && c.gas >= 0
    modifies ext, ext.Accounts(), c
    ensures ext.Valid() && ext.Moved() && c.MemoryPaid()
    ensures Ran(env, ExecCreate(env, msg, old(c.Value()), old(ext.View())), old(ext.View()), out, c.Value(), ext.View())
    decreases DepthLeft(msg.depth), 0, 1
  {
    hide State.View, CachedAccount.View, Undoes, MemFee, SoundEnv, M.MemExtend, Acct, SendCreate, Ran;
    ghost var m, w := c.Value(), ext.View();
    UndoesNothing(w, ext.journal);
    Apart(ext, c);
    var args := c.PopMany(3);
    var ok := c.MemExtend(args[1], args[2]);
    if !ok || msg.isStatic {
      RanFail(env, w, c.Value(), ext.View());
      return Exception;
    }
    MemExtendRoom(m.mem, m.gas, args[1], args[2]);
    out := SendCreation(ext, env, msg, c, args[0], CallData(c.memory, args[1], args[2]));
  }

  /** The creator afterwards: the new address or 0, and the gas given back. */
  method FinishCreate(c: Compustate, ingas: int, o: bool, gas: int, addr: Address, data: Bytes)
    requires c.MemoryPaid()
    modifies c`stack, c`lastReturned, c`gas
    ensures c.MemoryPaid() && c.Value() == AfterCreate(old(c.Value()), ingas, o, gas, addr, data)
  {
    if o {
      c.Push(addr);
      c.lastReturned := [];
    } else {
      c.Push(0);
      c.lastReturned := data;
    }
    c.gas := c.gas - ingas + gas;
  }

  method SendCreation(ext: State, env: Env, msg: Message, c: Compustate, value: Word, cd: CallData)
    returns (out: Outcome)
    requires SoundEnv(env) && ext.Valid() && c.MemoryPaid() && c.gas >= 0 && Covered(cd)
    modifies ext, ext.Accounts(), c
    ensures ext.Valid() && ext.Moved() && c.MemoryPaid()
    ensures Ran(env, SendCreate(env, msg, old(c.Value()), old(ext.View()), value, cd), old(ext.View()), out, c.Value(), ext.View())
    decreases DepthLeft(msg.depth), 0, 0
  {
    hide State.View, CachedAccount.View, Undoes, MemFee, SoundEnv, W.GetBalance, Evm.CreateContract, AfterCreate;
    UndoesNothing(ext.View(), ext.journal);
    var b := ext.GetBalance(msg.to);
    Apart(ext, c);
    if b >= value && msg.depth < MAX_DEPTH {
      var ingas := c.gas;
      if env.antiDos {
        ingas := AllBut1N(ingas, CALL_CHILD_LIMIT_DENOM);
      }
      var createMsg := Message(msg.to, 0, value, ingas, cd, msg.depth + 1, None, true, false);
      var o, gas, addr, data := CreateContract(ext, env, createMsg);
      Apart(ext, c);
      FinishCreate(c, ingas, o, gas, addr, data);
    } else {
      c.Push(0);
      c.lastReturned := [];
    }
    return Continue;
  }

  // ---- messages ----

  /** Transfer, run, and roll the journal back when the run reports failure: the world is then the one at entry. */
  method ApplyMsg(ext: State, env: Env, msg: Message, code: Bytes) returns (success: bool, gas: int, data: Bytes)
    requires SoundEnv(env) && ext.Valid() && Covered(msg.data) && msg.gas >= 0
    modifies ext, ext.Accounts()
    ensures ext.Valid() && ext.Moved()
    ensures var r := Evm.ApplyMsg(env, msg, code, old(ext.View()));
            success == r.success && gas == r.gas && data == r.data && ext.View() == r.world
    ensures !success ==> ext.View() == old(ext.View())
    decreases DepthLeft(msg.depth), 1, 0
  {
    hide State.View, CachedAccount.View, SoundEnv, Execute, W.TransferValue;
    ghost var w, j := ext.View(), ext.journal;
    UndoesNothing(w, j);
    var snapshot := ext.TakeSnapshot();
    ext.ViewRepresents();
    if msg.transfersValue {
      var ok := ext.TransferValue(msg.sender, msg.to, msg.value);
      if !ok {
        return true, msg.gas, [];
      }
    }
    ghost var w1, j1 := ext.View(), ext.journal;
    if msg.codeAddress.Some? && env.isSpecial(msg.codeAddress.value) {
      var p := env.special(msg.codeAddress.value, msg.data, msg.gas);
      success, gas, data := p.success, p.gas, p.data;
    } else {
      success, gas, data := VmExecute(ext, env, msg, code);
      UndoesTransitive(w, j, w1, j1, ext.View(), ext.journal);
    }
    if !success {
      Rollback(ext, snapshot, w, j);
    }
  }

  /** Reverting to a snapshot from which only journaled operations were made. */
  method Rollback(ext: State, s: Snapshot, ghost w: World, ghost j: seq<Undo>)
    requires ext.Valid() && Undoes(w, j, ext.View(), ext.journal)
    requires s == Snapshot(ext.trie, |j|, w.suicides, w.logs, w.refunds, ext.params)
    modifies ext, ext.Accounts()
    ensures ext.Valid() && ext.View() == w && ext.journal == j
    ensures ext.trie == old(ext.trie) && ext.cache == old(ext.cache) && ext.params == old(ext.params)
  {
    hide State.View, CachedAccount.View;
    assert ext.journal[..|j|] == j;
    var ok := ext.Revert(s);
  }

  /** Creation of a contract: a failed one leaves only what was written before its snapshot. */
  method CreateContract(ext: State, env: Env, msg: Message)
    returns (success: bool, gas: int, addr: Address, data: Bytes)
    requires SoundEnv(env) && ext.Valid() && Covered(msg.data) && msg.gas >= 0
    modifies ext, ext.Accounts()
    ensures ext.Valid() && ext.Moved()
    ensures var r := Evm.CreateContract(env, msg, old(ext.View()));
            && success == r.success && gas == r.gas && addr == r.addr && data == r.data && ext.View() == r.world
    ensures !success ==>
      || L.ReadyFor(env, msg.sender, addr, old(ext.View()), ext.View())
      || L.OnlyNonce(old(ext.View()), ext.View(), msg.sender,
                     GetNonce(old(ext.View()), msg.sender) + if env.txOrigin != msg.sender then 1 else 0)
    decreases DepthLeft(msg.depth), 2, 0
  {
    hide State.View, CachedAccount.View, SoundEnv, Evm.ApplyMsg, ExtractAll, Undoes, CreateSetup, Occupied,
      ClearTarget, Evm.FinishCreate, L.ReadyFor, L.OnlyNonce, W.GetNonce, W.SetNonce;
    ghost var w, j := ext.View(), ext.journal;
    L.FailedCreation(env, msg, w);
    UndoesNothing(w, j);
    var code := ExtractAll(msg.data);
    var to := SetupCreation(ext, env, msg);
    addr := to;
    ghost var w1, j1 := ext.View(), ext.journal;
    var occupied := IsOccupied(ext, env, to);
    if occupied {
      return false, 0, to, [];
    }
    Clear(ext, to);
    ghost var w2, j2 := ext.View(), ext.journal;
    UndoesTransitive(w, j, w1, j1, w2, j2);
    CreatedAt(env, to, Evm.ApplyMsg(env, msg.(to := to, data := CallData([], 0, 0)), code,
                                    SetNonce(w2, to, if env.spuriousDragon then 1 else 0)), w2);
    success, gas, data := RunCreation(ext, env, msg.(to := to, data := CallData([], 0, 0)), code);
    UndoesTransitive(w, j, w2, j2, ext.View(), ext.journal);
  }

  lemma CreatedAt(env: Env, to: Address, r: Result, w2: World)
    ensures Evm.FinishCreate(env, to, r, w2).addr == to
  {
  }

  /** The constructor run, between the snapshot and its verdict. */
  method RunCreation(ext: State, env: Env, msg: Message, code: Bytes) returns (success: bool, gas: int, data: Bytes)
    requires SoundEnv(env) && ext.Valid() && Covered(msg.data) && msg.gas >= 0
    modifies ext, ext.Accounts()
    ensures ext.Valid() && ext.Moved()
    ensures var w := old(ext.View());
            var run := Evm.ApplyMsg(env, msg, code, SetNonce(w, msg.to, if env.spuriousDragon then 1 else 0));
            var r := Evm.FinishCreate(env, msg.to, run, w);
            success == r.success && gas == r.gas && data == r.data && ext.View() == r.world
    decreases DepthLeft(msg.depth), 1, 1
  {
    hide State.View, CachedAccount.View, SoundEnv, Evm.ApplyMsg, Undoes, W.SetNonce, Evm.FinishCreate;
    ghost var w, j := ext.View(), ext.journal;
    UndoesNothing(w, j);
    var snapshot := ext.TakeSnapshot();
    ext.ViewRepresents();
    ext.SetNonce(msg.to, if env.spuriousDragon then 1 else 0);
    ghost var w1, j1 := ext.View(), ext.journal;
    var res, gasLeft, dat := ApplyMsg(ext, env, msg, code);
    ghost var overdrawn := Evm.ApplyMsg(env, msg, code, w1).overdrawn;
    UndoesTransitive(w, j, w1, j1, ext.View(), ext.journal);
    success, gas, data := FinishCreation(ext, env, msg.to, res, gasLeft, dat, snapshot, w, j, overdrawn);
  }

  /** The new contract's address, after the creator's nonce is raised. */
  method SetupCreation(ext: State, env: Env, msg: Message) returns (to: Address)
    requires ext.Valid()
    modifies ext, ext.Accounts()
    ensures ext.Valid() && ext.Moved()
    ensures (ext.View(), to) == CreateSetup(env, msg, old(ext.View()))
  {
    hide State.View, CachedAccount.View, Undoes, W.IncrementNonce, W.GetNonce;
    UndoesNothing(ext.View(), ext.journal);
    if env.txOrigin != msg.sender {
      ext.IncrementNonce(msg.sender);
    }
    if env.constantinople && msg.sender == NULL_ADDRESS {
      to := env.contractAddress(msg.sender, 0);
    } else {
      var nonce := ext.GetNonce(msg.sender);
      to := env.contractAddress(msg.sender, nonce - 1);
    }
  }

  method IsOccupied(ext: State, env: Env, a: Address) returns (occupied: bool)
    requires ext.Valid()
    modifies ext`cache
    ensures ext.Valid() && ext.Extends() && ext.View() == old(ext.View())
    ensures occupied == Occupied(env, ext.View(), a)
  {
    hide State.View, Acct;
    if !env.metropolis {
      return false;
    }
    var nonce := ext.GetNonce(a);
    if nonce != 0 {
      return true;
    }
    var code := ext.GetCode(a);
    occupied := |code| != 0;
  }

  method Clear(ext: State, a: Address)
    requires ext.Valid()
    modifies ext, ext.Accounts()
    ensures ext.Valid() && ext.Moved()
    ensures ext.View() == ClearTarget(old(ext.View()), a)
  {
    hide State.View, CachedAccount.View, Undoes, W.SetBalance, W.SetNonce, W.SetCode, W.GetBalance;
    ghost var w, j := ext.View(), ext.journal;
    UndoesNothing(w, j);
    var b := ext.GetBalance(a);
    if b > 0 {
      ext.SetBalance(a, b);
      ghost var w1, j1 := ext.View(), ext.journal;
      ext.SetNonce(a, 0);
      ghost var w2, j2 := ext.View(), ext.journal;
      UndoesTransitive(w, j, w1, j1, w2, j2);
      ext.SetCode(a, []);
      UndoesTransitive(w, j, w2, j2, ext.View(), ext.journal);
    }
  }

  /** Pays for the code and installs it, or reverts to the snapshot. */
  method FinishCreation(ext: State, env: Env, to: Address, res: bool, gasLeft: int, dat: Bytes, s: Snapshot,
      ghost w2: World, ghost j2: seq<Undo>, ghost overdrawn: bool) returns (success: bool, gas: int, data: Bytes)
    requires ext.Valid() && Undoes(w2, j2, ext.View(), ext.journal)
    requires s == Snapshot(ext.trie, |j2|, w2.suicides, w2.logs, w2.refunds, ext.params)
    modifies ext, ext.Accounts()
    ensures ext.Valid() && ext.Extends() && Undoes(w2, j2, ext.View(), ext.journal)
    ensures Evm.FinishCreate(env, to, Result(res, gasLeft, dat, old(ext.View()), overdrawn), w2)
         == Created(success, gas, to, data, ext.View(), overdrawn)
  {
    hide State.View, CachedAccount.View, Undoes, W.SetCode;
    ghost var w, j := ext.View(), ext.journal;
    UndoesNothing(w2, j2);
    if !res {
      Rollback(ext, s, w2, j2);
      return false, gasLeft, dat;
    }
    if |dat| == 0 {
      return true, gasLeft, [];
    }
    var gcost := |dat| * GCONTRACTBYTE;
    var code, left := dat, gasLeft;
    if left >= gcost && (|dat| <= 24576 || !env.spuriousDragon) {
      left := left - gcost;
    } else {
      code := [];
      if env.homestead {
        Rollback(ext, s, w2, j2);
        return false, 0, [];
      }
    }
    ext.SetCode(to, code);
    UndoesTransitive(w2, j2, w, j, ext.View(), ext.journal);
    return true, left, [];
  }

  // ---- the interpreter ----

  /** The instructions from 0x20 to 0x4f. */
  method EnvironmentTurn(ext: State, env: Env, msg: Message, code: Bytes, c: Compustate, op: Byte) returns (ok: bool)
    requires ext.Valid() && Covered(msg.data) && c.MemoryPaid() && c.gas >= 0 && c.pc > 0
    requires 0x20 <= op < 0x50 && Info(op).Some? && |c.stack| >= Info(op).value.ins
    modifies ext`cache, c
    ensures ext.Valid() && ext.Extends() && ext.View() == old(ext.View()) && c.MemoryPaid()
    ensures ExecEnvironment(env, msg, code, old(c.Value()), old(ext.View()), op)
         == if ok then Next(c.Value(), old(ext.View())) else Fail
  {
    hide State.View, ExecSha3, ExecBalance, ExecExtcodesize, ExecExtcodecopy, ExecReturndatacopy, CopyOp, Environment,
      MemFee;
    ghost var w := ext.View();
    Apart(ext, c);
    if op == SHA3 {
      ok := RunSha3(env, c, w);
    } else if op == BALANCE || op == EXTCODESIZE {
      ok := RunAccount(ext, env, c, op == BALANCE);
    } else if op == CALLDATACOPY || op == CODECOPY || op == RETURNDATACOPY {
      ok := RunCopy(env, msg, code, c, op, w);
    } else if op == EXTCODECOPY {
      ok := RunExtcodecopy(ext, env, c);
    } else {
      RunEnvironment(env, msg, code, c, op, w);
      ok := true;
    }
  }

  /** The instructions from 0x50 to 0x5f. */
  method MachineTurn(ext: State, env: Env, msg: Message, code: Bytes, mask: set<nat>, c: Compustate, op: Byte)
    returns (ok: bool)
    requires ext.Valid() && c.MemoryPaid() && c.gas >= 0 && c.pc > 0
    requires 0x50 <= op < 0x60 && Info(op).Some? && |c.stack| >= Info(op).value.ins
    requires forall p: nat :: p in mask <==> ValidJump(code, p)
    modifies ext, ext.Accounts(), c
    ensures ext.Valid() && ext.Moved() && c.MemoryPaid()
    ensures ExecMachine(env, msg, code, old(c.Value()), old(ext.View()), op) == if ok then Next(c.Value(), ext.View()) else Fail
  {
    hide State.View, CachedAccount.View, Undoes, ExecMemory, ExecSload, ExecSstore, ExecJump, Environment, MemFee,
      ValidJump;
    ghost var w := ext.View();
    UndoesNothing(w, ext.journal);
    Apart(ext, c);
    ok := true;
    if op == POP {
      var v := c.Pop();
    } else if op == MLOAD || op == MSTORE || op == MSTORE8 {
      ok := RunMemory(c, op, w);
    } else if op == SLOAD {
      ok := RunSload(ext, env, msg, c);
    } else if op == SSTORE {
      ok := RunSstore(ext, msg, c);
    } else if op == JUMP || op == JUMPI {
      ok := RunJump(code, mask, c, op == JUMPI, w);
    } else if op == JUMPDEST {
    } else {
      RunEnvironment(env, msg, code, c, op, w);
    }
  }

  /** The instructions from 0xf0 on. */
  method SystemTurn(ext: State, env: Env, msg: Message, c: Compustate, op: Byte) returns (out: Outcome)
    requires SoundEnv(env) && ext.Valid() && c.MemoryPaid() && c.gas >= 0
    requires op >= 0xf0 && Info(op).Some? && |c.stack| >= Info(op).value.ins
    modifies ext, ext.Accounts(), c
    ensures ext.Valid() && ext.Moved() && c.MemoryPaid()
    ensures Ran(env, SystemEffect(env, msg, old(c.Value()), old(ext.View()), op), old(ext.View()), out, c.Value(), ext.View())
    decreases DepthLeft(msg.depth), 0, 3
  {
    hide State.View, CachedAccount.View, Undoes, ExecCreate, ExecCall, ExecReturn, ExecSuicide, MemFee, SoundEnv;
    ghost var w := ext.View();
    UndoesNothing(w, ext.journal);
    Apart(ext, c);
    if op == CREATE {
      out := RunCreate(ext, env, msg, c);
    } else if op == CALL || op == CALLCODE || op == DELEGATECALL || op == STATICCALL {
      out := RunCall(ext, env, msg, c, op);
    } else if op == RETURN || op == REVERT {
      if op == REVERT && !env.metropolis {
        return Exception;
      }
      var data := RunReturn(c, op == RETURN, w);
      return if data.Some? then Exit(op == RETURN, c.gas, data.value) else Exception;
    } else if op == SUICIDE {
      var ok := RunSuicide(ext, env, msg, c);
      return if ok then Exit(true, c.gas, []) else Exception;
    } else {
      return Continue;
    }
  }

  /** Dispatch on the opcode; pc stands behind it and its base fee is paid. */
  method Dispatch(ext: State, env: Env, msg: Message, code: Bytes, mask: set<nat>, pushcache: map<nat, Word>,
      c: Compustate, op: Byte) returns (out: Outcome)
    requires SoundEnv(env) && ext.Valid() && Covered(msg.data) && c.MemoryPaid() && c.gas >= 0
    requires Info(op).Some? && |c.stack| >= Info(op).value.ins
    requires 0 < c.pc <= |code| && code[c.pc - 1] == op && IsStart(code, c.pc - 1)
    requires forall p: nat :: p in mask <==> ValidJump(code, p)
    requires forall p: nat :: p in pushcache <==> p < |code| && IsStart(code, p) && IsPush(code[p])
    requires forall p: nat :: p in pushcache ==> pushcache[p] == PushValue(code, p)
    modifies ext, ext.Accounts(), c
    ensures ext.Valid() && ext.Moved() && c.MemoryPaid()
    ensures Ran(env, Exec(env, msg, code, old(c.Value()), old(ext.View()), op), old(ext.View()), out, c.Value(), ext.View())
    decreases DepthLeft(msg.depth), 0, 4
  {
    hide State.View, CachedAccount.View, Undoes, MemFee, SoundEnv, IsStart, ValidJump, PushValue, SystemEffect;
    hide ExecExp, M.Arithmetic, M.Comparison, ExecEnvironment, ExecMachine, Swap, ExecLog, ExecCreate, ExecCall,
      ExecReturn, ExecSuicide;
    ghost var w := ext.View();
    UndoesNothing(w, ext.journal);
    Apart(ext, c);
    var ok := true;
    if IsPush(op) {
      c.Push(pushcache[c.pc - 1]);
      c.pc := c.pc + (op - 0x5f);
    } else if op < 0x10 {
      if op == STOP {
        return Exit(true, c.gas, []);
      } else if op == EXP {
        ok := c.Exponent(env);
      } else {
        c.Arithmetic(op);
      }
    } else if op < 0x20 {
      c.Comparison(op);
    } else if op < 0x50 {
      ok := EnvironmentTurn(ext, env, msg, code, c, op);
    } else if op < 0x60 {
      ok := MachineTurn(ext, env, msg, code, mask, c, op);
    } else if op < 0x90 {
      c.Dup(op);
    } else if op < 0xa0 {
      c.SwapTop(op);
    } else if op <= 0xa4 {
      ok := RunLog(ext, msg, c, op - 0xa0);
    } else {
      ExecSystem(env, msg, code, c.Value(), w, op);
      out := SystemTurn(ext, env, msg, c, op);
      return;
    }
    return if ok then Continue else Exception;
  }

  /** The effect of the instructions from 0xf0 on. */
  ghost function SystemEffect(env: Env, msg: Message, m: Machine, w: World, op: Byte): Effect
    requires op >= 0xf0 && Info(op).Some? && |m.stack| >= Info(op).value.ins && m.gas >= 0
  {
    if op == CREATE then ExecCreate(env, msg, m, w)
    else if op == CALL || op == CALLCODE || op == DELEGATECALL || op == STATICCALL then ExecCall(env, msg, m, w, op)
    else if op == RETURN then ExecReturn(m, w, true)
    else if op == REVERT then if env.metropolis then ExecReturn(m, w, false) else Fail
    else if op == SUICIDE then ExecSuicide(env, msg, m, w)
    else Next(m, w)
  }

  lemma ExecSystem(env: Env, msg: Message, code: Bytes, m: Machine, w: World, op: Byte)
    requires m.gas >= 0 && Info(op).Some? && |m.stack| >= Info(op).value.ins && 0 < m.pc <= |code| && code[m.pc - 1] == op
    requires op > 0xa4
    ensures op >= 0xf0 && Exec(env, msg, code, m, w, op) == SystemEffect(env, msg, m, w, op)
  {
  }

  /** The same outcome, whoever may have overdrawn. */
  ghost predicate Alike(a: Result, b: Result) {
    a.success == b.success && a.gas == b.gas && a.data == b.data && a.world == b.world
  }

  /** One turn of the loop: fetch, base fee, stack checks, dispatch. */
  method Turn(ext: State, env: Env, msg: Message, code: Bytes, mask: set<nat>, pushcache: map<nat, Word>, c: Compustate)
    returns (out: Outcome)
    requires SoundEnv(env) && ext.Valid() && Covered(msg.data) && c.MemoryPaid()
    requires c.pc < |code| && IsStart(code, c.pc)
    requires forall p: nat :: p in mask <==> ValidJump(code, p)
    requires forall p: nat :: p in pushcache <==> p < |code| && IsStart(code, p) && IsPush(code[p])
    requires forall p: nat :: p in pushcache ==> pushcache[p] == PushValue(code, p)
    modifies ext, ext.Accounts(), c
    ensures ext.Valid() && ext.Moved() && c.MemoryPaid()
    ensures Ran(env, Step(env, msg, code, old(c.Value()), old(ext.View())), old(ext.View()), out, c.Value(), ext.View())
    decreases DepthLeft(msg.depth), 0, 5
  {
    hide State.View, CachedAccount.View, Undoes, MemFee, SoundEnv, IsStart, ValidJump, PushValue, Exec, Info;
    ghost var w := ext.View();
    UndoesNothing(w, ext.journal);
    Apart(ext, c);
    var opcode := code[c.pc];
    var info := Info(opcode);
    if info == None {
      return Exception;
    }
    if IsMetropolis(opcode) && !env.metropolis {
      return Exception;
    }
    c.gas := c.gas - info.value.fee;
    c.pc := c.pc + 1;
    if c.gas < 0 {
      return Exception;
    }
    if info.value.ins > |c.stack| {
      return Exception;
    }
    if |c.stack| - info.value.ins + info.value.outs > 1024 {
      return Exception;
    }
    out := Dispatch(ext, env, msg, code, mask, pushcache, c, opcode);
  }

  /** The interpreter loop, proved against its recursive description. At every loop head the program counter is an
      instruction start, the stack has at most 1024 words, and memory is paid for. */
  method VmExecute(ext: State, env: Env, msg: Message, code: Bytes) returns (success: bool, gas: int, data: Bytes)
    requires SoundEnv(env) && ext.Valid() && Covered(msg.data)
    modifies ext, ext.Accounts()
    ensures ext.Valid() && ext.Moved()
    ensures var r := Execute(env, msg, code, Start(msg.gas), old(ext.View()), false);
            success == r.success && gas == r.gas && data == r.data && (success ==> ext.View() == r.world)
    decreases DepthLeft(msg.depth), 0, 6
  {
    hide State.View, CachedAccount.View, Undoes, MemFee, SoundEnv, IsStart, ValidJump, PushValue, Execute, Step, Ran;
    ghost var w, j := ext.View(), ext.journal;
    ghost var r := Execute(env, msg, code, Start(msg.gas), w, false);
    UndoesNothing(w, j);
    var compustate := new Compustate(msg.gas);
    var mask, pushcache := PreprocessCode(code);
    ghost var afterLog := false;
    StartAtZero(code);
    while compustate.pc < |code|
      invariant ext.Valid() && ext.Extends() && Undoes(w, j, ext.View(), ext.journal)
      invariant compustate.MemoryPaid() && fresh(compustate)
      invariant IsStart(code, compustate.pc) && |compustate.stack| <= 1024
      invariant Alike(r, Execute(env, msg, code, compustate.Value(), ext.View(), afterLog))
      decreases GasRank(compustate.gas)
    {
      ghost var m, w1, j1 := compustate.Value(), ext.View(), ext.journal;
      var out := Turn(ext, env, msg, code, mask, pushcache, compustate);
      UndoesTransitive(w, j, w1, j1, ext.View(), ext.journal);
      TurnIsStep(env, msg, code, m, w1, afterLog, out, compustate.Value(), ext.View());
      match out {
        case Exception => return false, 0, [];
        case Exit(s, g, d) => return s, g, d;
        case Continue =>
      }
      afterLog := IsLog(code[m.pc]) && Step(env, msg, code, m, w1).Next?;
    }
    EndOfCode(env, msg, code, compustate.Value(), ext.View(), afterLog);
    return true, compustate.gas, [];
  }

  /** What one turn means for the run: it is over with the same outcome, or the rest of it has the same outcome. */
  lemma TurnIsStep(env: Env, msg: Message, code: Bytes, m: Machine, w: World, x: bool, out: Outcome, m': Machine,
      w': World)
    requires SoundEnv(env) && m.pc < |code| && IsStart(code, m.pc) && |m.stack| <= 1024
    requires Ran(env, Step(env, msg, code, m, w), w, out, m', w')
    ensures var r := Execute(env, msg, code, m, w, x);
            match out
            case Exception => !r.success && r.gas == 0 && r.data == []
            case Exit(s, g, d) => Alike(r, Result(s, g, d, w', false))
            case Continue =>
              && Alike(r, Execute(env, msg, code, m', w', IsLog(code[m.pc]) && Step(env, msg, code, m, w).Next?))
              && GasRank(m'.gas) < GasRank(m.gas) && IsStart(code, m'.pc) && |m'.stack| <= 1024
  {
    hide Exec, Info, IsStart, SoundEnv;
    StepGas(env, msg, code, m, w);
    StepPlace(env, msg, code, m, w);
  }

  /** A step that goes on stands at an instruction start again, with at most 1024 words on the stack
      once the result of a call is pushed. */
  lemma StepPlace(env: Env, msg: Message, code: Bytes, m: Machine, w: World)
    requires m.pc < |code| && IsStart(code, m.pc) && |m.stack| <= 1024
    ensures var e := Step(env, msg, code, m, w);
            && (e.Next? ==> IsStart(code, e.m.pc) && |e.m.stack| <= 1024)
            && (e.Invoke? || e.Create? ==> IsStart(code, e.m.pc) && |e.m.stack| < 1024)
  {
    hide Exec, StartsFrom;
    var e := Step(env, msg, code, m, w);
    if !e.Fail? {
      StepIsExec(env, msg, code, m, w);
      var m1 := m.(gas := m.gas - Info(code[m.pc]).value.fee, pc := m.pc + 1);
      ExecPlace(env, msg, code, m1, w, code[m.pc]);
      StartsChain(code, 0, m.pc);
    }
  }

  /** Where an instruction leaves the program counter and the height of the stack. */
  ghost predicate Placed(code: Bytes, m: Machine, op: Byte, e: Effect)
    requires 0 < m.pc <= |code| && Info(op).Some?
  {
    var height := |m.stack| - Info(op).value.ins + Info(op).value.outs;
    && (e.Next? ==> e.m.pc == NextInstr(code, m.pc - 1) || ValidJump(code, e.m.pc))
    && (e.Next? ==> |e.m.stack| == if op == CALLBLACKBOX then |m.stack| else height)
    && (e.Invoke? || e.Create? ==> e.m.pc == NextInstr(code, m.pc - 1) && |e.m.stack| == height - 1)
  }

  lemma EnvironmentPlace(env: Env, msg: Message, code: Bytes, m: Machine, w: World, op: Byte)
    requires 0x20 <= op < 0x50 && m.gas >= 0
    requires Info(op).Some? && |m.stack| >= Info(op).value.ins && 0 < m.pc <= |code| && code[m.pc - 1] == op
    ensures Placed(code, m, op, ExecEnvironment(env, msg, code, m, w, op))
  {
    hide Environment, M.MemExtend, CopyTo, CopyFee, ValidJump, Acct, Ceil32, Slice, ExtractAll;
  }

  lemma MachinePlace(env: Env, msg: Message, code: Bytes, m: Machine, w: World, op: Byte)
    requires 0x50 <= op < 0x60 && m.gas >= 0
    requires Info(op).Some? && |m.stack| >= Info(op).value.ins && 0 < m.pc <= |code| && code[m.pc - 1] == op
    ensures Placed(code, m, op, ExecMachine(env, msg, code, m, w, op))
  {
    hide Environment, M.MemExtend, CopyTo, ValidJump, Acct, EncodeInt32, WordOf, Window;
  }

  lemma SystemPlace(env: Env, msg: Message, code: Bytes, m: Machine, w: World, op: Byte)
    requires op >= 0xf0 && m.gas >= 0
    requires Info(op).Some? && |m.stack| >= Info(op).value.ins && 0 < m.pc <= |code| && code[m.pc - 1] == op
    ensures Placed(code, m, op, SystemEffect(env, msg, m, w, op))
  {
    hide M.MemExtend, ValidJump, Acct, W.AccountExists, CallMessage, CallGasLimit, ExtraGas, Slice;
  }

  lemma ExecPlace(env: Env, msg: Message, code: Bytes, m: Machine, w: World, op: Byte)
    requires m.gas >= 0
    requires Info(op).Some? && |m.stack| >= Info(op).value.ins && 0 < m.pc <= |code| && code[m.pc - 1] == op
    ensures Placed(code, m, op, Exec(env, msg, code, m, w, op))
  {
    hide M.Arithmetic, M.Comparison, M.MemExtend, ByteLength, PushValue, ValidJump, Acct, ExecEnvironment,
      ExecMachine, SystemEffect;
    hide ExecCreate, ExecCall, ExecReturn, ExecSuicide, Slice;
    if 0x20 <= op < 0x50 {
      EnvironmentPlace(env, msg, code, m, w, op);
    } else if 0x50 <= op < 0x60 {
      MachinePlace(env, msg, code, m, w, op);
    } else if op > 0xa4 {
      ExecSystem(env, msg, code, m, w, op);
      SystemPlace(env, msg, code, m, w, op);
    }
  }

  lemma StartAtZero(code: Bytes)
    ensures IsStart(code, 0)
  {
  }

  lemma EndOfCode(env: Env, msg: Message, code: Bytes, m: Machine, w: World, x: bool)
    requires SoundEnv(env) && m.pc >= |code|
    ensures Execute(env, msg, code, m, w, x) == Result(true, m.gas, [], w, x)
  {
  }
}
