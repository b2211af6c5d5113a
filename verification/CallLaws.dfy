/** What calls and creations mean: the message that the other frame gets, what it sees of it, and what comes back. */
module CallLaws {
  import opened ByteStrings
  import opened BigEndian
  import opened Words
  import opened Opcodes
  import opened World
  import opened Machine
  import opened Evm
  import opened InstructionLaws
  import opened StateLaws

  // ---- sending a message ----

  predicate IsCall(op: Byte) { op == CALL || op == CALLCODE || op == DELEGATECALL || op == STATICCALL }

  /** The arguments of a call; only CALL and CALLCODE have a value. */
  datatype Request = Request(gas: Word, to: Address, value: Word, inStart: nat, inSize: nat, outStart: nat, outSize: nat)

  function RequestOf(op: Byte, s: seq<Word>): Request
    requires |s| >= 7 || (|s| >= 6 && op != CALL && op != CALLCODE)
  {
    var k := if op == CALL || op == CALLCODE then 3 else 2;
    Request(Top(s, 0), Top(s, 1) % TT160, if k == 3 then Top(s, 2) else 0, Top(s, k), Top(s, k + 1), Top(s, k + 2), Top(s, k + 3))
  }

  /** Memory grows for the input and for the output. */
  function BothSizes(size: nat, r: Request): nat {
    SizeAfter(SizeAfter(size, r.inStart, r.inSize), r.outStart, r.outSize)
  }

  /** A new account costs 25000, a transfer 9000, and any call 660 more since the anti-DoS fork. */
  function Surcharge(env: Env, w: World, op: Byte, r: Request): nat {
    (if op == CALL && Absent(env, Acct(w, r.to)) && (r.value > 0 || !env.spuriousDragon) then 25000 else 0)
    + (if r.value > 0 then 9000 else 0) + (if env.antiDos then 660 else 0)
  }

  /** What is passed on: as asked, or since the anti-DoS fork at most all but one 64th. */
  function PassedOn(env: Env, r: Request, left: int): int {
    if env.antiDos && left - left / 64 < r.gas then left - left / 64 else r.gas
  }

  /** The message says what the opcode promises: CALL and STATICCALL speak for this account to the other one, CALLCODE to
      itself with the other's code, and DELEGATECALL passes on its own sender, address and value. */
  predicate Announces(op: Byte, msg: Message, r: Request, call: Message) {
    && call.codeAddress == Some(r.to) && call.depth == msg.depth + 1 && call.isStatic == (msg.isStatic || op == STATICCALL)
    && call.sender == (if op == DELEGATECALL then msg.sender else msg.to)
    && call.to == (if op == CALL || op == STATICCALL then r.to else msg.to)
    && call.value == (if op == DELEGATECALL then msg.value else r.value)
    && call.transfersValue == (op != DELEGATECALL)
  }

  /** The input is the range of memory. */
  ghost predicate Carries(d: CallData, mem: Bytes, start: nat, size: nat) {
    d.size == size && forall i :: 0 <= i < size ==> InputByte(d, i) == ByteAtOr0(mem, start + i)
  }

  lemma WindowCarries(mem: Bytes, after: Bytes, start: nat, size: nat)
    requires |after| >= |mem| && (size > 0 ==> start + size <= |after|)
    requires forall j :: 0 <= j < |after| ==> after[j] == ByteAtOr0(mem, j)
    ensures Carries(CallData(after, start, size), mem, start, size)
  {
  }

  lemma GrownTwice(mem: Bytes, mid: Bytes, after: Bytes, r: Request)
    requires |mem| % 32 == 0 && Grown(mem, mid, r.inStart, r.inSize) && Grown(mid, after, r.outStart, r.outSize)
    ensures |after| == BothSizes(|mem|, r) && |after| >= |mem| && |after| % 32 == 0
    ensures forall j :: 0 <= j < |after| ==> after[j] == ByteAtOr0(mem, j)
    ensures Carries(CallData(after, r.inStart, r.inSize), mem, r.inStart, r.inSize)
    ensures r.outSize > 0 ==> r.outStart + r.outSize <= |after|
  {
    SizeGrows(|mem|, r.inStart, r.inSize);
    SizeGrows(|mid|, r.outStart, r.outSize);
    WindowCarries(mem, after, r.inStart, r.inSize);
  }

  lemma SendMeans(env: Env, msg: Message, m: Machine, w: World, op: Byte, r: Request, cd: CallData)
    requires IsCall(op) && (op == STATICCALL ==> env.metropolis)
    ensures var e := CallWith(env, msg, m, w, op, r.gas, r.to, r.value, cd, r.outStart, r.outSize);
            var surcharge, stipend := Surcharge(env, w, op, r), if r.value > 0 then 2300 else 0;
            var passed := PassedOn(env, r, m.gas - surcharge);
            if m.gas < surcharge || (!env.antiDos && m.gas < surcharge + r.gas) then e.Fail?
            else if GetBalance(w, msg.to) < r.value || msg.depth >= 1024 then
              e == Next(m.(stack := m.stack + [0], gas := m.gas - surcharge + stipend, last := []), w)
            else if op == DELEGATECALL && !env.homestead then e.Fail?
            else
              && e.Invoke? && e.m == m.(gas := m.gas - surcharge - passed)
              && Announces(op, msg, r, e.call) && e.call.gas == passed + stipend && e.call.data == cd
              && e.outStart == r.outStart && e.outSize == r.outSize
  {
    hide GetBalance, CallGasLimit, CallMessage, ExtraGas, Surcharge, PassedOn, Announces;
    GasMeans(env, w, op, r, m.gas);
    MessageMeans(env, msg, op, r, PassedOn(env, r, m.gas - Surcharge(env, w, op, r)) + if r.value > 0 then 2300 else 0, cd);
  }

  lemma GasMeans(env: Env, w: World, op: Byte, r: Request, available: int)
    requires IsCall(op)
    ensures ExtraGas(env, w, op, r.to, r.value) == Surcharge(env, w, op, r)
    ensures var surcharge := Surcharge(env, w, op, r);
            CallGasLimit(env, available, r.gas, surcharge)
            == if available < surcharge || (!env.antiDos && available < surcharge + r.gas) then None
               else Some(PassedOn(env, r, available - surcharge))
  {
    assert AccountExists(env, w, r.to) == !Absent(env, Acct(w, r.to));
    hide AccountExists, Absent, Acct;
  }

  lemma MessageMeans(env: Env, msg: Message, op: Byte, r: Request, gas: int, cd: CallData)
    requires IsCall(op) && (op == STATICCALL ==> env.metropolis)
    ensures var call := CallMessage(env, msg, op, r.to, r.value, gas, cd);
            if op == DELEGATECALL && !env.homestead then call.None?
            else call.Some? && Announces(op, msg, r, call.value) && call.value.gas == gas && call.value.data == cd
  {
  }

  lemma ArgsOf(op: Byte, s: seq<Word>)
    requires IsCall(op) && |s| >= if op == CALL || op == CALLCODE then 7 else 6
    ensures var r := RequestOf(op, s);
            var k := if op == CALL || op == CALLCODE then 3 else 2;
            && r.gas == Arg(s, 0) && r.to == Arg(s, 1) % TT160 && r.value == (if k == 3 then Arg(s, 2) else 0)
            && r.inStart == Arg(s, k) && r.inSize == Arg(s, k + 1) && r.outStart == Arg(s, k + 2) && r.outSize == Arg(s, k + 3)
            && Info(op) == Some(OpInfo(k + 4, 1, 40)) && Popped(s, k + 4) == s[..|s| - k - 4]
  {
  }

  lemma ExecCallMeans(env: Env, msg: Message, m: Machine, w: World, op: Byte)
    requires IsCall(op) && |m.mem| % 32 == 0 && m.gas >= 0
    requires |m.stack| >= (if op == CALL || op == CALLCODE then 7 else 6) == Info(op).value.ins
    ensures var r, k := RequestOf(op, m.stack), if op == CALL || op == CALLCODE then 7 else 6;
            var have := m.gas - (TotalFee(BothSizes(|m.mem|, r)) - TotalFee(|m.mem|));
            var e := ExecCall(env, msg, m, w, op);
            if (msg.isStatic && r.value > 0 && op == CALL) || have < 0 then e.Fail?
            else
              exists after: Bytes ::
                && |after| == BothSizes(|m.mem|, r) && (forall j :: 0 <= j < |after| ==> after[j] == ByteAtOr0(m.mem, j))
                && Carries(CallData(after, r.inStart, r.inSize), m.mem, r.inStart, r.inSize)
                && e == CallWith(env, msg, m.(stack := m.stack[..|m.stack| - k], gas := have, mem := after), w, op, r.gas, r.to, r.value,
                                 CallData(after, r.inStart, r.inSize), r.outStart, r.outSize)
  {
    hide MemExtend, TotalFee, CallWith, Arg, Info, Popped, RequestOf, Carries;
    ArgsOf(op, m.stack);
    var r := RequestOf(op, m.stack);
    ExtendMeans(m.mem, m.gas, r.inStart, r.inSize);
    match MemExtend(m.mem, m.gas, r.inStart, r.inSize)
    case NoGas => GrowsOn(m.mem, r);
    case Extended(g, mid) =>
      ExtendMeans(mid, g, r.outStart, r.outSize);
      match MemExtend(mid, g, r.outStart, r.outSize)
      case NoGas =>
      case Extended(g2, after) => GrownTwice(m.mem, mid, after, r);
  }

  lemma GrowsOn(mem: Bytes, r: Request)
    requires |mem| % 32 == 0
    ensures 0 <= GrowthFee(|mem|, r.inStart, r.inSize) <= TotalFee(BothSizes(|mem|, r)) - TotalFee(|mem|)
  {
    SizeGrows(|mem|, r.inStart, r.inSize);
    var size := SizeAfter(|mem|, r.inStart, r.inSize);
    MemFeeGrows(|mem| / 32, size / 32);
    SizeGrows(size, r.outStart, r.outSize);
    MemFeeGrows(size / 32, BothSizes(|mem|, r) / 32);
  }

  /** What a call does, up to the moment the other frame starts. */
  lemma CallLaw(env: Env, msg: Message, code: Bytes, m: Machine, w: World)
    requires m.pc < |code| && IsCall(code[m.pc]) && Normal(m)
    ensures var op, e := code[m.pc], Step(env, msg, code, m, w);
            if |m.stack| < (if op == CALL || op == CALLCODE then 7 else 6) || (op == STATICCALL && !env.metropolis) then e.Fail?
            else
              var r := RequestOf(op, m.stack);
              var surcharge := Surcharge(env, w, op, r);
              var have := m.gas - 40 - (TotalFee(BothSizes(|m.mem|, r)) - TotalFee(|m.mem|));
              var stipend := if r.value > 0 then 2300 else 0;
              var rest := m.stack[..|m.stack| - if op == CALL || op == CALLCODE then 7 else 6];
              var passed := PassedOn(env, r, have - surcharge);
              if (msg.isStatic && r.value > 0 && op == CALL) || have < surcharge || (!env.antiDos && have < surcharge + r.gas) then e.Fail?
              else if GetBalance(w, msg.to) < r.value || msg.depth >= 1024 then
                && e.Next? && e.world == w && e.m.pc == m.pc + 1 && e.m.stack == rest + [0] && e.m.last == []
                && e.m.gas == have - surcharge + stipend && |e.m.mem| == BothSizes(|m.mem|, r)
                && forall j :: 0 <= j < |e.m.mem| ==> e.m.mem[j] == ByteAtOr0(m.mem, j)
              else if op == DELEGATECALL && !env.homestead then e.Fail?
              else
                && e.Invoke? && e.m.pc == m.pc + 1 && e.m.stack == rest && e.m.gas == have - surcharge - passed
                && |e.m.mem| == BothSizes(|m.mem|, r) && (forall j :: 0 <= j < |e.m.mem| ==> e.m.mem[j] == ByteAtOr0(m.mem, j))
                && Announces(op, msg, r, e.call) && e.call.gas == passed + stipend && Carries(e.call.data, m.mem, r.inStart, r.inSize)
                && e.outStart == r.outStart && e.outSize == r.outSize
  {
    hide ExecCall, TotalFee, BothSizes, Carries, Absent, CallWith, RequestOf, Announces, PassedOn, GetBalance, Info,
      Step;
    var op, s := code[m.pc], m.stack;
    CallForm(env, msg, code, m, w);
    if |s| >= (if op == CALL || op == CALLCODE then 7 else 6) && (op == STATICCALL ==> env.metropolis) {
      ArgsOf(op, s);
      var r := RequestOf(op, s);
      GrowsOn(m.mem, r);
      if m.gas >= 40 {
        var m1 := m.(gas := m.gas - 40, pc := m.pc + 1);
        var have := m1.gas - (TotalFee(BothSizes(|m.mem|, r)) - TotalFee(|m.mem|));
        var k := if op == CALL || op == CALLCODE then 7 else 6;
        ExecCallMeans(env, msg, m1, w, op);
        if !((msg.isStatic && r.value > 0 && op == CALL) || have < 0) {
          var after: Bytes :|
            && |after| == BothSizes(|m.mem|, r) && (forall j :: 0 <= j < |after| ==> after[j] == ByteAtOr0(m.mem, j))
            && Carries(CallData(after, r.inStart, r.inSize), m.mem, r.inStart, r.inSize)
            && Step(env, msg, code, m, w)
               == CallWith(env, msg, m1.(stack := s[..|s| - k], gas := have, mem := after), w, op, r.gas, r.to, r.value,
                           CallData(after, r.inStart, r.inSize), r.outStart, r.outSize);
          SendMeans(env, msg, m1.(stack := s[..|s| - k], gas := have, mem := after), w, op, r, CallData(after, r.inStart, r.inSize));
        }
      }
    }
  }

  lemma CallForm(env: Env, msg: Message, code: Bytes, m: Machine, w: World)
    requires m.pc < |code| && IsCall(code[m.pc]) && Normal(m)
    ensures Step(env, msg, code, m, w)
         == if (code[m.pc] == STATICCALL && !env.metropolis) || m.gas < 40 || |m.stack| < (if code[m.pc] == CALL || code[m.pc] == CALLCODE then 7 else 6) then Fail
            else ExecCall(env, msg, m.(gas := m.gas - 40, pc := m.pc + 1), w, code[m.pc])
  {
    hide ExecCall;
  }

  // ---- what the other frame sees ----

  /** The frame of a CALL sees the caller as its sender, the account it asked for as itself, and the value and the input
      given; that of a DELEGATECALL sees sender, address and value of the calling frame. */
  lemma CalleeSees(env: Env, msg: Message, code: Bytes, m: Machine, w: World, called: Bytes, n: Machine, v: World)
    requires m.pc < |code| && IsCall(code[m.pc]) && Normal(m) && Step(env, msg, code, m, w).Invoke?
    requires n.pc < |called| && Step(env, Step(env, msg, code, m, w).call, called, n, v).Next?
    ensures |m.stack| >= if code[m.pc] == CALL || code[m.pc] == CALLCODE then 7 else 6
    ensures var op, r := code[m.pc], RequestOf(code[m.pc], m.stack);
            var s := Step(env, Step(env, msg, code, m, w).call, called, n, v).m.stack;
            && (called[n.pc] == 0x30 ==> s == n.stack + [if op == CALL || op == STATICCALL then r.to else msg.to])
            && (called[n.pc] == 0x33 ==> s == n.stack + [if op == DELEGATECALL then msg.sender else msg.to])
            && (called[n.pc] == 0x34 ==> s == n.stack + [if op == DELEGATECALL then msg.value else r.value])
            && (called[n.pc] == 0x35 && |n.stack| > 0 ==>
                  |s| > 0 && forall i :: 0 <= i < 32 ==>
                    ByteOf(Top(s, 0), i)
                    == if Top(n.stack, 0) + i < r.inSize then ByteAtOr0(m.mem, r.inStart + Top(n.stack, 0) + i) else 0)
  {
    hide Step, InputByte, ByteAtOr0, ByteOf, BothSizes, TotalFee, Surcharge, PassedOn;
    CallLaw(env, msg, code, m, w);
    var call := Step(env, msg, code, m, w).call;
    if called[n.pc] == 0x30 || called[n.pc] == 0x33 || called[n.pc] == 0x34 || called[n.pc] == 0x35 {
      EnvironmentLaw(env, call, called, n, v);
    }
    if called[n.pc] == 0x35 && |n.stack| > 0 {
      NoInputBeyond(call.data);
    }
  }

  lemma NoInputBeyond(d: CallData)
    ensures forall k: nat :: k >= d.size ==> InputByte(d, k) == 0
  {
  }

  // ---- creating ----

  /** CREATE sends the range of memory as code, with all the gas left, or all but one 64th since the anti-DoS fork. */
  lemma CreateLaw(env: Env, msg: Message, code: Bytes, m: Machine, w: World)
    requires m.pc < |code| && code[m.pc] == CREATE && Normal(m)
    ensures var e, s := Step(env, msg, code, m, w), m.stack;
            if |s| < 3 || msg.isStatic then e.Fail?
            else
              var have := m.gas - 32000 - GrowthFee(|m.mem|, Top(s, 1), Top(s, 2));
              if have < 0 then e.Fail?
              else if GetBalance(w, msg.to) < Top(s, 0) || msg.depth >= 1024 then
                && e.Next? && e.world == w && Grown(m.mem, e.m.mem, Top(s, 1), Top(s, 2))
                && e.m == m.(pc := m.pc + 1, gas := have, stack := s[..|s| - 3] + [0], mem := e.m.mem, last := [])
              else
                && e.Create? && Grown(m.mem, e.m.mem, Top(s, 1), Top(s, 2))
                && e.m == m.(pc := m.pc + 1, gas := have, stack := s[..|s| - 3], mem := e.m.mem)
                && Carries(e.call.data, m.mem, Top(s, 1), Top(s, 2))
                && e.call == Message(msg.to, e.call.to, Top(s, 0), if env.antiDos then have - have / 64 else have, e.call.data,
                                     msg.depth + 1, None, true, false)
  {
    hide MemExtend, GrowthFee, GetBalance;
    var s := m.stack;
    if |s| >= 3 {
      var start, size := Top(s, 1), Top(s, 2);
      ExtendMeans(m.mem, m.gas - 32000, start, size);
      match MemExtend(m.mem, m.gas - 32000, start, size)
      case NoGas =>
      case Extended(g, mem) => WindowCarries(m.mem, mem, start, size);
    }
  }

  // ---- how a frame goes on ----

  predicate SameEnd(r: Result, r': Result) {
    r.success == r'.success && r.gas == r'.gas && r.data == r'.data && r.world == r'.world
  }

  /** A frame runs step by step; running off the end of the code is success, and a failing step takes all gas. */
  lemma RunLaw(env: Env, msg: Message, code: Bytes, m: Machine, w: World, x: bool)
    requires SoundEnv(env)
    ensures var r := Execute(env, msg, code, m, w, x);
            if m.pc >= |code| then r.success && r.gas == m.gas && r.data == [] && r.world == w
            else
              match Step(env, msg, code, m, w)
              case Fail => !r.success && r.gas == 0 && r.data == []
              case Halt(success, gas, data, w') => r.success == success && r.gas == gas && r.data == data && r.world == w'
              case Next(m', w') => SameEnd(r, Execute(env, msg, code, m', w', false))
              case _ => true
  {
    hide Step;
    if m.pc < |code| {
      match Step(env, msg, code, m, w)
      case Next(m', w') => FlagOnly(env, msg, code, m', w', IsLog(code[m.pc]));
      case _ =>
    }
  }

  /** The flag that records a LOG is for the books only. */
  lemma FlagOnly(env: Env, msg: Message, code: Bytes, m: Machine, w: World, x: bool)
    requires SoundEnv(env)
    ensures SameEnd(Execute(env, msg, code, m, w, x), Execute(env, msg, code, m, w, false))
  {
    hide Step;
  }

  /** After a call the frame goes on with the flag of success on its stack, the gas that was left added, and as much of the
      output in its window as fits; the whole output is kept as returned data. */
  lemma ReturnLaw(env: Env, msg: Message, code: Bytes, m: Machine, w: World, x: bool) returns (n: Machine)
    requires SoundEnv(env) && m.pc < |code| && Normal(m) && Step(env, msg, code, m, w).Invoke?
    requires IsCall(code[m.pc])
    ensures var e := Step(env, msg, code, m, w);
            && e.call.codeAddress.Some?
            && var sub := ApplyMsg(env, e.call, GetCode(w, e.call.codeAddress.value), w);
               && SameEnd(Execute(env, msg, code, m, w, x), Execute(env, msg, code, n, sub.world, false))
               && n.pc == e.m.pc && n.stack == e.m.stack + [if sub.success then 1 else 0] && n.gas == e.m.gas + sub.gas && n.last == sub.data
               && |n.mem| == |e.m.mem|
               && forall j :: 0 <= j < |n.mem| ==>
                    n.mem[j] == if e.outStart <= j < e.outStart + e.outSize && j - e.outStart < |sub.data| then sub.data[j - e.outStart] else e.m.mem[j]
  {
    hide Step, ApplyMsg, Execute, TotalFee, Surcharge, PassedOn, Carries, BothSizes, AfterCall;
    CallLaw(env, msg, code, m, w);
    InvokeForm(env, msg, code, m, w, x);
    var e := Step(env, msg, code, m, w);
    OutputFits(|m.mem|, RequestOf(code[m.pc], m.stack));
    var sub := ApplyMsg(env, e.call, GetCode(w, e.call.codeAddress.value), w);
    n := AfterCall(e.m, sub.success, sub.gas, sub.data, e.outStart, e.outSize);
    AfterCallMeans(e.m, sub.success, sub.gas, sub.data, e.outStart, e.outSize);
  }

  lemma InvokeForm(env: Env, msg: Message, code: Bytes, m: Machine, w: World, x: bool)
    requires SoundEnv(env) && m.pc < |code| && Step(env, msg, code, m, w).Invoke?
    ensures var e := Step(env, msg, code, m, w);
            e.call.codeAddress.Some? ==>
              var sub := ApplyMsg(env, e.call, GetCode(w, e.call.codeAddress.value), w);
              SameEnd(Execute(env, msg, code, m, w, x),
                      Execute(env, msg, code, AfterCall(e.m, sub.success, sub.gas, sub.data, e.outStart, e.outSize), sub.world, false))
  {
    hide Step, ApplyMsg, AfterCall, GetCode;
  }

  lemma AfterCallMeans(m: Machine, success: bool, gas: int, data: Bytes, outStart: nat, outSize: nat)
    requires outSize > 0 ==> outStart + outSize <= |m.mem|
    ensures var n := AfterCall(m, success, gas, data, outStart, outSize);
            && n.pc == m.pc && n.stack == m.stack + [if success then 1 else 0] && n.gas == m.gas + gas && n.last == data
            && |n.mem| == |m.mem|
            && forall j :: 0 <= j < |n.mem| ==>
                 n.mem[j] == if outStart <= j < outStart + outSize && j - outStart < |data| then data[j - outStart] else m.mem[j]
  {
    var n := AfterCall(m, success, gas, data, outStart, outSize);
    var k := if |data| < outSize then |data| else outSize;
    if k > 0 { assert n.mem == m.mem[..outStart] + Window(data, 0, k) + m.mem[outStart + k..]; }
  }

  lemma OutputFits(size: nat, r: Request)
    requires size % 32 == 0
    ensures r.outSize > 0 ==> r.outStart + r.outSize <= BothSizes(size, r)
  {
  }

  /** After a creation it goes on with the new address, or 0, and with the gas that was left. */
  lemma CreatedLaw(env: Env, msg: Message, code: Bytes, m: Machine, w: World, x: bool)
    requires SoundEnv(env) && m.pc < |code| && Step(env, msg, code, m, w).Create?
    ensures var e := Step(env, msg, code, m, w);
            var sub := CreateContract(env, e.call, w);
            SameEnd(Execute(env, msg, code, m, w, x),
                    Execute(env, msg, code,
                            e.m.(stack := e.m.stack + [if sub.success then sub.addr else 0], gas := e.m.gas - e.call.gas + sub.gas,
                                 last := if sub.success then [] else sub.data),
                            sub.world, false))
  {
    hide Step, CreateContract;
  }
}
