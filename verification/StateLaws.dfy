/** What the instructions on memory, code, call data, storage, logs and other accounts mean. */
module StateLaws {
  import opened ByteStrings
  import opened BigEndian
  import opened IntMath
  import opened Words
  import opened Opcodes
  import opened World
  import opened Machine
  import opened Evm
  import opened InstructionLaws

  // ---- memory ----

  /** Byte j of a byte string that is followed by zeros. */
  function ByteAtOr0(b: Bytes, j: nat): Byte { if j < |b| then b[j] else 0 }

  /** What a frame keeps about its memory and its stack. */
  predicate Normal(m: Machine) { |m.mem| % 32 == 0 && |m.stack| <= 1024 }

  /** Memory grows to whole words when it is used beyond its end. */
  function SizeAfter(size: nat, start: nat, len: nat): nat {
    if len > 0 && start + len > size then 32 * ((start + len + 31) / 32) else size
  }

  function TotalFee(size: nat): nat {
    var words := size / 32;
    3 * words + words * words / 512
  }

  /** What the growth costs. */
  function GrowthFee(size: nat, start: nat, len: nat): int {
    TotalFee(SizeAfter(size, start, len)) - TotalFee(size)
  }

  predicate Grown(before: Bytes, after: Bytes, start: nat, len: nat) {
    && |after| == SizeAfter(|before|, start, len)
    && forall j :: 0 <= j < |after| ==> after[j] == ByteAtOr0(before, j)
  }

  /** The bytes from `start` on are those, all others are as before. */
  ghost predicate Written(before: Bytes, after: Bytes, start: nat, data: Bytes) {
    && |after| == SizeAfter(|before|, start, |data|)
    && forall j :: 0 <= j < |after| ==> after[j] == if start <= j < start + |data| then data[j - start] else ByteAtOr0(before, j)
  }

  lemma ExtendMeans(mem: Bytes, gas: int, start: nat, sz: nat)
    requires |mem| % 32 == 0
    ensures GrowthFee(|mem|, start, sz) >= 0
    ensures match MemExtend(mem, gas, start, sz)
            case NoGas => gas < GrowthFee(|mem|, start, sz)
            case Extended(g, after) =>
              && g == gas - GrowthFee(|mem|, start, sz) && Grown(mem, after, start, sz) && |after| % 32 == 0
              && (gas >= 0 || (sz > 0 && start + sz > |mem|) ==> g >= 0)
  {
    if sz != 0 && start + sz > |mem| {
      var c := Ceil32(start + sz);
      CeilIs(start + sz, c);
      MemFeeGrows(|mem| / 32, c / 32);
      assert |mem| + (c / 32 - |mem| / 32) * 32 == c;
    }
  }

  lemma CeilIs(x: nat, c: nat)
    requires c % 32 == 0 && x <= c < x + 32
    ensures c == 32 * ((x + 31) / 32)
  {
  }

  /** The fee and the size are no smaller than before. */
  lemma SizeGrows(size: nat, start: nat, len: nat)
    requires size % 32 == 0
    ensures SizeAfter(size, start, len) >= size && SizeAfter(size, start, len) % 32 == 0
  {
  }

  /** MLOAD reads 32 bytes as a big-endian number; MSTORE writes the 32 bytes of a word, MSTORE8 its last one. */
  lemma MemoryLaw(env: Env, msg: Message, code: Bytes, m: Machine, w: World)
    requires m.pc < |code| && code[m.pc] in {MLOAD, MSTORE, MSTORE8} && Normal(m)
    ensures var op, e, s := code[m.pc], Step(env, msg, code, m, w), m.stack;
            var n := if op == MLOAD then 1 else 2;
            var len := if op == MSTORE8 then 1 else 32;
            if |s| < n || m.gas < 3 + GrowthFee(|m.mem|, Top(s, 0), len) then e.Fail?
            else
              && e.Next? && e.world == w && e.m.pc == m.pc + 1 && e.m.last == m.last
              && e.m.gas == m.gas - 3 - GrowthFee(|m.mem|, Top(s, 0), len)
              && (if op == MLOAD then
                    && |e.m.stack| == |s| && e.m.stack[..|s| - 1] == s[..|s| - 1] && Grown(m.mem, e.m.mem, Top(s, 0), 32)
                    && forall i :: 0 <= i < 32 ==> ByteOf(Top(e.m.stack, 0), i) == ByteAtOr0(m.mem, Top(s, 0) + i)
                  else
                    && e.m.stack == s[..|s| - 2]
                    && Written(m.mem, e.m.mem, Top(s, 0),
                               if op == MSTORE then seq(32, i requires 0 <= i < 32 => ByteOf(Top(s, 1), i)) else [Top(s, 1) % 256]))
  {
    hide MemExtend, GrowthFee, CopyTo, ByteOf, WordOf, EncodeInt32;
    var op, s := code[m.pc], m.stack;
    var len := if op == MSTORE8 then 1 else 32;
    if |s| >= if op == MLOAD then 1 else 2 {
      var a: Word := Top(s, 0);
      ExtendMeans(m.mem, m.gas - 3, a, len);
      match MemExtend(m.mem, m.gas - 3, a, len)
      case NoGas =>
      case Extended(g, mem) =>
        if op == MLOAD {
          LoadedBytes(m.mem, mem, a);
        } else if op == MSTORE {
          StoredBytes(m.mem, mem, a, Top(s, 1));
        } else {
          CopyMeans(m.mem, mem, a, [Top(s, 1) % 256], 0, 1);
          assert Window([Top(s, 1) % 256], 0, 1) == [Top(s, 1) % 256];
        }
    }
  }

  lemma LoadedBytes(mem: Bytes, after: Bytes, a: nat)
    requires Grown(mem, after, a, 32)
    ensures forall i :: 0 <= i < 32 ==> ByteOf(WordOf(Window(after, a, 32)), i) == ByteAtOr0(mem, a + i)
  {
    forall i | 0 <= i < 32 ensures ByteOf(WordOf(Window(after, a, 32)), i) == ByteAtOr0(mem, a + i) {
      BytesOfWord(Window(after, a, 32), i);
    }
  }

  /** What a word is stored as. */
  lemma WordBytes(v: Word)
    ensures EncodeInt32(v) == seq(32, i requires 0 <= i < 32 => ByteOf(v, i))
  {
    forall i | 0 <= i < 32 ensures EncodeInt32(v)[i] == ByteOf(v, i) {
      ByteOfWord(i, v);
    }
  }

  lemma StoredBytes(mem: Bytes, after: Bytes, a: nat, v: Word)
    requires Grown(mem, after, a, 32)
    ensures a + 32 <= |after|
    ensures Written(mem, CopyTo(after, a, EncodeInt32(v), 0, 32), a, seq(32, i requires 0 <= i < 32 => ByteOf(v, i)))
  {
    WordBytes(v);
    CopyMeans(mem, after, a, EncodeInt32(v), 0, 32);
    assert Window(EncodeInt32(v), 0, 32) == EncodeInt32(v);
  }

  lemma CopyMeans(mem: Bytes, after: Bytes, start: nat, src: Bytes, s2: nat, size: nat)
    requires Grown(mem, after, start, size)
    ensures size > 0 ==> start + size <= |after|
    ensures Written(mem, CopyTo(after, start, src, s2, size), start, Window(src, s2, size))
  {
    if size > 0 {
      var c, d := CopyTo(after, start, src, s2, size), Window(src, s2, size);
      assert c == after[..start] + d + after[start + size..];
      hide Window, CopyTo;
      assert forall j :: 0 <= j < |c| ==> c[j] == if start <= j < start + size then d[j - start] else after[j];
    }
  }

  /** Memory read after it was extended: the bytes from before, and zeros. */
  lemma ReadMeans(mem: Bytes, after: Bytes, start: nat, size: nat)
    requires Grown(mem, after, start, size)
    ensures Slice(after, start, start + size) == Window(mem, start, size)
  {
    if size > 0 { assert start + size <= |after|; }
  }

  function WordCount(size: nat): nat { (size + 31) / 32 }

  lemma FeePerWord(size: nat)
    ensures Ceil32(size) / 32 == WordCount(size) && CopyFee(size) == 3 * WordCount(size)
  {
    CeilIs(size, Ceil32(size));
  }

  /** What the four copying instructions read: the input of the frame, its code, the code of an account, the data returned last. */
  function CopySource(op: Byte, msg: Message, code: Bytes, m: Machine, w: World): Bytes {
    match op
    case 0x37 => Window(msg.data.data, msg.data.offset, msg.data.size)
    case 0x39 => code
    case 0x3c => if |m.stack| > 0 then GetCode(w, Top(m.stack, 0) % TT160) else []
    case _ => m.last
  }

  lemma CopyOpMeans(m: Machine, w: World, n: nat, gas: int, start: nat, src: Bytes, s2: nat, size: nat)
    requires n <= |m.stack| && |m.mem| % 32 == 0
    ensures var e, fee := CopyOp(m, w, n, gas, start, src, s2, size), GrowthFee(|m.mem|, start, size) + 3 * WordCount(size);
            && fee >= 0
            && if gas < fee then e.Fail?
               else
                 && e.Next? && e.world == w && Written(m.mem, e.m.mem, start, Window(src, s2, size))
                 && e.m == m.(stack := m.stack[..|m.stack| - n], gas := gas - fee, mem := e.m.mem)
  {
    hide MemExtend, GrowthFee, CopyTo, Window, CopyFee, WordCount;
    ExtendMeans(m.mem, gas, start, size);
    FeePerWord(size);
    match MemExtend(m.mem, gas, start, size)
    case NoGas =>
    case Extended(g, mem) => CopyMeans(m.mem, mem, start, src, s2, size);
  }

  /** Bytes of the source, or zeros beyond its end, are written to memory; only returned data may not be read beyond its end. */
  lemma CopyLaw(env: Env, msg: Message, code: Bytes, m: Machine, w: World)
    requires m.pc < |code| && code[m.pc] in {CALLDATACOPY, CODECOPY, EXTCODECOPY, RETURNDATACOPY} && Normal(m)
    ensures var op, e, s := code[m.pc], Step(env, msg, code, m, w), m.stack;
            var k := if op == EXTCODECOPY then 1 else 0;
            var base := if op == EXTCODECOPY then if env.antiDos then 700 else 20 else 3;
            if |s| < k + 3 then e.Fail?
            else
              var start, from, size := Top(s, k), Top(s, k + 1), Top(s, k + 2);
              var fee := base + GrowthFee(|m.mem|, start, size) + 3 * WordCount(size);
              if m.gas < fee || (op == RETURNDATACOPY && (!env.metropolis || from as int + size > |m.last|)) then e.Fail?
              else
                && e.Next? && e.world == w && e.m.pc == m.pc + 1 && e.m.last == m.last && e.m.gas == m.gas - fee
                && e.m.stack == s[..|s| - 3 - k]
                && Written(m.mem, e.m.mem, start, Window(CopySource(op, msg, code, m, w), from, size))
  {
    hide GrowthFee, Window, WordCount, CopyOp, Written;
    var op, s := code[m.pc], m.stack;
    var k := if op == EXTCODECOPY then 1 else 0;
    if |s| >= k + 3 {
      var start, from, size := Top(s, k), Top(s, k + 1), Top(s, k + 2);
      var fee := if op == EXTCODECOPY then 20 else 3;
      var gas := m.gas - if op == EXTCODECOPY && env.antiDos then 700 else fee;
      CopyOpMeans(m.(gas := m.gas - fee, pc := m.pc + 1), w, k + 3, gas, start, CopySource(op, msg, code, m, w), from, size);
    }
  }

  /** SHA3 pushes the hash of a range of memory. */
  lemma HashLaw(env: Env, msg: Message, code: Bytes, m: Machine, w: World)
    requires m.pc < |code| && code[m.pc] == SHA3 && Normal(m)
    ensures var e, s := Step(env, msg, code, m, w), m.stack;
            if |s| < 2 || m.gas < 30 + 6 * WordCount(Top(s, 1)) + GrowthFee(|m.mem|, Top(s, 0), Top(s, 1)) then e.Fail?
            else
              && e.Next? && e.world == w && e.m.pc == m.pc + 1 && e.m.last == m.last
              && e.m.gas == m.gas - 30 - 6 * WordCount(Top(s, 1)) - GrowthFee(|m.mem|, Top(s, 0), Top(s, 1))
              && e.m.stack == s[..|s| - 2] + [env.sha3(Window(m.mem, Top(s, 0), Top(s, 1)))]
              && Grown(m.mem, e.m.mem, Top(s, 0), Top(s, 1))
  {
    hide MemExtend, GrowthFee, Window, WordCount;
    var s := m.stack;
    if |s| >= 2 {
      var start, size := Top(s, 0), Top(s, 1);
      FeePerWord(size);
      var gas := m.gas - 30 - 6 * WordCount(size);
      ExtendMeans(m.mem, gas, start, size);
      match MemExtend(m.mem, gas, start, size)
      case NoGas =>
      case Extended(g, mem) => ReadMeans(m.mem, mem, start, size);
    }
  }

  /** STOP, RETURN and REVERT end the frame: success but for REVERT, a range of memory as output but for STOP, and the gas
      left. */
  lemma HaltLaw(env: Env, msg: Message, code: Bytes, m: Machine, w: World)
    requires m.pc < |code| && code[m.pc] in {STOP, RETURN, REVERT} && Normal(m)
    ensures var op, e, s := code[m.pc], Step(env, msg, code, m, w), m.stack;
            if op == STOP then e == if m.gas < 0 then Fail else Halt(true, m.gas, [], w)
            else if |s| < 2 || m.gas < GrowthFee(|m.mem|, Top(s, 0), Top(s, 1)) || (op == REVERT && !env.metropolis) then e.Fail?
            else
              e == Halt(op == RETURN, m.gas - GrowthFee(|m.mem|, Top(s, 0), Top(s, 1)), Window(m.mem, Top(s, 0), Top(s, 1)), w)
  {
    hide MemExtend, GrowthFee, Window;
    var s := m.stack;
    if |s| >= 2 {
      var start, size := Top(s, 0), Top(s, 1);
      ExtendMeans(m.mem, m.gas, start, size);
      match MemExtend(m.mem, m.gas, start, size)
      case NoGas =>
      case Extended(g, mem) => ReadMeans(m.mem, mem, start, size);
    }
  }

  // ---- jumps ----

  /** A jump goes to a JUMPDEST that is not push data, or ends the frame; JUMPI does so only for a condition other than 0. */
  lemma JumpLaw(env: Env, msg: Message, code: Bytes, m: Machine, w: World)
    requires m.pc < |code| && code[m.pc] in {JUMP, JUMPI, JUMPDEST} && Normal(m)
    ensures var op, e, s := code[m.pc], Step(env, msg, code, m, w), m.stack;
            var n := if op == JUMP then 1 else if op == JUMPI then 2 else 0;
            var fee := if op == JUMP then 8 else if op == JUMPI then 10 else 1;
            if |s| < n || m.gas < fee then e.Fail?
            else
              var taken := op == JUMP || (op == JUMPI && Top(s, 1) != 0);
              if taken && !(Top(s, 0) < |code| && code[Top(s, 0)] == 0x5b && IsStart(code, Top(s, 0))) then e.Fail?
              else e == Next(m.(pc := if taken then Top(s, 0) else m.pc + 1, gas := m.gas - fee, stack := s[..|s| - n]), w)
  {
    hide IsStart;
  }

  // ---- the environment ----

  /** What the instructions without arguments and BLOCKHASH, BALANCE and EXTCODESIZE read. */
  predicate EnvironmentMeans(env: Env, msg: Message, code: Bytes, m: Machine, w: World, op: Byte, a: Word, r: Word) {
    match op
    case 0x30 => r == msg.to
    case 0x31 => r == GetBalance(w, a % TT160) % TT256
    case 0x32 => r == env.txOrigin
    case 0x33 => r == msg.sender
    case 0x34 => r == msg.value
    case 0x35 => forall i :: 0 <= i < 32 ==> ByteOf(r, i) == InputByte(msg.data, a + i)
    case 0x36 => r == msg.data.size % TT256
    case 0x38 => r == |code| % TT256
    case 0x3a => r == env.txGasPrice
    case 0x3b => r == |GetCode(w, a % TT160)| % TT256
    case 0x3d => r == |m.last| % TT256
    case 0x40 => r == env.blockHash(a)
    case 0x41 => r == env.coinbase
    case 0x42 => r == env.timestamp
    case 0x43 => r == env.number
    case 0x44 => r == env.difficulty
    case 0x45 => r == env.gasLimit
    case 0x58 => r == m.pc % TT256
    case 0x59 => r == |m.mem| % TT256
    case 0x5a => r == (m.gas - 2) % TT256
    case _ => false
  }

  /** Byte k of the input of a frame. */
  function InputByte(d: CallData, k: nat): Byte {
    if k < d.size then ByteAtOr0(d.data, d.offset + k) else 0
  }

  lemma InputWord(d: CallData, a: nat, i: nat)
    requires i < 32
    ensures ByteOf(Extract32(d, a), i) == InputByte(d, a + i)
  {
    if a >= d.size {
      DivModUnique(0, Pow256(31 - i), 0, 0);
    } else {
      var hi := if a + 32 <= d.size then d.offset + a + 32 else d.offset + d.size;
      var o := Slice(d.data, d.offset + a, hi);
      BytesOfWord(o + Zeros(32 - |o|), i);
    }
  }

  predicate ReadsEnvironment(op: Byte) {
    (0x30 <= op <= 0x3d && op != CALLDATACOPY && op != CODECOPY && op != EXTCODECOPY) || 0x40 <= op <= 0x45 || 0x58 <= op <= 0x5a
  }

  /** The base fee, with the supplements since the anti-DoS fork. */
  function EnvironmentFee(env: Env, op: Byte): nat {
    match op
    case 0x31 => if env.antiDos then 400 else 20
    case 0x35 => 3
    case 0x3b => if env.antiDos then 700 else 20
    case 0x40 => 20
    case _ => 2
  }

  lemma EnvironmentLaw(env: Env, msg: Message, code: Bytes, m: Machine, w: World)
    requires m.pc < |code| && ReadsEnvironment(code[m.pc]) && (code[m.pc] == 0x3d ==> env.metropolis)
    ensures var op, e := code[m.pc], Step(env, msg, code, m, w);
            var n := if op in {0x31, 0x35, 0x3b, 0x40} then 1 else 0;
            && Exchanges(m, w, e, n, EnvironmentFee(env, op))
            && (e.Next? ==> EnvironmentMeans(env, msg, code, m, w, op, if |m.stack| > 0 then Top(m.stack, 0) else 0, Top(e.m.stack, 0)))
  {
    hide Extract32, InputByte, ByteOf;
    if code[m.pc] == 0x35 && |m.stack| > 0 {
      forall i | 0 <= i < 32 ensures ByteOf(Extract32(msg.data, Top(m.stack, 0)), i) == InputByte(msg.data, Top(m.stack, 0) + i) {
        InputWord(msg.data, Top(m.stack, 0), i);
      }
    }
  }

  // ---- storage ----

  /** One slot holds v now; nothing else changed but the refund counter. */
  ghost predicate OnlySlot(w: World, w': World, a: Address, k: Word, v: Word) {
    && (forall b: Address, j: Word :: GetStorage(w', b, j) == if b == a && j == k then v else GetStorage(w, b, j))
    && (forall b: Address :: SameBut(w, w', b)) && w'.logs == w.logs && w'.suicides == w.suicides
  }

  /** The same balance, nonce and code. */
  ghost predicate SameBut(w: World, w': World, b: Address) {
    GetBalance(w', b) == GetBalance(w, b) && GetNonce(w', b) == GetNonce(w, b) && GetCode(w', b) == GetCode(w, b)
  }

  /** SLOAD pushes a slot of the account at the frame's address. */
  lemma LoadLaw(env: Env, msg: Message, code: Bytes, m: Machine, w: World)
    requires m.pc < |code| && code[m.pc] == SLOAD
    ensures var e := Step(env, msg, code, m, w);
            && Exchanges(m, w, e, 1, if env.antiDos then 200 else 50)
            && (e.Next? ==> Top(e.m.stack, 0) == GetStorage(w, msg.to, Top(m.stack, 0)))
  {
  }

  /** SSTORE writes one, at 20000 gas if it was empty and is not any more and at 5000 else; 15000 are refunded for emptying it. */
  lemma StoreLaw(env: Env, msg: Message, code: Bytes, m: Machine, w: World)
    requires m.pc < |code| && code[m.pc] == SSTORE && Normal(m)
    ensures var e, s := Step(env, msg, code, m, w), m.stack;
            if msg.isStatic || |s| < 2 then e.Fail?
            else
              var before, v := GetStorage(w, msg.to, Top(s, 0)), Top(s, 1);
              var fee := if before == 0 && v != 0 then 20000 else 5000;
              if m.gas < fee then e.Fail?
              else
                && e.Next? && e.m == m.(pc := m.pc + 1, gas := m.gas - fee, stack := s[..|s| - 2])
                && OnlySlot(w, e.world, msg.to, Top(s, 0), v)
                && e.world.refunds == w.refunds + if before != 0 && v == 0 then 15000 else 0
  {
    if m.gas >= 0 && |m.stack| >= 2 && !msg.isStatic {
      var before, v := GetStorage(w, msg.to, Top(m.stack, 0)), Top(m.stack, 1);
      SlotOf(w, if before != 0 && v == 0 then 15000 else 0, msg.to, Top(m.stack, 0), v);
    }
    hide SetStorage, GetStorage, OnlySlot, AddRefund;
  }

  lemma SlotOf(w: World, refund: int, a: Address, k: Word, v: Word)
    ensures OnlySlot(w, SetStorage(AddRefund(w, refund), a, k, v), a, k, v)
    ensures SetStorage(AddRefund(w, refund), a, k, v).refunds == w.refunds + refund
  {
  }

  /** What one frame stored, every frame at the same address loads, whoever its sender is. */
  lemma StoredIsLoaded(env: Env, msg: Message, code: Bytes, m: Machine, w: World, w': World, other: Env, msg': Message,
      code': Bytes, n: Machine)
    requires Normal(m) && m.pc < |code| && code[m.pc] == SSTORE
    requires Step(env, msg, code, m, w).Next? && w' == Step(env, msg, code, m, w).world
    requires n.pc < |code'| && code'[n.pc] == SLOAD && Step(other, msg', code', n, w').Next?
    ensures |m.stack| >= 2 && |n.stack| >= 1
    ensures msg'.to == msg.to && Top(n.stack, 0) == Top(m.stack, 0) ==>
      Step(other, msg', code', n, w').m.stack == n.stack[..|n.stack| - 1] + [Top(m.stack, 1)]
  {
    hide Step;
    StoreLaw(env, msg, code, m, w);
    LoadLaw(other, msg', code', n, w');
  }

  /** At another address, or under another key, what is loaded does not change. */
  lemma StoredElsewhere(env: Env, msg: Message, code: Bytes, m: Machine, w: World, w': World, other: Env, msg': Message,
      code': Bytes, n: Machine)
    requires Normal(m) && m.pc < |code| && code[m.pc] == SSTORE && |n.stack| >= 1
    requires Step(env, msg, code, m, w).Next? && w' == Step(env, msg, code, m, w).world
    requires n.pc < |code'| && code'[n.pc] == SLOAD && Step(other, msg', code', n, w).Next?
    ensures |m.stack| >= 2
    ensures msg'.to != msg.to || Top(n.stack, 0) != Top(m.stack, 0) ==>
      Step(other, msg', code', n, w').Next? && Step(other, msg', code', n, w').m.stack == Step(other, msg', code', n, w).m.stack
  {
    hide Step, GetStorage;
    StoreLaw(env, msg, code, m, w);
    LoadLaw(other, msg', code', n, w);
    LoadLaw(other, msg', code', n, w');
  }

  // ---- logs and self-destructs ----

  /** LOG appends an entry under the frame's address, with the words below the range as topics and the range as data. Its
      data is charged without a check, unless memory grows. */
  lemma LogLaw(env: Env, msg: Message, code: Bytes, m: Machine, w: World)
    requires m.pc < |code| && 0xa0 <= code[m.pc] <= 0xa4 && Normal(m)
    ensures var n: nat, e, s := code[m.pc] - 0xa0, Step(env, msg, code, m, w), m.stack;
            var base := 375 * (1 + n);
            if msg.isStatic || |s| < n + 2 || m.gas < base then e.Fail?
            else
              var start: nat, size: nat := Top(s, 0), Top(s, 1);
              var grows := size > 0 && start + size > |m.mem|;
              var left := m.gas - base - 8 * size - GrowthFee(|m.mem|, start, size);
              if grows && left < 0 then e.Fail?
              else
                && e.Next? && Grown(m.mem, e.m.mem, start, size)
                && e.m == m.(pc := m.pc + 1, gas := left, stack := s[..|s| - n - 2], mem := e.m.mem)
                && |e.world.logs| == |w.logs| + 1 && e.world == w.(logs := e.world.logs) && e.world.logs[..|w.logs|] == w.logs
                && var log := e.world.logs[|w.logs|];
                   && log.address == msg.to && log.data == Window(m.mem, start, size) && |log.topics| == n
                   && forall i :: 0 <= i < n ==> log.topics[i] == Top(s, 2 + i)
  {
    hide MemExtend, GrowthFee, Window;
    var s := m.stack;
    var n: nat := code[m.pc] - 0xa0;
    if |s| >= n + 2 {
      var start: nat, size: nat := Top(s, 0), Top(s, 1);
      var gas := m.gas - 375 * (1 + n) - 8 * size;
      ExtendMeans(m.mem, gas, start, size);
      FreeExtension(m.mem, gas, start, size);
      match MemExtend(m.mem, gas, start, size)
      case NoGas =>
      case Extended(g, mem) => ReadMeans(m.mem, mem, start, size);
    }
  }

  /** Without growth there is no check of the gas. */
  lemma FreeExtension(mem: Bytes, gas: int, start: nat, size: nat)
    requires |mem| % 32 == 0
    ensures MemExtend(mem, gas, start, size).NoGas? ==> size > 0 && start + size > |mem|
  {
  }

  /** No account to speak of: blank from Spurious Dragon on, never touched before. */
  predicate Absent(env: Env, acct: Account) {
    if env.spuriousDragon then acct.nonce == 0 && acct.balance == 0 && acct.code == []
    else (acct.deleted && !acct.touched) || !(acct.touched || acct.existentAtStart)
  }

  /** SUICIDE sends the whole balance to the heir, even if that is the account itself and the ether is lost, and notes the
      account for removal. */
  lemma SuicideLaw(env: Env, msg: Message, code: Bytes, m: Machine, w: World)
    requires m.pc < |code| && code[m.pc] == SUICIDE
    ensures var e, s := Step(env, msg, code, m, w), m.stack;
            if msg.isStatic || |s| < 1 || |s| > 1025 then e.Fail?
            else
              var heir := Top(s, 0) % TT160;
              var all := GetBalance(w, msg.to);
              var fee := (if env.antiDos then 5000 else 0)
                         + (if env.antiDos && Absent(env, Acct(w, heir)) && (all > 0 || !env.spuriousDragon) then 25000 else 0);
              if m.gas < fee then e.Fail?
              else
                && e.Halt? && e.success && e.gas == m.gas - fee && e.data == [] && e.world.suicides == w.suicides + [msg.to]
                && e.world.logs == w.logs && e.world.refunds == w.refunds
                && forall b: Address ::
                     && GetNonce(e.world, b) == GetNonce(w, b) && GetCode(e.world, b) == GetCode(w, b)
                     && Acct(e.world, b).storage == Acct(w, b).storage
                     && GetBalance(e.world, b)
                        == if b == msg.to then 0 else if b == heir then GetBalance(w, b) + all else GetBalance(w, b)
  {
    hide ExecSuicide, GetBalance, GetNonce, GetCode, Acct, Absent;
    if m.gas >= 0 && |m.stack| >= 1 {
      SuicideMeans(env, msg, m.(pc := m.pc + 1), w);
    }
  }

  lemma SuicideMeans(env: Env, msg: Message, m: Machine, w: World)
    requires |m.stack| >= 1
    ensures var e := ExecSuicide(env, msg, m, w);
            var heir := Top(m.stack, 0) % TT160;
            var all := GetBalance(w, msg.to);
            var fee := (if env.antiDos then 5000 else 0)
                       + (if env.antiDos && Absent(env, Acct(w, heir)) && (all > 0 || !env.spuriousDragon) then 25000 else 0);
            if msg.isStatic || m.gas < fee then e.Fail?
            else
              && e.Halt? && e.success && e.gas == m.gas - fee && e.data == [] && e.world.suicides == w.suicides + [msg.to]
              && e.world.logs == w.logs && e.world.refunds == w.refunds
              && forall b: Address ::
                   && GetNonce(e.world, b) == GetNonce(w, b) && GetCode(e.world, b) == GetCode(w, b)
                   && Acct(e.world, b).storage == Acct(w, b).storage
                   && GetBalance(e.world, b)
                      == if b == msg.to then 0 else if b == heir then GetBalance(w, b) + all else GetBalance(w, b)
  {
    assert AccountExists(env, w, Top(m.stack, 0) % TT160) == !Absent(env, Acct(w, Top(m.stack, 0) % TT160));
    hide AccountExists, Absent;
  }

  // ---- what is no instruction ----

  /** The bytes that name an instruction. */
  predicate IsInstruction(op: Byte) {
    op <= 0x0b || 0x10 <= op <= 0x1a || op == 0x20 || 0x30 <= op <= 0x3e || 0x40 <= op <= 0x45 || 0x50 <= op <= 0x5b || 0x60 <= op <= 0xa4
    || 0xf0 <= op <= 0xf5 || op in {0xfa, 0xfd, 0xff}
  }

  /** Any other byte ends the frame, and so do the instructions of Metropolis before it. */
  lemma InvalidLaw(env: Env, msg: Message, code: Bytes, m: Machine, w: World)
    requires m.pc < |code| && (!IsInstruction(code[m.pc]) || (code[m.pc] in {0x3d, 0x3e, 0xfa, 0xfd} && !env.metropolis))
    ensures Step(env, msg, code, m, w).Fail?
  {
  }
}
