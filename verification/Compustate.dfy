/** The machine state of a frame as an object, and the instructions that only touch it. */
module ComputeState {
  import opened ByteStrings
  import opened BigEndian
  import opened Words
  import opened Opcodes
  import opened World
  import opened Machine
  import M = Machine

  // ---- preprocessing ----

  /** The positions before i found so far. */
  ghost predicate Scanned(code: Bytes, i: nat, mask: set<nat>, pushcache: map<nat, Word>) {
    && IsStart(code, i)
    && (forall p: nat :: p in mask <==> p < i && ValidJump(code, p))
    && (forall p: nat :: p in pushcache <==> p < i && p < |code| && IsStart(code, p) && IsPush(code[p]))
    && (forall p: nat :: p in pushcache ==> pushcache[p] == PushValue(code, p))
  }

  lemma ScanStep(code: Bytes, i: nat, mask: set<nat>, pushcache: map<nat, Word>)
    requires Scanned(code, i, mask, pushcache) && i < |code|
    ensures Scanned(code, NextInstr(code, i),
                    if code[i] == JUMPDEST then mask + {i} else mask,
                    if IsPush(code[i]) then pushcache[i := PushValue(code, i)] else pushcache)
  {
    hide StartsFrom, PushValue;
    StartsChain(code, 0, i);
    forall p | i < p < NextInstr(code, i) ensures !IsStart(code, p) {
      NoStartInside(code, 0, i, p);
    }
  }

  /** Finds the jump destinations and the pushed words; push data is neither. */
  method PreprocessCode(code: Bytes) returns (mask: set<nat>, pushcache: map<nat, Word>)
    ensures forall p: nat :: p in mask <==> ValidJump(code, p)
    ensures forall p: nat :: p in pushcache <==> p < |code| && IsStart(code, p) && IsPush(code[p])
    ensures forall p: nat :: p in pushcache ==> pushcache[p] == PushValue(code, p)
  {
    hide StartsFrom, PushValue;
    mask, pushcache := {}, map[];
    var i: nat := 0;
    ScanStart(code);
    while i < |code|
      invariant Scanned(code, i, mask, pushcache)
      decreases |code| - i
    {
      ScanStep(code, i, mask, pushcache);
      var codebyte := code[i];
      if codebyte == JUMPDEST {
        mask := mask + {i};
      }
      if IsPush(codebyte) {
        pushcache := pushcache[i := PushValue(code, i)];
        i := i + (codebyte - 0x5e);
      } else {
        i := i + 1;
      }
    }
  }

  lemma ScanStart(code: Bytes)
    ensures Scanned(code, 0, {}, map[])
  {
  }

  // ---- the machine state ----

  class Compustate {
    var pc: nat
    var gas: int
    var stack: seq<Word>
    var memory: Bytes
    var lastReturned: Bytes
    /** What memory has cost so far. */
    ghost var paid: int

    ghost function Value(): Machine
      reads this
    {
      Machine(pc, gas, stack, memory, lastReturned)
    }

    /** Memory is made of whole words, and what was paid for it is 3w + w²/512 for w words. */
    ghost predicate MemoryPaid()
      reads this
    {
      |memory| % 32 == 0 && paid == MemFee(|memory| / 32)
    }

    constructor (gas: int)
      ensures Value() == Machine(0, gas, [], [], []) && MemoryPaid()
    {
      pc, this.gas, stack, memory, lastReturned := 0, gas, [], [], [];
      paid := 0;
    }

    method Pop() returns (v: Word)
      requires stack != []
      modifies `stack
      ensures v == Arg(old(stack), 0) && stack == Popped(old(stack), 1)
    {
      v := stack[|stack| - 1];
      stack := stack[..|stack| - 1];
    }

    method Push(v: Word)
      modifies `stack
      ensures stack == old(stack) + [v]
    {
      stack := stack + [v];
    }

    /** Takes n arguments, topmost first. */
    method PopMany(n: nat) returns (args: seq<Word>)
      requires n <= |stack|
      modifies `stack
      ensures stack == Popped(old(stack), n)
      ensures |args| == n && forall k :: 0 <= k < n ==> args[k] == Arg(old(stack), k)
    {
      args := [];
      while |args| < n
        invariant |args| <= n && stack == Popped(old(stack), |args|)
        invariant forall k :: 0 <= k < |args| ==> args[k] == Arg(old(stack), k)
      {
        var v := Pop();
        args := args + [v];
      }
    }

    method MemExtend(start: nat, sz: nat) returns (ok: bool)
      requires MemoryPaid()
      modifies `gas, `memory, `paid
      ensures MemoryPaid()
      ensures ok == M.MemExtend(old(memory), old(gas), start, sz).Extended?
      ensures ok ==> M.MemExtend(old(memory), old(gas), start, sz) == Extended(gas, memory)
    {
      if sz != 0 && start + sz > |memory| {
        var oldsize := |memory| / 32;
        var oldTotalfee := oldsize * GMEMORY + oldsize * oldsize / GQUADRATICMEMDENOM;
        var newsize := Ceil32(start + sz) / 32;
        var newTotalfee := newsize * GMEMORY + newsize * newsize / GQUADRATICMEMDENOM;
        MemFeeGrows(oldsize, newsize);
        var memfee := newTotalfee - oldTotalfee;
        if gas < memfee {
          gas := 0;
          return false;
        }
        MemExtendPays(memory, gas, start, sz);
        gas := gas - memfee;
        memory := memory + Zeros((newsize - oldsize) * 32);
        paid := paid + memfee;
      }
      return true;
    }

    method EatGas(amount: nat) returns (ok: bool)
      modifies `gas
      ensures ok == (old(gas) >= amount)
      ensures gas == if ok then old(gas) - amount else 0
    {
      if gas < amount {
        gas := 0;
        return false;
      }
      gas := gas - amount;
      return true;
    }

    method DataCopy(size: nat) returns (ok: bool)
      modifies `gas
      ensures ok == (old(gas) >= CopyFee(size))
      ensures gas == if ok then old(gas) - CopyFee(size) else 0
    {
      ok := EatGas(CopyFee(size));
    }

    /** The loop that copies into memory, with zero beyond the source. */
    method CopyIn(start: nat, src: Bytes, s2: nat, size: nat)
      requires size > 0 ==> start + size <= |memory|
      modifies `memory
      ensures memory == CopyTo(old(memory), start, src, s2, size)
    {
      var i := 0;
      while i < size
        invariant i <= size && |memory| == |old(memory)|
        invariant memory == CopyTo(old(memory), start, src, s2, i)
      {
        CopyToStep(old(memory), start, src, s2, i);
        memory := memory[start + i := if s2 + i < |src| then src[s2 + i] else 0];
        i := i + 1;
      }
    }

    /** `extract_copy`: reads the call data through its window. */
    method ExtractCopy(d: CallData, memstart: nat, datastart: nat, size: nat)
      requires Covered(d) && (size > 0 ==> memstart + size <= |memory|)
      modifies `memory
      ensures memory == CopyTo(old(memory), memstart, ExtractAll(d), datastart, size)
    {
      var i := 0;
      while i < size
        invariant i <= size && |memory| == |old(memory)|
        invariant memory == CopyTo(old(memory), memstart, ExtractAll(d), datastart, i)
      {
        CopyToStep(old(memory), memstart, ExtractAll(d), datastart, i);
        CallDataIsItsBytes(d, datastart + i);
        memory := memory[memstart + i := CopyByte(d, datastart + i)];
        i := i + 1;
      }
    }

    /** Two popped words replaced by one. */
    method Arithmetic(op: Byte)
      requires op < 0x10 && op != STOP && op != EXP && Info(op).Some? && |stack| >= Info(op).value.ins
      modifies `stack
      ensures stack == Popped(old(stack), Info(op).value.ins) + [M.Arithmetic(op, old(stack))]
    {
      hide Div, SDiv, Mod, SMod, ModBelow, SignExtend, Mask, M.Arithmetic;
      var s0 := Pop();
      var s1 := Pop();
      ArithmeticIs(op, old(stack), s0, s1);
      if op == 0x01 { Push(Mask((s0 as int) + s1)); }
      else if op == 0x02 { Push(Mask((s0 as int) * s1)); }
      else if op == 0x03 { Push(Mask((s0 as int) - s1)); }
      else if op == 0x04 { Push(Div(s0, s1)); }
      else if op == 0x05 { Push(SDiv(s0, s1)); }
      else if op == 0x06 { Push(Mod(s0, s1)); }
      else if op == 0x07 { Push(SMod(s0, s1)); }
      else if op == 0x08 {
        var s2 := Pop();
        Push(ModBelow((s0 as int) + s1, s2));
      }
      else if op == 0x09 {
        var s2 := Pop();
        Push(ModBelow((s0 as int) * s1, s2));
      }
      else { Push(SignExtend(s0, s1)); }
    }

    method Comparison(op: Byte)
      requires 0x10 <= op < 0x20 && Info(op).Some? && |stack| >= Info(op).value.ins
      modifies `stack
      ensures stack == Popped(old(stack), Info(op).value.ins) + [M.Comparison(op, old(stack))]
    {
      hide And, OrWord, XorWord, ByteAt, ToSigned;
      var s0 := Pop();
      var r: Word;
      if op == 0x15 { r := if s0 == 0 then 1 else 0; }
      else if op == 0x19 { r := TT256 - 1 - s0; }
      else {
        var s1 := Pop();
        if op == 0x10 { r := if s0 < s1 then 1 else 0; }
        else if op == 0x11 { r := if s0 > s1 then 1 else 0; }
        else if op == 0x12 { r := if ToSigned(s0) < ToSigned(s1) then 1 else 0; }
        else if op == 0x13 { r := if ToSigned(s0) > ToSigned(s1) then 1 else 0; }
        else if op == 0x14 { r := if s0 == s1 then 1 else 0; }
        else if op == 0x16 { r := And(s0, s1); }
        else if op == 0x17 { r := OrWord(s0, s1); }
        else if op == 0x18 { r := XorWord(s0, s1); }
        else { r := ByteAt(s0, s1); }
      }
      assert stack == Popped(old(stack), Info(op).value.ins) && r == M.Comparison(op, old(stack));
      Push(r);
    }

    /** DUPn. */
    method Dup(op: Byte)
      requires 0x80 <= op < 0x90 && |stack| >= op - 0x7f
      modifies `stack
      ensures stack == old(stack) + [Arg(old(stack), op - 0x80)]
    {
      Push(stack[|stack| + (0x7f - op)]);
    }

    /** SWAPn. */
    method SwapTop(op: Byte)
      requires 0x90 <= op < 0xa0 && |stack| >= op - 0x8e
      modifies `stack
      ensures stack == Swap(old(stack), op - 0x8f)
    {
      var k := |stack| + (0x8e - op);
      var temp := stack[k];
      stack := stack[k := stack[|stack| - 1]];
      stack := stack[|stack| - 1 := temp];
    }

    method Exponent(env: Env) returns (ok: bool)
      requires |stack| >= 2
      modifies `stack, `gas
      ensures forall w: World ::
                ExecExp(env, old(Value()), w) == if ok then Next(Value(), w) else Fail
    {
      hide Power, Mask, EncodedBytes;
      var base := Pop();
      var exponent := Pop();
      var nbytes := EncodedBytes(env, exponent);
      var expfee := nbytes * GEXPONENTBYTE;
      if env.spuriousDragon { expfee := expfee + EXP_SUPPLEMENTAL_GAS * nbytes; }
      if gas < expfee {
        gas := 0;
        return false;
      }
      gas := gas - expfee;
      Push(Mask(Power(base, exponent)));
      return true;
    }
  }

  /** The operations, on the popped words. */
  lemma ArithmeticIs(op: Byte, stack: seq<Word>, s0: Word, s1: Word)
    requires op < 0x10 && op != STOP && op != EXP && Info(op).Some? && |stack| >= Info(op).value.ins
    requires s0 == Arg(stack, 0) && s1 == Arg(stack, 1)
    ensures Info(op).value.ins == if op == 0x08 || op == 0x09 then 3 else 2
    ensures M.Arithmetic(op, stack)
         == if op == 0x01 then Mask((s0 as int) + s1)
            else if op == 0x02 then Mask((s0 as int) * s1)
            else if op == 0x03 then Mask((s0 as int) - s1)
            else if op == 0x04 then Div(s0, s1)
            else if op == 0x05 then SDiv(s0, s1)
            else if op == 0x06 then Mod(s0, s1)
            else if op == 0x07 then SMod(s0, s1)
            else if op == 0x08 then ModBelow((s0 as int) + s1, Arg(stack, 2))
            else if op == 0x09 then ModBelow((s0 as int) * s1, Arg(stack, 2))
            else SignExtend(s0, s1)
  {
    hide Div, SDiv, Mod, SMod, ModBelow, SignExtend, Mask;
  }

  lemma CopyToStep(mem: Bytes, start: nat, src: Bytes, s2: nat, i: nat)
    requires start + i < |mem|
    ensures CopyTo(mem, start, src, s2, i + 1) == CopyTo(mem, start, src, s2, i)[start + i := if s2 + i < |src| then src[s2 + i] else 0]
  {
    hide Slice;
    var b: Byte := if s2 + i < |src| then src[s2 + i] else 0;
    WindowSnoc(src, s2, i);
    var lhs := CopyTo(mem, start, src, s2, i + 1);
    var rhs := CopyTo(mem, start, src, s2, i)[start + i := b];
    assert Window(src, s2, i + 1) == Window(src, s2, i) + [b];
    assert lhs == mem[..start] + (Window(src, s2, i) + [b]) + mem[start + i + 1..];
    forall k | 0 <= k < |mem| ensures lhs[k] == rhs[k] {
    }
  }

  lemma WindowSnoc(src: Bytes, s2: nat, i: nat)
    ensures Window(src, s2, i + 1) == Window(src, s2, i) + [if s2 + i < |src| then src[s2 + i] else 0]
  {
    hide Slice;
  }
}
