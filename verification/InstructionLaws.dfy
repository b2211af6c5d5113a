/** What the instructions mean: each law speaks about one step, or about several in different frames, in terms of integers,
    bits and bytes. */
module InstructionLaws {
  import opened ByteStrings
  import opened BigEndian
  import opened IntMath
  import opened Words
  import opened Opcodes
  import opened World
  import opened Machine
  import opened Evm

  /** The k-th word from the top. */
  function Top(s: seq<Word>, k: nat): Word
    requires k < |s|
  {
    s[|s| - 1 - k]
  }

  // ---- arithmetic ----

  predicate Congruent(x: int, y: int, n: nat)
    requires n > 0
  {
    (x - y) % n == 0
  }

  predicate Bit(x: nat, i: nat) { (x / Pow2(i)) % 2 == 1 }

  /** Byte i of a word, counted from the most significant one. */
  function ByteOf(v: nat, i: nat): nat
    requires i < 32
  {
    (v / Pow256(31 - i)) % 256
  }

  /** The quotient of two's complement numbers, rounded toward zero; only -2^255 / -1 does not fit. */
  predicate SignedQuotientOf(a: Word, b: Word, r: Word) {
    var x, y, q := ToSigned(a), ToSigned(b), ToSigned(r);
    if b == 0 then r == 0
    else if x == -TT255 && y == -1 then q == -TT255
    else var rest := x - q * y; Abs(rest) < Abs(y) && (rest < 0 ==> x < 0) && (rest > 0 ==> x > 0)
  }

  predicate SignedRemainderOf(a: Word, b: Word, r: Word) {
    var x, y, z := ToSigned(a), ToSigned(b), ToSigned(r);
    if b == 0 then r == 0
    else Congruent(x, z, Abs(y)) && Abs(z) < Abs(y) && (z < 0 ==> x < 0) && (z > 0 ==> x > 0)
  }

  /** The lowest k + 1 bytes, read as two's complement. */
  predicate ExtensionOf(k: Word, v: Word, r: Word) {
    if k > 31 then r == v
    else
      var span := Pow256(k + 1);
      var low := v % span;
      ToSigned(r) == if 2 * low < span then low else low - span
  }

  /** What an arithmetic instruction makes of its arguments, the topmost first. */
  predicate ArithmeticMeans(op: Byte, a: Word, b: Word, c: Word, r: Word) {
    match op
    case 0x01 => Congruent(r, a as int + b, TT256)
    case 0x02 => Congruent(r, a as int * b, TT256)
    case 0x03 => Congruent(r, a as int - b, TT256)
    case 0x04 => if b == 0 then r == 0 else 0 <= a as int - r * b < b
    case 0x05 => SignedQuotientOf(a, b, r)
    case 0x06 => if b == 0 then r == 0 else r < b && Congruent(r, a, b)
    case 0x07 => SignedRemainderOf(a, b, r)
    case 0x08 => if c == 0 then r == 0 else r < c && Congruent(r, a as int + b, c)
    case 0x09 => if c == 0 then r == 0 else r < c && Congruent(r, a as int * b, c)
    case 0x0b => ExtensionOf(a, b, r)
    case _ => true
  }

  lemma RemainderCongruent(x: int, n: nat)
    requires n > 0
    ensures Congruent(x % n, x, n) && Congruent(x, x % n, n)
  {
    var q := x / n;
    assert x == n * q + x % n;
    DivModUnique(x % n - x, n, -q, 0);
    DivModUnique(x - x % n, n, q, 0);
  }

  lemma QuotientBounds(a: nat, b: nat)
    requires b > 0
    ensures 0 <= a - (a / b) * b < b
  {
    assert a == b * (a / b) + a % b;
  }

  lemma SignedDivisionMeans(a: Word, b: Word)
    ensures SignedQuotientOf(a, b, SDiv(a, b)) && SignedRemainderOf(a, b, SMod(a, b))
  {
    if b != 0 {
      var x, y, q, z := ToSigned(a), ToSigned(b), ToSigned(SDiv(a, b)), ToSigned(SMod(a, b));
      SignedDivision(a, b);
      if a == TT255 && b == TT256 - 1 {
        OverflowingQuotient(a, b);
      } else {
        hide SDiv, SMod;
        assert x - z == q * y;
        MultipleOfAbs(q, y);
      }
    }
  }

  lemma OverflowingQuotient(a: Word, b: Word)
    requires a == TT255 && b == TT256 - 1
    ensures SDiv(a, b) == TT255 && SMod(a, b) == 0
  {
  }

  lemma MultipleOfAbs(q: int, y: int)
    requires y != 0
    ensures (q * y) % Abs(y) == 0
  {
    var k := if y < 0 then -q else q;
    OppositeProduct(q, y);
    DivModUnique(q * y, Abs(y), k, 0);
  }

  lemma SignExtendMeans(k: Word, v: Word)
    ensures ExtensionOf(k, v, SignExtend(k, v))
  {
    if k <= 31 {
      SignExtendMeaning(k, v);
      Pow2Is256(k + 1);
      assert Pow2(8 * k + 8) == 2 * Pow2(8 * k + 7);
    }
  }

  lemma ModularIs(op: Byte, s: seq<Word>)
    requires (op == 0x08 || op == 0x09) && |s| >= 3
    ensures ArithmeticMeans(op, Top(s, 0), Top(s, 1), Top(s, 2), Arithmetic(op, s))
  {
    var a, b, c := Top(s, 0), Top(s, 1), Top(s, 2);
    if c > 0 {
      RemainderCongruent(a as int + b, c);
      RemainderCongruent(a as int * b, c);
    }
  }

  lemma MaskCongruent(x: int)
    ensures Congruent(Mask(x), x, TT256)
  {
    RemainderCongruent(x, TT256);
  }

  lemma SumIs(op: Byte, s: seq<Word>)
    requires 0x01 <= op <= 0x03 && |s| >= 2
    ensures ArithmeticMeans(op, Top(s, 0), Top(s, 1), 0, Arithmetic(op, s))
  {
    hide Mask, Congruent;
    var a, b := Top(s, 0), Top(s, 1);
    MaskCongruent(a as int + b);
    MaskCongruent(a as int * b);
    MaskCongruent(a as int - b);
  }

  lemma QuotientIs(op: Byte, s: seq<Word>)
    requires (op == 0x04 || op == 0x06) && |s| >= 2
    ensures ArithmeticMeans(op, Top(s, 0), Top(s, 1), 0, Arithmetic(op, s))
  {
    var a, b := Top(s, 0), Top(s, 1);
    hide Congruent;
    if b > 0 {
      QuotientBounds(a, b);
      RemainderCongruent(a, b);
    }
  }

  lemma SignedIs(op: Byte, s: seq<Word>)
    requires (op == 0x05 || op == 0x07) && |s| >= 2
    ensures ArithmeticMeans(op, Top(s, 0), Top(s, 1), 0, Arithmetic(op, s))
  {
    SignedDivisionMeans(Top(s, 0), Top(s, 1));
    hide SignedQuotientOf, SignedRemainderOf, SDiv, SMod;
  }

  lemma ExtensionIs(s: seq<Word>)
    requires |s| >= 2
    ensures ArithmeticMeans(0x0b, Top(s, 0), Top(s, 1), 0, Arithmetic(0x0b, s))
  {
    SignExtendMeans(Top(s, 0), Top(s, 1));
    hide ExtensionOf, SignExtend;
  }

  /** The step fails for want of gas, arguments or room on the stack, and otherwise exchanges n words for one. */
  predicate Exchanges(m: Machine, w: World, e: Effect, n: nat, fee: int) {
    if m.gas < fee || |m.stack| < n || |m.stack| - n + 1 > 1024 then e.Fail?
    else
      && e.Next? && e.world == w && |e.m.stack| > 0 && e.m.stack == m.stack[..|m.stack| - n] + [Top(e.m.stack, 0)]
      && e.m.pc == m.pc + 1 && e.m.mem == m.mem && e.m.last == m.last && e.m.gas == m.gas - fee
  }

  function ArithmeticFee(op: Byte): nat {
    if op == 0x01 || op == 0x03 then 3 else if op == 0x08 || op == 0x09 then 8 else 5
  }

  /** ADD, MUL and SUB are right modulo 2^256. */
  lemma SumLaw(env: Env, msg: Message, code: Bytes, m: Machine, w: World)
    requires m.pc < |code| && code[m.pc] in {0x01, 0x02, 0x03}
    ensures var op, e := code[m.pc], Step(env, msg, code, m, w);
            && Exchanges(m, w, e, 2, ArithmeticFee(op))
            && (e.Next? ==> ArithmeticMeans(op, Top(m.stack, 0), Top(m.stack, 1), 0, Top(e.m.stack, 0)))
  {
    hide ArithmeticMeans, Arithmetic;
    if |m.stack| >= 2 { SumIs(code[m.pc], m.stack); }
  }

  /** DIV and MOD divide with remainder, and by 0 to 0. */
  lemma QuotientLaw(env: Env, msg: Message, code: Bytes, m: Machine, w: World)
    requires m.pc < |code| && code[m.pc] in {0x04, 0x06}
    ensures var op, e := code[m.pc], Step(env, msg, code, m, w);
            && Exchanges(m, w, e, 2, ArithmeticFee(op))
            && (e.Next? ==> ArithmeticMeans(op, Top(m.stack, 0), Top(m.stack, 1), 0, Top(e.m.stack, 0)))
  {
    hide ArithmeticMeans, Arithmetic;
    if |m.stack| >= 2 { QuotientIs(code[m.pc], m.stack); }
  }

  /** SDIV and SMOD divide two's complement numbers toward zero. */
  lemma SignedLaw(env: Env, msg: Message, code: Bytes, m: Machine, w: World)
    requires m.pc < |code| && code[m.pc] in {0x05, 0x07}
    ensures var op, e := code[m.pc], Step(env, msg, code, m, w);
            && Exchanges(m, w, e, 2, ArithmeticFee(op))
            && (e.Next? ==> ArithmeticMeans(op, Top(m.stack, 0), Top(m.stack, 1), 0, Top(e.m.stack, 0)))
  {
    hide ArithmeticMeans, Arithmetic;
    if |m.stack| >= 2 { SignedIs(code[m.pc], m.stack); }
  }

  /** ADDMOD and MULMOD reduce the full sum and product. */
  lemma ModularLaw(env: Env, msg: Message, code: Bytes, m: Machine, w: World)
    requires m.pc < |code| && code[m.pc] in {0x08, 0x09}
    ensures var op, e := code[m.pc], Step(env, msg, code, m, w);
            && Exchanges(m, w, e, 3, ArithmeticFee(op))
            && (e.Next? ==> ArithmeticMeans(op, Top(m.stack, 0), Top(m.stack, 1), Top(m.stack, 2), Top(e.m.stack, 0)))
  {
    hide ArithmeticMeans, Arithmetic;
    if |m.stack| >= 3 { ModularIs(code[m.pc], m.stack); }
  }

  /** SIGNEXTEND reads the lowest bytes as two's complement. */
  lemma ExtensionLaw(env: Env, msg: Message, code: Bytes, m: Machine, w: World)
    requires m.pc < |code| && code[m.pc] in {0x0b}
    ensures var op, e := code[m.pc], Step(env, msg, code, m, w);
            && Exchanges(m, w, e, 2, ArithmeticFee(op))
            && (e.Next? ==> ArithmeticMeans(op, Top(m.stack, 0), Top(m.stack, 1), 0, Top(e.m.stack, 0)))
  {
    hide ArithmeticMeans, Arithmetic;
    if |m.stack| >= 2 { ExtensionIs(m.stack); }
  }

  /** The bytes an exponent is charged for. */
  predicate ChargedBytes(env: Env, exponent: Word, n: nat) {
    if exponent == 0 then n == env.zeroBytes else n > 0 && Pow256(n - 1) <= exponent < Pow256(n)
  }

  lemma {:induction false} ByteLengthExact(n: nat)
    requires n > 0
    ensures ByteLength(n) > 0 && Pow256(ByteLength(n) - 1) <= n < Pow256(ByteLength(n))
  {
    if n >= 256 { ByteLengthExact(n / 256); }
  }

  /** EXP of 0 is 1, and each exponent more multiplies by the base once more; it costs 10, and for each byte of the exponent 10,
      or 50 from Spurious Dragon on. */
  lemma ExpLaw(env: Env, msg: Message, code: Bytes, m: Machine, w: World, n: nat)
    requires m.pc < |code| && code[m.pc] == EXP && |m.stack| >= 2 && ChargedBytes(env, Top(m.stack, 1), n)
    ensures var e := Step(env, msg, code, m, w);
            && Exchanges(m, w, e, 2, 10 + n * if env.spuriousDragon then 50 else 10)
            && (e.Next? && Top(m.stack, 1) == 0 ==> Top(e.m.stack, 0) == 1)
            && (e.Next? && Top(m.stack, 1) > 0 ==>
                  var less := m.(stack := m.stack[|m.stack| - 2 := Top(m.stack, 1) - 1]);
                  var f := Step(env, msg, code, less, w);
                  f.Next? ==> |f.m.stack| > 0 && Congruent(Top(e.m.stack, 0), Top(m.stack, 0) as int * Top(f.m.stack, 0), TT256))
  {
    hide Step, Power, Congruent;
    var a, k := Top(m.stack, 0), Top(m.stack, 1);
    ExpForm(env, msg, code, m, w, n);
    if k > 0 {
      var less := m.(stack := m.stack[|m.stack| - 2 := k - 1]);
      assert Top(less.stack, 0) == a && Top(less.stack, 1) == k - 1;
      ProductModulo(a, Power(a, k - 1), TT256);
      ExpPushes(env, msg, code, less, w);
    }
  }

  lemma ExpForm(env: Env, msg: Message, code: Bytes, m: Machine, w: World, n: nat)
    requires m.pc < |code| && code[m.pc] == EXP && |m.stack| >= 2 && ChargedBytes(env, Top(m.stack, 1), n)
    ensures var e := Step(env, msg, code, m, w);
            && Exchanges(m, w, e, 2, 10 + n * if env.spuriousDragon then 50 else 10)
            && (e.Next? ==> Top(e.m.stack, 0) == Mask(Power(Top(m.stack, 0), Top(m.stack, 1))))
            && Power(Top(m.stack, 0), 0) == 1
    ensures var a, k := Top(m.stack, 0), Top(m.stack, 1); k > 0 ==> Power(a, k) == a * Power(a, k - 1)
  {
    var k := Top(m.stack, 1);
    assert EncodedBytes(env, k) == n by {
      if k > 0 {
        ByteLengthExact(k);
        SameByteLength(k, n, ByteLength(k));
      }
    }
    assert Power(Top(m.stack, 0), 0) == 1;
    assert k > 0 ==> Power(Top(m.stack, 0), k) == Top(m.stack, 0) * Power(Top(m.stack, 0), k - 1);
    hide Power, EncodedBytes;
  }

  lemma ExpPushes(env: Env, msg: Message, code: Bytes, m: Machine, w: World)
    requires m.pc < |code| && code[m.pc] == EXP && |m.stack| >= 2
    ensures var e := Step(env, msg, code, m, w);
            e.Next? ==> |e.m.stack| > 0 && Top(e.m.stack, 0) == Mask(Power(Top(m.stack, 0), Top(m.stack, 1)))
  {
    hide Power, EncodedBytes;
  }

  lemma SameByteLength(k: nat, n: nat, l: nat)
    requires n > 0 && l > 0 && Pow256(n - 1) <= k < Pow256(n) && Pow256(l - 1) <= k < Pow256(l)
    ensures n == l
  {
    if n < l { Pow256Increasing(n, l - 1); }
    if l < n { Pow256Increasing(l, n - 1); }
  }

  lemma ProductModulo(a: int, p: int, n: nat)
    requires n > 0
    ensures Congruent((a * p) % n, a * (p % n), n)
  {
    var q, r, x := p / n, p % n, (a * p) / n;
    assert a * p == n * x + (a * p) % n;
    assert a * p == a * (n * q + r) == n * (a * q) + a * r;
    assert (a * p) % n - a * r == n * (a * q - x);
    DivModUnique((a * p) % n - a * r, n, a * q - x, 0);
  }

  // ---- comparisons and bits ----

  ghost predicate ComparisonMeans(op: Byte, a: Word, b: Word, r: Word) {
    match op
    case 0x10 => r == if a < b then 1 else 0
    case 0x11 => r == if b < a then 1 else 0
    case 0x12 => r == if ToSigned(a) < ToSigned(b) then 1 else 0
    case 0x13 => r == if ToSigned(b) < ToSigned(a) then 1 else 0
    case 0x14 => r == if a == b then 1 else 0
    case 0x15 => r == if a == 0 then 1 else 0
    case 0x16 => forall i: nat :: Bit(r, i) <==> Bit(a, i) && Bit(b, i)
    case 0x17 => forall i: nat :: Bit(r, i) <==> Bit(a, i) || Bit(b, i)
    case 0x18 => forall i: nat :: Bit(r, i) <==> (Bit(a, i) <==> !Bit(b, i))
    case 0x19 => a + r == TT256 - 1
    case _ => r == if a < 32 then ByteOf(b, a) else 0
  }

  lemma NextBit(x: nat, i: nat)
    requires i > 0
    ensures Bit(x, i) <==> Bit(x / 2, i - 1)
  {
    var p := Pow2(i - 1);
    var y := x / 2;
    var q, r := y / p, y % p;
    assert y == p * q + r && x == 2 * y + x % 2 && x == (2 * p) * q + (2 * r + x % 2);
    DivModUnique(x, 2 * p, q, 2 * r + x % 2);
  }

  /** The last bits, and the bits above them. */
  lemma Halves(a: nat, b: nat)
    ensures And(a, b) / 2 == And(a / 2, b / 2) && Or(a, b) / 2 == Or(a / 2, b / 2) && Xor(a, b) / 2 == Xor(a / 2, b / 2)
    ensures And(a, b) % 2 == 1 <==> a % 2 == 1 && b % 2 == 1
    ensures Or(a, b) % 2 == 1 <==> a % 2 == 1 || b % 2 == 1
    ensures Xor(a, b) % 2 == 1 <==> a % 2 != b % 2
  {
  }

  lemma {:induction false} BitsOf(a: nat, b: nat, i: nat)
    ensures Bit(And(a, b), i) <==> Bit(a, i) && Bit(b, i)
    ensures Bit(Or(a, b), i) <==> Bit(a, i) || Bit(b, i)
    ensures Bit(Xor(a, b), i) <==> (Bit(a, i) <==> !Bit(b, i))
    decreases i
  {
    hide And, Or, Xor, Bit;
    Halves(a, b);
    if i > 0 {
      BitsOf(a / 2, b / 2, i - 1);
      NextBit(a, i);
      NextBit(b, i);
      NextBit(And(a, b), i);
      NextBit(Or(a, b), i);
      NextBit(Xor(a, b), i);
    } else {
      LastBit(a);
      LastBit(b);
      LastBit(And(a, b));
      LastBit(Or(a, b));
      LastBit(Xor(a, b));
    }
  }

  lemma LastBit(x: nat)
    ensures Bit(x, 0) <==> x % 2 == 1
  {
    assert x / 1 == x;
  }

  lemma ComparisonIs(op: Byte, s: seq<Word>)
    requires 0x10 <= op <= 0x1a && |s| >= if op == 0x15 || op == 0x19 then 1 else 2
    ensures ComparisonMeans(op, Top(s, 0), if |s| > 1 then Top(s, 1) else 0, Comparison(op, s))
  {
    hide Bit;
    if |s| > 1 {
      forall i: nat
        ensures Bit(And(Top(s, 0), Top(s, 1)), i) <==> Bit(Top(s, 0), i) && Bit(Top(s, 1), i)
        ensures Bit(Or(Top(s, 0), Top(s, 1)), i) <==> Bit(Top(s, 0), i) || Bit(Top(s, 1), i)
        ensures Bit(Xor(Top(s, 0), Top(s, 1)), i) <==> (Bit(Top(s, 0), i) <==> !Bit(Top(s, 1), i)) {
        BitsOf(Top(s, 0), Top(s, 1), i);
      }
    }
    hide And, Or, Xor, ToSigned;
  }

  /** Comparisons, signed and unsigned, the bitwise operations and BYTE. */
  lemma ComparisonLaw(env: Env, msg: Message, code: Bytes, m: Machine, w: World)
    requires m.pc < |code| && 0x10 <= code[m.pc] <= 0x1a
    ensures var op, e := code[m.pc], Step(env, msg, code, m, w);
            && Exchanges(m, w, e, if op == 0x15 || op == 0x19 then 1 else 2, 3)
            && (e.Next? ==>
                  ComparisonMeans(op, Top(m.stack, 0), if |m.stack| > 1 then Top(m.stack, 1) else 0, Top(e.m.stack, 0)))
  {
    hide ComparisonMeans, Comparison;
    var op := code[m.pc];
    if |m.stack| >= if op == 0x15 || op == 0x19 then 1 else 2 { ComparisonIs(op, m.stack); }
  }

  // ---- the stack ----

  /** PUSH puts the following bytes of the code, or zero beyond its end, on the stack as a big-endian number and goes on behind
      them; DUP copies the n-th word; SWAP exchanges the top with the n-th word below it; POP drops the top. */
  lemma StackLaw(env: Env, msg: Message, code: Bytes, m: Machine, w: World)
    requires m.pc < |code| && (code[m.pc] == POP || 0x60 <= code[m.pc] < 0xa0)
    ensures var op, e, s := code[m.pc], Step(env, msg, code, m, w), m.stack;
            var n: int := if op < 0x80 then (op as int) - 0x5f else if op < 0x90 then (op as int) - 0x7f else (op as int) - 0x8f;
            var needs := if op == POP then 1 else if op < 0x80 then 0 else if op < 0x90 then n else n + 1;
            var more := if op == POP then -1 else if op < 0x90 then 1 else 0;
            if m.gas < (if op == POP then 2 else 3) || |s| < needs || |s| + more > 1024 then e.Fail?
            else
              && e.Next? && e.world == w && e.m.mem == m.mem && e.m.last == m.last
              && e.m.gas == m.gas - (if op == POP then 2 else 3)
              && e.m.pc == m.pc + 1 + (if 0x60 <= op < 0x80 then n else 0)
              && |e.m.stack| == |s| + more
              && if op == POP then e.m.stack == s[..|s| - 1]
                 else if op < 0x80 then
                   && e.m.stack[..|s|] == s
                   && forall i :: 0 <= i < 32 ==>
                        ByteOf(Top(e.m.stack, 0), i)
                        == if i < 32 - n || m.pc + 1 + (i - (32 - n)) >= |code| then 0 else code[m.pc + 1 + (i - (32 - n))]
                 else if op < 0x90 then e.m.stack == s + [Top(s, n - 1)]
                 else forall k :: 0 <= k < |s| ==> Top(e.m.stack, k) == Top(s, if k == 0 then n else if k == n then 0 else k)
  {
    var op := code[m.pc];
    if 0x60 <= op < 0x80 {
      PushedBytes(code, m.pc);
    }
    hide PushValue, ByteOf;
  }

  lemma PushedBytes(code: Bytes, pc: nat)
    requires pc < |code| && IsPush(code[pc])
    ensures var n := code[pc] - 0x5f;
            forall i :: 0 <= i < 32 ==>
              ByteOf(PushValue(code, pc), i)
              == if i < 32 - n || pc + 1 + (i - (32 - n)) >= |code| then 0 else code[pc + 1 + (i - (32 - n))]
  {
    var n := code[pc] - 0x5f;
    forall i | 0 <= i < 32
      ensures ByteOf(PushValue(code, pc), i)
           == if i < 32 - n || pc + 1 + (i - (32 - n)) >= |code| then 0 else code[pc + 1 + (i - (32 - n))] {
      BytesOfWord(Window(code, pc + 1, n), i);
    }
  }

  /** The bytes of a word read from n bytes: zeros, then those. */
  lemma BytesOfWord(b: Bytes, i: nat)
    requires |b| <= 32 && i < 32
    ensures ByteOf(WordOf(b), i) == if i < 32 - |b| then 0 else b[i - (32 - |b|)]
  {
    LeadingZeros(32 - |b|, b);
    DigitOf(Zeros(32 - |b|) + b, i);
  }
}
