/** Who pays what in a transaction. */
module TransactionLaws {
  import opened ByteStrings
  import opened BigEndian
  import opened Words
  import opened Opcodes
  import opened World
  import opened Evm
  import opened EvmSafety
  import opened Transactions
  import opened MessageLaws

  // ---- gas before the message ----

  /** 21000, and 4 for each zero byte and 68 for each other byte of the data. */
  function DataGas(data: Bytes): nat {
    21000 + 4 * multiset(data)[0] + 68 * (|data| - multiset(data)[0])
  }

  lemma {:induction false} IntrinsicGasLaw(data: Bytes)
    ensures IntrinsicGas(data) == DataGas(data)
  {
    if data != [] {
      assert data == [data[0]] + data[1..];
      IntrinsicGasLaw(data[1..]);
    }
  }

  /** Creations cost 32000 more from Homestead on. */
  function GasBefore(env: Env, tx: Tx): nat {
    DataGas(tx.data) + if tx.to == None && env.homestead then 32000 else 0
  }

  // ---- the run ----

  /** The sender's nonce is raised, unless it is the null sender, and all gas is bought. */
  ghost predicate Bought(tx: Tx, w: World, w': World) {
    && (forall a: Address ::
          && GetBalance(w', a) == GetBalance(w, a) - (if a == tx.sender then tx.startgas * tx.gasprice else 0)
          && GetNonce(w', a) == GetNonce(w, a) + (if a == tx.sender && a != TT160 - 1 then 1 else 0)
          && GetCode(w', a) == GetCode(w, a) && Acct(w', a).storage == Acct(w, a).storage)
    && w'.logs == [] && w'.suicides == [] && w'.refunds == 0
  }

  lemma BuyingMeans(tx: Tx, w: World)
    ensures var v := w.(logs := [], suicides := [], refunds := 0); Bought(tx, w, BuyGas(tx, v))
  {
  }

  /** What a transaction does between buying the gas and settling it: the message it sends, the gas it left, and what became of
      the two. */
  datatype Sent = Sent(success: bool, gas: int, output: Bytes, world: World)

  function MessageOf(env: Env, tx: Tx): Message
    requires GasBefore(env, tx) <= tx.startgas
  {
    Message(tx.sender, if tx.to.Some? then tx.to.value else 0, tx.value, tx.startgas - GasBefore(env, tx), CallData(tx.data, 0, |tx.data|), 0, tx.to,
            true, false)
  }

  function SentOf(env: Env, tx: Tx, w: World): (s: Sent)
    requires SoundEnv(env) && GasBefore(env, tx) <= tx.startgas
    ensures tx.to == None ==> |s.output| == 20 && BigEndianToInt(s.output) == CreateContract(env, MessageOf(env, tx), w).addr
  {
    if tx.to.Some? then
      var r := ApplyMsg(env, MessageOf(env, tx), GetCode(w, tx.to.value), w);
      Sent(r.success, r.gas, r.data, r.world)
    else
      var r := CreateContract(env, MessageOf(env, tx), w);
      AddressBytesMean(r.addr);
      Sent(r.success, r.gas, AddressBytes(r.addr), r.world)
  }

  lemma AddressBytesMean(a: Address)
    ensures |AddressBytes(a)| == 20 && BigEndianToInt(AddressBytes(a)) == a
  {
    assert Pow256(20) == TT160 by {
      Pow256Sum(10, 10);
      Pow256Sum(5, 5);
    }
    ZPadRoundTrip(a, 20);
  }

  lemma RunIsSent(env: Env, tx: Tx, w: World)
    requires SoundEnv(env) && UpfrontGas(env, tx) <= tx.startgas
    ensures GasBefore(env, tx) == UpfrontGas(env, tx)
    ensures var r, s := RunTx(env, tx, w), SentOf(env, tx, w);
            r.success == s.success && r.gas == s.gas && r.world == s.world && (r.success ==> r.data == s.output)
  {
    hide ApplyMsg, CreateContract, GetCode, IntrinsicGas, DataGas;
    IntrinsicGasLaw(tx.data);
  }

  /** The gas given back: on success what cleared storage and self-destructs earned, up to half of what was used. */
  function GivenBack(ran: World, success: bool, used: int): int {
    var earned := ran.refunds + 24000 * |set a | a in ran.suicides|;
    if !success || earned <= 0 then 0 else if earned < used / 2 then earned else used / 2
  }

  /** An applied transaction sends its message in the world after buying the gas, and then: gas left over and given back returns
      to the sender at the price paid, the rest goes to the miner; self-destructed accounts are wiped; nothing else changes. */
  lemma TransactionLaw(env: Env, tx: Tx, world: World, b: Block) returns (w: World)
    requires SoundEnv(env) && ApplyTransaction(env, tx, world, b).Applied?
    ensures GasBefore(env, tx) <= tx.startgas && Bought(tx, world, w)
    ensures var o, s := ApplyTransaction(env, tx, world, b), SentOf(env, tx, w);
            && o.success == s.success && o.output == (if s.success then s.output else []) && o.ran == s.world && s.gas >= 0
            && o.gasRemained == s.gas + GivenBack(s.world, s.success, tx.startgas - s.gas) && o.gasUsed == tx.startgas - o.gasRemained
            && forall a: Address ::
                 if a in s.world.suicides then IsBlank(Acct(o.world, a)) && Acct(o.world, a).storage == map[]
                 else
                   && GetBalance(o.world, a)
                      == GetBalance(s.world, a) + (if a == tx.sender then tx.gasprice * o.gasRemained else 0)
                         + (if a == env.coinbase then tx.gasprice * o.gasUsed else 0)
                   && GetNonce(o.world, a) == GetNonce(s.world, a) && GetCode(o.world, a) == GetCode(s.world, a)
                   && Acct(o.world, a).storage == Acct(s.world, a).storage
  {
    hide RunTx, BuyGas, ValidateTransaction, SentOf, Bought, UpfrontGas, GasBefore, IsBlank, GetBalance, GetNonce, GetCode, Acct,
      ClearSuicides, Settle;
    var v := world.(logs := [], suicides := [], refunds := 0);
    w := BuyGas(tx, v);
    BuyingMeans(tx, world);
    RunIsSent(env, tx, w);
    var o := ApplyTransaction(env, tx, world, b);
    SettledMeans(env, tx, o.ran, o.gasRemained, o.gasUsed, o.world);
  }

  /** The accounts after the settlement and the removals. */
  lemma SettledMeans(env: Env, tx: Tx, ran: World, gasRemained: int, gasUsed: int, after: World)
    requires after.accounts == ClearSuicides(Settle(env, tx, ran, gasRemained, gasUsed), ran.suicides).accounts
    ensures forall a: Address ::
              if a in ran.suicides then IsBlank(Acct(after, a)) && Acct(after, a).storage == map[]
              else
                && GetBalance(after, a)
                   == GetBalance(ran, a) + (if a == tx.sender then tx.gasprice * gasRemained else 0)
                      + (if a == env.coinbase then tx.gasprice * gasUsed else 0)
                && GetNonce(after, a) == GetNonce(ran, a) && GetCode(after, a) == GetCode(ran, a)
                && Acct(after, a).storage == Acct(ran, a).storage
  {
    var settled := Settle(env, tx, ran, gasRemained, gasUsed);
    forall a: Address
      ensures if a in ran.suicides then IsBlank(Acct(after, a)) && Acct(after, a).storage == map[]
              else Acct(after, a) == Acct(settled, a) {
      ClearedMeans(settled, ran.suicides, a);
    }
    hide ClearSuicides, IsBlank;
  }

  lemma {:induction false} ClearedMeans(w: World, suicides: seq<Address>, a: Address)
    ensures var c := ClearSuicides(w, suicides);
            if a in suicides then IsBlank(Acct(c, a)) && Acct(c, a).storage == map[] else Acct(c, a) == Acct(w, a)
  {
    if suicides != [] {
      ClearedMeans(w, suicides[..|suicides| - 1], a);
    }
  }

  // ---- what follows for the accounts ----

  /** Against the world before, with the price of the gas used moved from the sender to the miner. */
  ghost predicate Charged(env: Env, tx: Tx, world: World, after: World, gasUsed: int, value: int, to: Address) {
    forall a: Address ::
      GetBalance(after, a)
      == GetBalance(world, a) - (if a == tx.sender then value + tx.gasprice * gasUsed else 0) + (if a == to then value else 0)
         + (if a == env.coinbase then tx.gasprice * gasUsed else 0)
  }

  /** A transfer to an account without code costs the gas for its data, and moves the value and the price of that gas. */
  lemma TransferLaw(env: Env, tx: Tx, world: World, b: Block)
    requires SoundEnv(env) && ApplyTransaction(env, tx, world, b).Applied?
    requires tx.to.Some? && GetCode(world, tx.to.value) == [] && !env.isSpecial(tx.to.value)
    ensures var o := ApplyTransaction(env, tx, world, b);
            && o.success && o.gasUsed == DataGas(tx.data) && Charged(env, tx, world, o.world, o.gasUsed, tx.value, tx.to.value)
  {
    hide ApplyTransaction, ApplyMsg, DataGas;
    var w := TransactionLaw(env, tx, world, b);
    Covers(env, tx, world, b, w);
    PlainMessage(env, MessageOf(env, tx), w);
    var o := ApplyTransaction(env, tx, world, b);
    NothingEarned(SentOf(env, tx, w).world, tx.startgas - SentOf(env, tx, w).gas);
    Split(tx.gasprice, tx.startgas, o.gasRemained, o.gasUsed);
  }

  /** A message call that fails costs its sender the gas it used and nothing else. */
  lemma FailedTransactionLaw(env: Env, tx: Tx, world: World, b: Block)
    requires SoundEnv(env) && ApplyTransaction(env, tx, world, b).Applied? && tx.to.Some?
    ensures var o := ApplyTransaction(env, tx, world, b);
            !o.success ==> Charged(env, tx, world, o.world, o.gasUsed, 0, tx.to.value)
  {
    hide ApplyTransaction, ApplyMsg, DataGas;
    var w := TransactionLaw(env, tx, world, b);
    var w1 := MessageLaw(env, MessageOf(env, tx), GetCode(w, tx.to.value), w);
    var o := ApplyTransaction(env, tx, world, b);
    Split(tx.gasprice, tx.startgas, o.gasRemained, o.gasUsed);
  }

  lemma NothingEarned(w: World, used: int)
    requires w.suicides == [] && w.refunds == 0
    ensures GivenBack(w, true, used) == 0
  {
    assert (set a | a in w.suicides) == {};
  }

  lemma Split(price: nat, all: nat, remained: int, used: int)
    requires used == all - remained
    ensures price * remained + price * used == all * price
  {
    assert price * (remained + used) == price * all;
  }

  lemma Covers(env: Env, tx: Tx, world: World, b: Block, w: World)
    requires SoundEnv(env) && ApplyTransaction(env, tx, world, b).Applied? && Bought(tx, world, w)
    ensures GetBalance(w, tx.sender) >= tx.value
  {
    assert GetBalance(world.(logs := [], suicides := [], refunds := 0), tx.sender) == GetBalance(world, tx.sender);
    assert tx.startgas * tx.gasprice == tx.gasprice * tx.startgas;
    hide FinishTx, RunTx, BuyGas, IntrinsicGas, UpfrontGas, ForkValid;
  }

  // ---- which transactions pass ----

  /** The signature's value s, the null sender and the network identifier are as the forks demand. */
  predicate ForkAllows(env: Env, tx: Tx) {
    && (env.constantinople ==> tx.s <= SECPK1N / 2)
    && (!env.constantinople ==> tx.sender != TT160 - 1 && (env.homestead ==> 0 < tx.s <= SECPK1N / 2))
    && (tx.networkId.Some? ==> env.spuriousDragon && tx.networkId.value == env.networkId)
  }

  function ExpectedNonce(tx: Tx, w: World): int { if tx.sender == TT160 - 1 then 0 else GetNonce(w, tx.sender) }

  /** A transaction passes if and only if all conditions hold, and an error says truly what is wrong. */
  lemma ValidationLaw(env: Env, tx: Tx, w: World, b: Block)
    ensures match ValidateTransaction(env, tx, w, b)
            case None =>
              && tx.signed && ForkAllows(env, tx) && tx.nonce == ExpectedNonce(tx, w) && tx.startgas >= DataGas(tx.data)
              && GetBalance(w, tx.sender) >= tx.value + tx.gasprice * tx.startgas && b.gasUsed + tx.startgas <= b.gasLimit
              && (tx.sender == TT160 - 1 ==> tx.value == 0 && tx.gasprice == 0)
            case Some(UnsignedTransaction) => !tx.signed
            case Some(InvalidNonce) => tx.nonce != ExpectedNonce(tx, w)
            case Some(InsufficientStartGas) => tx.startgas < DataGas(tx.data)
            case Some(InsufficientBalance) => GetBalance(w, tx.sender) < tx.value + tx.gasprice * tx.startgas
            case Some(BlockGasLimitReached) => b.gasUsed + tx.startgas > b.gasLimit
            case Some(InvalidTransaction) =>
              !ForkAllows(env, tx) || (tx.sender == TT160 - 1 && (tx.value != 0 || tx.gasprice != 0))
            case Some(AssertionError) => false
  {
    IntrinsicGasLaw(tx.data);
    hide DataGas, IntrinsicGas;
  }

  /** It is applied if and only if it passes, can pay for a creation, and its message returns no negative gas. */
  lemma AppliedLaw(env: Env, tx: Tx, world: World, b: Block) returns (w: World)
    requires SoundEnv(env)
    ensures Bought(tx, world, w)
    ensures ApplyTransaction(env, tx, world, b).Applied? <==>
      ValidateTransaction(env, tx, world, b).None? && GasBefore(env, tx) <= tx.startgas && SentOf(env, tx, w).gas >= 0
  {
    var v := world.(logs := [], suicides := [], refunds := 0);
    w := BuyGas(tx, v);
    SameChecks(env, tx, world, v, b);
    IntrinsicGasLaw(tx.data);
    BuyingMeans(tx, world);
    if UpfrontGas(env, tx) <= tx.startgas { RunIsSent(env, tx, w); }
    hide DataGas, IntrinsicGas, RunTx, SentOf, BuyGas, Bought, ValidateTransaction;
  }
}
