/** Applying a transaction: validation, buying gas, running it, settling the gas and the self-destructs. */
module Transactions {
  import opened ByteStrings
  import opened BigEndian
  import opened Words
  import opened Opcodes
  import opened World
  import opened Machine
  import opened Evm
  import opened EvmSafety

  /** A transaction with its recovered sender, if it could be recovered; `to` is None for a contract creation. */
  datatype Tx = Tx(
    sender: Address, nonce: nat, gasprice: nat, startgas: nat, to: Option<Address>, value: Word, data: Bytes,
    signed: bool, s: nat, networkId: Option<int>)

  datatype Error =
    | UnsignedTransaction
    | InvalidNonce
    | InsufficientStartGas
    | InsufficientBalance
    | BlockGasLimitReached
    | InvalidTransaction
    | AssertionError

  /** Gas used so far and the limit of the block. */
  datatype Block = Block(gasUsed: int, gasLimit: int)

  datatype Outcome =
    | Rejected(error: Error, world: World)
    | Applied(success: bool, world: World, gasUsed: int, gasRemained: int, output: Bytes, ran: World)

  function IntrinsicGas(data: Bytes): nat
  {
    if data == [] then GTXCOST
    else IntrinsicGas(data[1..]) + if data[0] == 0 then GTXDATAZERO else GTXDATANONZERO
  }

  function RequiredNonce(tx: Tx, w: World): int {
    if tx.sender == NULL_ADDRESS then 0 else GetNonce(w, tx.sender)
  }

  /** The order of the curve of signatures (secpk1n). */
  const SECPK1N: nat := 115792089237316195423570985008687907852837564279074904382605163141518161494337

  /** What a fork demands of the signature and of the network identifier. */
  predicate ForkValid(env: Env, tx: Tx) {
    && (if env.constantinople then tx.s <= SECPK1N / 2
        else tx.sender != NULL_ADDRESS && (env.homestead ==> 0 < tx.s <= SECPK1N / 2))
    && (tx.networkId == None || (env.spuriousDragon && tx.networkId == Some(env.networkId)))
  }

  /** None when the transaction passes. */
  function ValidateTransaction(env: Env, tx: Tx, w: World, b: Block): Option<Error> {
    if !tx.signed then Some(UnsignedTransaction)
    else if !ForkValid(env, tx) then Some(InvalidTransaction)
    else if RequiredNonce(tx, w) != tx.nonce then Some(InvalidNonce)
    else if tx.startgas < IntrinsicGas(tx.data) then Some(InsufficientStartGas)
    else if GetBalance(w, tx.sender) < tx.value + tx.gasprice * tx.startgas then Some(InsufficientBalance)
    else if b.gasUsed + tx.startgas > b.gasLimit then Some(BlockGasLimitReached)
    else if tx.sender == NULL_ADDRESS && (tx.value != 0 || tx.gasprice != 0) then Some(InvalidTransaction)
    else None
  }

  /** Gas charged before execution; creations pay more from Homestead on. */
  function UpfrontGas(env: Env, tx: Tx): nat {
    IntrinsicGas(tx.data) + if env.homestead && tx.to == None then 32000 else 0
  }

  /** Nonce raised and gas bought. */
  function BuyGas(tx: Tx, w: World): World {
    var w1 := if tx.sender != NULL_ADDRESS then IncrementNonce(w, tx.sender) else w;
    DeltaBalance(w1, tx.sender, -(tx.startgas * tx.gasprice))
  }

  /** The 20 bytes of an address. */
  function AddressBytes(a: Address): Bytes { ZPad(IntToBigEndian(a), 20) }

  datatype Ran = Ran(success: bool, gas: int, data: Bytes, world: World, overdrawn: bool)

  function RunTx(env: Env, tx: Tx, w: World): (r: Ran)
    requires SoundEnv(env) && UpfrontGas(env, tx) <= tx.startgas
    ensures r.gas <= tx.startgas - UpfrontGas(env, tx)
  {
    var data := CallData(tx.data, 0, |tx.data|);
    var gas := tx.startgas - UpfrontGas(env, tx);
    match tx.to
    case Some(to) =>
      var r := ApplyMsg(env, Message(tx.sender, to, tx.value, gas, data, 0, Some(to), true, false), GetCode(w, to), w);
      Ran(r.success, r.gas, r.data, r.world, r.overdrawn)
    case None =>
      var r := CreateContract(env, Message(tx.sender, 0, tx.value, gas, data, 0, None, true, false), w);
      Ran(r.success, r.gas, if r.success then AddressBytes(r.addr) else r.data, r.world, r.overdrawn)
  }

  function Min(a: int, b: int): int { if a < b then a else b }

  /** The refund counter, with the bonus for self-destructs. */
  function RefundTotal(w: World): int {
    w.refunds + |set a | a in w.suicides| * GSUICIDEREFUND
  }

  /** Gas given back for cleared storage and self-destructs, at most half of what was used. */
  function Refund(w: World, gasUsed: int): int {
    if RefundTotal(w) > 0 then Min(RefundTotal(w), gasUsed / 2) else 0
  }

  /** The refund counter once it has been paid out. */
  function RefundsLeft(w: World, success: bool): int {
    if !success then w.refunds else if RefundTotal(w) > 0 then 0 else RefundTotal(w)
  }

  /** Unused gas goes back to the sender, used gas to the miner. */
  function Settle(env: Env, tx: Tx, w: World, gasRemained: int, gasUsed: int): World {
    DeltaBalance(DeltaBalance(w, tx.sender, tx.gasprice * gasRemained), env.coinbase, tx.gasprice * gasUsed)
  }

  function ClearSuicides(w: World, suicides: seq<Address>): World {
    if suicides == [] then w
    else DelAccount(SetBalance(ClearSuicides(w, suicides[..|suicides| - 1]), suicides[|suicides| - 1], 0), suicides[|suicides| - 1])
  }

  function ApplyTransaction(env: Env, tx: Tx, world: World, b: Block): Outcome
    requires SoundEnv(env)
  {
    var w := world.(logs := [], suicides := [], refunds := 0);
    var error := ValidateTransaction(env, tx, w, b);
    if error.Some? then Rejected(error.value, w)
    else if env.homestead && tx.s * 2 >= SECPK1N then Rejected(AssertionError, w)
    else if tx.startgas < UpfrontGas(env, tx) then Rejected(InsufficientStartGas, w)
    else FinishTx(env, tx, RunTx(env, tx, BuyGas(tx, w)))
  }

  /** Refund, payment of the miner, and removal of self-destructed accounts. */
  function FinishTx(env: Env, tx: Tx, r: Ran): Outcome {
    if r.gas < 0 then Rejected(AssertionError, r.world)
    else
      var refund := if r.success then Refund(r.world, tx.startgas - r.gas) else 0;
      var gasRemained := r.gas + refund;
      var gasUsed := tx.startgas - gasRemained;
      var settled := Settle(env, tx, r.world, gasRemained, gasUsed);
      var cleared := ClearSuicides(settled, r.world.suicides).(suicides := [], refunds := RefundsLeft(r.world, r.success));
      Applied(r.success, cleared, gasUsed, gasRemained, if r.success then r.data else [], r.world)
  }

  // ---- conservation ----

  lemma BuyGasTotal(tx: Tx, w: World)
    ensures Total(BuyGas(tx, w).accounts) == Total(w.accounts) - tx.startgas * tx.gasprice
    ensures BuyGas(tx, w).suicides == w.suicides
  {
    var w1 := if tx.sender != NULL_ADDRESS then IncrementNonce(w, tx.sender) else w;
    TotalUpdate(w.accounts, tx.sender, Acct(w, tx.sender).(nonce := GetNonce(w, tx.sender) + 1, touched := true));
    SetBalanceTotal(w1, tx.sender, GetBalance(w1, tx.sender) - tx.startgas * tx.gasprice);
  }

  lemma BuyGasNonNegative(tx: Tx, w: World)
    requires NonNegative(w) && GetBalance(w, tx.sender) >= tx.startgas * tx.gasprice
    ensures NonNegative(BuyGas(tx, w))
  {
    var w1 := if tx.sender != NULL_ADDRESS then IncrementNonce(w, tx.sender) else w;
    assert NonNegative(w1);
    assert GetBalance(w1, tx.sender) == GetBalance(w, tx.sender);
    SetBalanceNonNegative(w1, tx.sender, GetBalance(w1, tx.sender) - tx.startgas * tx.gasprice);
  }

  lemma RunTxDrains(env: Env, tx: Tx, w: World)
    requires SoundEnv(env) && UpfrontGas(env, tx) <= tx.startgas
    ensures Drains(w, RunTx(env, tx, w).world)
    ensures RunTx(env, tx, w).gas < 0 ==> RunTx(env, tx, w).overdrawn
  {
    hide ApplyMsg, CreateContract, Drains, GetCode;
    var data := CallData(tx.data, 0, |tx.data|);
    var gas := tx.startgas - UpfrontGas(env, tx);
    match tx.to
    case Some(to) =>
      var msg := Message(tx.sender, to, tx.value, gas, data, 0, Some(to), true, false);
      ApplyDrains(env, msg, GetCode(w, to), w);
      ApplyOverdrawn(env, msg, GetCode(w, to), w);
    case None =>
      var msg := Message(tx.sender, 0, tx.value, gas, data, 0, None, true, false);
      CreateDrains(env, msg, w);
      CreateOverdrawn(env, msg, w);
  }

  lemma Products(p: nat, a: int, b: int)
    ensures p * a + p * b == p * (a + b)
    ensures a >= 0 ==> p * a >= 0
  {
  }

  lemma SettleTotal(env: Env, tx: Tx, w: World, gasRemained: int, gasUsed: int)
    ensures Total(Settle(env, tx, w, gasRemained, gasUsed).accounts)
         == Total(w.accounts) + tx.gasprice * gasRemained + tx.gasprice * gasUsed
  {
    hide Total, SetBalance, GetBalance;
    var w1 := DeltaBalance(w, tx.sender, tx.gasprice * gasRemained);
    SetBalanceTotal(w, tx.sender, GetBalance(w, tx.sender) + tx.gasprice * gasRemained);
    SetBalanceTotal(w1, env.coinbase, GetBalance(w1, env.coinbase) + tx.gasprice * gasUsed);
  }

  lemma SettleNonNegative(env: Env, tx: Tx, w: World, gasRemained: int, gasUsed: int)
    requires NonNegative(w) && gasRemained >= 0 && gasUsed >= 0
    ensures NonNegative(Settle(env, tx, w, gasRemained, gasUsed))
  {
    Products(tx.gasprice, gasRemained, 0);
    Products(tx.gasprice, gasUsed, 0);
    var w1 := DeltaBalance(w, tx.sender, tx.gasprice * gasRemained);
    SetBalanceNonNegative(w, tx.sender, GetBalance(w, tx.sender) + tx.gasprice * gasRemained);
    assert GetBalance(w1, env.coinbase) >= 0;
    SetBalanceNonNegative(w1, env.coinbase, GetBalance(w1, env.coinbase) + tx.gasprice * gasUsed);
  }

  lemma DelAccountTotal(w: World, a: Address)
    requires NonNegative(w)
    ensures NonNegative(DelAccount(w, a)) && Total(DelAccount(w, a).accounts) == Total(w.accounts) - GetBalance(w, a)
  {
    TotalUpdate(w.accounts, a, DelAccount(w, a).accounts[a]);
  }

  lemma {:induction false} ClearSuicidesTotal(w: World, suicides: seq<Address>)
    requires NonNegative(w)
    ensures NonNegative(ClearSuicides(w, suicides))
    ensures Total(ClearSuicides(w, suicides).accounts) <= Total(w.accounts)
  {
    if suicides != [] {
      var rest, a := ClearSuicides(w, suicides[..|suicides| - 1]), suicides[|suicides| - 1];
      ClearSuicidesTotal(w, suicides[..|suicides| - 1]);
      SetBalanceTotal(rest, a, 0);
      SetBalanceNonNegative(rest, a, 0);
      DelAccountTotal(SetBalance(rest, a, 0), a);
    }
  }

  lemma RefundBounds(w: World, gasUsed: int)
    requires gasUsed >= 0
    ensures 0 <= Refund(w, gasUsed) <= gasUsed / 2
  {
  }

  /** The gas bought is the gas given back plus the gas paid for, and both are non-negative. */
  lemma GasConservation(env: Env, tx: Tx, world: World, b: Block)
    requires SoundEnv(env)
    ensures var o := ApplyTransaction(env, tx, world, b);
            o.Applied? ==> o.gasUsed + o.gasRemained == tx.startgas && 0 <= o.gasRemained && 0 <= o.gasUsed
  {
    var w := world.(logs := [], suicides := [], refunds := 0);
    if ApplyTransaction(env, tx, world, b).Applied? {
      var r := RunTx(env, tx, BuyGas(tx, w));
      RefundBounds(r.world, tx.startgas - r.gas);
    }
  }

  /** Selling the gas back adds exactly what buying it took, and clearing self-destructs only removes. */
  lemma SettledTotal(env: Env, tx: Tx, ran: World, gasRemained: nat, gasUsed: nat, cost: int)
    requires NonNegative(ran) && gasRemained + gasUsed == tx.startgas && cost == tx.startgas * tx.gasprice
    ensures var cleared := ClearSuicides(Settle(env, tx, ran, gasRemained, gasUsed), ran.suicides);
            && NonNegative(cleared)
            && Total(cleared.accounts) <= Total(ran.accounts) + cost
            && (ran.suicides == [] ==> Total(cleared.accounts) == Total(ran.accounts) + cost)
  {
    var settled := Settle(env, tx, ran, gasRemained, gasUsed);
    assert Total(settled.accounts) == Total(ran.accounts) + cost by {
      SettleTotal(env, tx, ran, gasRemained, gasUsed);
      CostSplit(tx.gasprice, gasRemained, gasUsed, tx.startgas, cost);
    }
    assert NonNegative(settled) by {
      SettleNonNegative(env, tx, ran, gasRemained, gasUsed);
    }
    ClearedTotal(settled, ran.suicides);
  }

  lemma CostSplit(p: nat, a: int, b: int, s: int, c: int)
    requires a + b == s && c == s * p
    ensures p * a + p * b == c
  {
    assert p * a + p * b == p * (a + b);
  }

  lemma ClearedTotal(settled: World, suicides: seq<Address>)
    requires NonNegative(settled)
    ensures var cleared := ClearSuicides(settled, suicides);
            && NonNegative(cleared)
            && Total(cleared.accounts) <= Total(settled.accounts)
            && (suicides == [] ==> cleared == settled)
  {
    ClearSuicidesTotal(settled, suicides);
  }

  lemma Affordable(env: Env, tx: Tx, w: World, b: Block)
    requires ValidateTransaction(env, tx, w, b).None?
    ensures GetBalance(w, tx.sender) >= tx.startgas * tx.gasprice
  {
    assert tx.gasprice * tx.startgas == tx.startgas * tx.gasprice;
  }

  /** The world after buying gas and running, relative to the world before. */
  lemma RanTotal(env: Env, tx: Tx, w: World, cost: int)
    requires SoundEnv(env) && NonNegative(w) && w.suicides == []
    requires UpfrontGas(env, tx) <= tx.startgas
    requires cost == tx.startgas * tx.gasprice && GetBalance(w, tx.sender) >= cost
    ensures var ran := RunTx(env, tx, BuyGas(tx, w)).world;
            && NonNegative(ran)
            && Total(ran.accounts) <= Total(w.accounts) - cost
            && (ran.suicides == [] ==> Total(ran.accounts) == Total(w.accounts) - cost)
  {
    BuyGasTotal(tx, w);
    BuyGasNonNegative(tx, w);
    RunTxDrains(env, tx, BuyGas(tx, w));
  }

  /** A transaction that goes through never creates ether and never drives a balance below zero,
      and it keeps the sum of all balances when nothing destroyed itself. */
  lemma EtherConservation(env: Env, tx: Tx, world: World, b: Block)
    requires SoundEnv(env) && NonNegative(world)
    ensures var o := ApplyTransaction(env, tx, world, b);
            o.Applied? ==>
              && NonNegative(o.world)
              && Total(o.world.accounts) <= Total(world.accounts)
              && (o.ran.suicides == [] ==> Total(o.world.accounts) == Total(world.accounts))
  {
    var o := ApplyTransaction(env, tx, world, b);
    if o.Applied? {
      var w := world.(logs := [], suicides := [], refunds := 0);
      AppliedForm(env, tx, world, b, w);
      GasConservation(env, tx, world, b);
      Affordable(env, tx, w, b);
      var cost := tx.startgas * tx.gasprice;
      RanTotal(env, tx, w, cost);
      SettledTotal(env, tx, o.ran, o.gasRemained, o.gasUsed, cost);
    }
  }

  /** What an applied transaction consists of. */
  lemma AppliedForm(env: Env, tx: Tx, world: World, b: Block, w: World)
    requires SoundEnv(env) && w == world.(logs := [], suicides := [], refunds := 0)
    ensures var o := ApplyTransaction(env, tx, world, b);
            o.Applied? ==>
              && ValidateTransaction(env, tx, w, b).None?
              && UpfrontGas(env, tx) <= tx.startgas
              && o.ran == RunTx(env, tx, BuyGas(tx, w)).world
              && o.world.accounts == ClearSuicides(Settle(env, tx, o.ran, o.gasRemained, o.gasUsed), o.ran.suicides).accounts
  {
    if ApplyTransaction(env, tx, world, b).Applied? {
      FinishForm(env, tx, RunTx(env, tx, BuyGas(tx, w)));
    }
  }

  lemma FinishForm(env: Env, tx: Tx, r: Ran)
    ensures var o := FinishTx(env, tx, r);
            o.Applied? ==>
              && o.ran == r.world
              && o.world.accounts == ClearSuicides(Settle(env, tx, o.ran, o.gasRemained, o.gasUsed), o.ran.suicides).accounts
  {
  }

  /** The checks look at the accounts only; and the one of the signature that is asserted never fails after them. */
  lemma SameChecks(env: Env, tx: Tx, world: World, w: World, b: Block)
    requires w.accounts == world.accounts
    ensures ValidateTransaction(env, tx, w, b) == ValidateTransaction(env, tx, world, b)
    ensures ValidateTransaction(env, tx, w, b).None? && env.homestead ==> tx.s * 2 < SECPK1N
  {
  }

  /** Once a transaction passes the checks it is applied, unless the frames below it returned less than nothing. */
  lemma OnlyOverdraftAborts(env: Env, tx: Tx, world: World, b: Block)
    requires SoundEnv(env)
    requires ValidateTransaction(env, tx, world, b).None? && UpfrontGas(env, tx) <= tx.startgas
    ensures var w := world.(logs := [], suicides := [], refunds := 0);
            && (ApplyTransaction(env, tx, world, b).Rejected? <==> RunTx(env, tx, BuyGas(tx, w)).gas < 0)
            && (ApplyTransaction(env, tx, world, b).Rejected? ==> RunTx(env, tx, BuyGas(tx, w)).overdrawn)
  {
    hide RunTx, BuyGas, ValidateTransaction, ForkValid;
    var w := world.(logs := [], suicides := [], refunds := 0);
    SameChecks(env, tx, world, w, b);
    RunTxDrains(env, tx, BuyGas(tx, w));
  }
}
