/** What messages and creations leave behind, and what no code can do to an account from outside. */
module MessageLaws {
  import opened ByteStrings
  import opened BigEndian
  import opened Words
  import opened Opcodes
  import opened World
  import opened Machine
  import opened Evm
  import opened EvmSafety
  import opened StateLaws
  import opened CallLaws

  // ---- messages ----

  /** A value went from one account to another, perhaps the same; nothing else happened. */
  ghost predicate Moved(w: World, w': World, from: Address, to: Address, value: int) {
    && (forall b: Address ::
          && GetBalance(w', b) == GetBalance(w, b) - (if b == from then value else 0) + (if b == to then value else 0)
          && GetNonce(w', b) == GetNonce(w, b) && GetCode(w', b) == GetCode(w, b) && Acct(w', b).storage == Acct(w, b).storage)
    && w'.logs == w.logs && w'.suicides == w.suicides && w'.refunds == w.refunds
  }

  /** The message runs a precompiled contract. */
  predicate IsSpecial(env: Env, msg: Message) {
    msg.codeAddress.Some? && env.isSpecial(msg.codeAddress.value)
  }

  lemma TransferMoves(w: World, from: Address, to: Address, value: int)
    ensures var t := TransferValue(w, from, to, value);
            if GetBalance(w, from) < value then t.None? else t.Some? && Moved(w, t.value, from, to, value)
  {
  }

  /** A message whose value is not covered succeeds without doing anything. One that fails leaves the world as it was. Any other
      one runs in a world in which its value was moved, if it is to be moved, and leaves what the code made of that. */
  lemma MessageLaw(env: Env, msg: Message, code: Bytes, w: World) returns (w1: World)
    requires SoundEnv(env) && msg.gas >= 0
    ensures var r := ApplyMsg(env, msg, code, w);
            && (if msg.transfersValue then Moved(w, w1, msg.sender, msg.to, msg.value) || GetBalance(w, msg.sender) < msg.value else w1 == w)
            && if msg.transfersValue && GetBalance(w, msg.sender) < msg.value then
                 r.success && r.gas == msg.gas && r.data == [] && r.world == w
               else
                 && (!r.success ==> r.world == w)
                 && if IsSpecial(env, msg) then
                      var p := env.special(msg.codeAddress.value, msg.data, msg.gas);
                      r.success == p.success && r.gas == p.gas && r.data == p.data && (r.success ==> r.world == w1)
                    else
                      var run := Execute(env, msg, code, Machine(0, msg.gas, [], [], []), w1, false);
                      r.success == run.success && r.gas == run.gas && r.data == run.data && (r.success ==> r.world == run.world)
  {
    hide TransferValue, GetBalance, Execute, Moved;
    TransferMoves(w, msg.sender, msg.to, msg.value);
    w1 := if msg.transfersValue && TransferValue(w, msg.sender, msg.to, msg.value).Some?
          then TransferValue(w, msg.sender, msg.to, msg.value).value else w;
  }

  /** A covered message to an account without code moves its value and gives all gas back. */
  lemma PlainMessage(env: Env, msg: Message, w: World)
    requires SoundEnv(env) && msg.gas >= 0 && !IsSpecial(env, msg) && msg.transfersValue && GetBalance(w, msg.sender) >= msg.value
    ensures var r := ApplyMsg(env, msg, [], w);
            r.success && r.gas == msg.gas && r.data == [] && Moved(w, r.world, msg.sender, msg.to, msg.value)
  {
    hide ApplyMsg, Execute, Moved, GetBalance;
    var w1 := MessageLaw(env, msg, [], w);
    RunLaw(env, msg, [], Machine(0, msg.gas, [], [], []), w1, false);
  }

  // ---- creations ----

  /** The address comes from the creator and its nonce before. */
  function NewAddress(env: Env, sender: Address, w: World): Address {
    env.contractAddress(sender, if env.constantinople && sender == TT160 - 1 then 0
                                else GetNonce(w, sender) - if env.txOrigin == sender then 1 else 0)
  }

  /** Before the code runs: the creator's nonce is raised unless the transaction did so already, and an account at the new
      address that holds ether loses nonce and code. */
  ghost predicate ReadyFor(env: Env, sender: Address, to: Address, w: World, w': World) {
    && (forall b: Address ::
          && GetBalance(w', b) == GetBalance(w, b) && Acct(w', b).storage == Acct(w, b).storage
          && GetNonce(w', b) == (if b == to && GetBalance(w, b) > 0 then 0
                                 else GetNonce(w, b) + if b == sender && env.txOrigin != sender then 1 else 0)
          && GetCode(w', b) == if b == to && GetBalance(w, b) > 0 then [] else GetCode(w, b))
    && w'.logs == w.logs && w'.suicides == w.suicides && w'.refunds == w.refunds
  }

  /** Everything but one nonce is the same. */
  ghost predicate OnlyNonce(w: World, w': World, a: Address, n: int) {
    && (forall b: Address ::
          && GetBalance(w', b) == GetBalance(w, b) && Acct(w', b).storage == Acct(w, b).storage && GetCode(w', b) == GetCode(w, b)
          && GetNonce(w', b) == if b == a then n else GetNonce(w, b))
    && w'.logs == w.logs && w'.suicides == w.suicides && w'.refunds == w.refunds
  }

  /** Everything but the code of one account is the same. */
  ghost predicate OnlyCode(w: World, w': World, a: Address, code: Bytes) {
    && (forall b: Address ::
          && GetBalance(w', b) == GetBalance(w, b) && Acct(w', b).storage == Acct(w, b).storage && GetNonce(w', b) == GetNonce(w, b)
          && GetCode(w', b) == if b == a then code else GetCode(w, b))
    && w'.logs == w.logs && w'.suicides == w.suicides && w'.refunds == w.refunds
  }

  /** The code of the message runs at the new address, without input. It succeeds if that does and what it returns can be paid
      for at 200 a byte and, from Spurious Dragon on, has at most 24576 bytes; that is the new code then, and if it is too much
      before Homestead, there is none. A creation that fails leaves the creator's nonce raised and the new address ready. */
  lemma CreationLaw(env: Env, msg: Message, w: World) returns (w2: World, w3: World)
    requires SoundEnv(env) && msg.gas >= 0
    ensures var r, to := CreateContract(env, msg, w), NewAddress(env, msg.sender, w);
            var raised := if to == msg.sender && env.txOrigin != msg.sender then 1 else 0;
            r.addr == to
            && if env.metropolis && (GetNonce(w, to) + raised != 0 || GetCode(w, to) != []) then
                 && !r.success && r.gas == 0 && r.data == []
                 && OnlyNonce(w, r.world, msg.sender, GetNonce(w, msg.sender) + if env.txOrigin != msg.sender then 1 else 0)
               else
                 && ReadyFor(env, msg.sender, to, w, w2) && OnlyNonce(w2, w3, to, if env.spuriousDragon then 1 else 0)
                 && var run := ApplyMsg(env, msg.(to := to, data := CallData([], 0, 0)),
                                        Window(msg.data.data, msg.data.offset, msg.data.size), w3);
                    var fee := 200 * |run.data|;
                    var fits := run.gas >= fee && (|run.data| <= 24576 || !env.spuriousDragon);
                    if !run.success then !r.success && r.gas == run.gas && r.data == run.data && r.world == w2
                    else if run.data == [] then r.success && r.gas == run.gas && r.world == run.world
                    else if fits then r.success && r.gas == run.gas - fee && OnlyCode(run.world, r.world, to, run.data)
                    else if env.homestead then !r.success && r.gas == 0 && r.data == [] && r.world == w2
                    else r.success && r.gas == run.gas && OnlyCode(run.world, r.world, to, [])
  {
    hide ApplyMsg;
    var (w1, to) := CreateSetup(env, msg, w);
    w2 := ClearTarget(w1, to);
    w3 := SetNonce(w2, to, if env.spuriousDragon then 1 else 0);
    SetupMeans(env, msg, w);
    var run := ApplyMsg(env, msg.(to := to, data := CallData([], 0, 0)), Window(msg.data.data, msg.data.offset, msg.data.size), w3);
    FinishMeans(env, to, run, w2);
    OccupiedMeans(env, msg, w, w1, to);
    hide OnlyCode, OnlyNonce, ReadyFor, Evm.FinishCreate, ClearTarget, CreateSetup, SetNonce, Occupied, Window,
      NewAddress;
  }

  /** A failed creation leaves the creator's nonce raised, and perhaps the new address ready. */
  lemma FailedCreation(env: Env, msg: Message, w: World)
    requires SoundEnv(env) && msg.gas >= 0
    ensures var r := CreateContract(env, msg, w);
            r.success || ReadyFor(env, msg.sender, r.addr, w, r.world)
            || OnlyNonce(w, r.world, msg.sender, GetNonce(w, msg.sender) + if env.txOrigin != msg.sender then 1 else 0)
  {
    hide CreateContract, ApplyMsg, ReadyFor, OnlyNonce, OnlyCode, NewAddress;
    var w2, w3 := CreationLaw(env, msg, w);
  }

  lemma OccupiedMeans(env: Env, msg: Message, w: World, w1: World, to: Address)
    requires OnlyNonce(w, w1, msg.sender, GetNonce(w, msg.sender) + if env.txOrigin != msg.sender then 1 else 0)
    ensures var raised := if to == msg.sender && env.txOrigin != msg.sender then 1 else 0;
            Occupied(env, w1, to) <==> env.metropolis && (GetNonce(w, to) + raised != 0 || GetCode(w, to) != [])
  {
    hide GetNonce, GetCode;
  }

  lemma FinishMeans(env: Env, to: Address, run: Result, w2: World)
    ensures var r := Evm.FinishCreate(env, to, run, w2);
            var fee := 200 * |run.data|;
            var fits := run.gas >= fee && (|run.data| <= 24576 || !env.spuriousDragon);
            r.addr == to
            && if !run.success then !r.success && r.gas == run.gas && r.data == run.data && r.world == w2
               else if run.data == [] then r.success && r.gas == run.gas && r.world == run.world
               else if fits then r.success && r.gas == run.gas - fee && OnlyCode(run.world, r.world, to, run.data)
               else if env.homestead then !r.success && r.gas == 0 && r.data == [] && r.world == w2
               else r.success && r.gas == run.gas && OnlyCode(run.world, r.world, to, [])
  {
    CodeMeans(run.world, to, run.data);
    CodeMeans(run.world, to, []);
    hide OnlyCode, SetCode;
  }

  lemma NonceMeans(w: World, a: Address, n: int)
    ensures OnlyNonce(w, SetNonce(w, a, n), a, n)
  {
  }

  /** The address is cleared of nonce and code if it holds ether. */
  ghost predicate Cleared(w: World, w': World, a: Address) {
    && (forall b: Address ::
          && GetBalance(w', b) == GetBalance(w, b) && Acct(w', b).storage == Acct(w, b).storage
          && GetNonce(w', b) == (if b == a && GetBalance(w, b) > 0 then 0 else GetNonce(w, b))
          && GetCode(w', b) == if b == a && GetBalance(w, b) > 0 then [] else GetCode(w, b))
    && w'.logs == w.logs && w'.suicides == w.suicides && w'.refunds == w.refunds
  }

  lemma ClearMeans(w: World, a: Address)
    ensures Cleared(w, ClearTarget(w, a), a)
  {
  }

  lemma SetupMeans(env: Env, msg: Message, w: World)
    ensures var (w1, to) := CreateSetup(env, msg, w);
            var w2, n := ClearTarget(w1, to), if env.spuriousDragon then 1 else 0;
            && to == NewAddress(env, msg.sender, w) && ReadyFor(env, msg.sender, to, w, w2) && OnlyNonce(w2, SetNonce(w2, to, n), to, n)
            && OnlyNonce(w, w1, msg.sender, GetNonce(w, msg.sender) + if env.txOrigin != msg.sender then 1 else 0)
  {
    hide ClearTarget, SetNonce, Acct, Put;
    var (w1, to) := CreateSetup(env, msg, w);
    NonceMeans(w, msg.sender, GetNonce(w, msg.sender) + 1);
    ClearMeans(w1, to);
    NonceMeans(ClearTarget(w1, to), to, if env.spuriousDragon then 1 else 0);
    assert OnlyNonce(w, w1, msg.sender, GetNonce(w, msg.sender) + if env.txOrigin != msg.sender then 1 else 0);
  }

  lemma CodeMeans(w: World, a: Address, code: Bytes)
    ensures OnlyCode(w, SetCode(w, a, code), a, code)
  {
  }
}
