/** The accounts and the execution log that contracts act on, and the environment they run in. */
module World {
  import opened ByteStrings
  import opened BigEndian
  import opened Words

  datatype Account = Account(
    nonce: int, balance: int, code: Bytes, storage: map<Word, Word>,
    touched: bool, deleted: bool, existentAtStart: bool)

  const BLANK_ACCOUNT := Account(0, 0, [], map[], false, false, false)

  datatype Log = Log(address: Address, topics: seq<Word>, data: Bytes)

  /** An account that is not in the map is blank. */
  datatype World = World(accounts: map<Address, Account>, suicides: seq<Address>, logs: seq<Log>, refunds: int)

  datatype Precompiled = Precompiled(success: bool, gas: int, data: Bytes)

  /** Fork flags, block and transaction data, and the foreign functions. */
  datatype Env = Env(
    homestead: bool, antiDos: bool, spuriousDragon: bool, metropolis: bool, constantinople: bool,
    coinbase: Address, timestamp: Word, number: Word, difficulty: Word, gasLimit: Word,
    txOrigin: Address, txGasPrice: Word,
    blockHash: Word -> Word,
    sha3: Bytes -> Word,
    contractAddress: (Address, int) -> Address,
    isSpecial: Address -> bool,
    special: (Address, CallData, int) -> Precompiled,
    zeroBytes: nat, networkId: int)

  /** A precompiled contract returns between nothing and the gas it was given. */
  ghost predicate SoundEnv(env: Env) {
    forall a: Address, d: CallData, g: int :: g >= 0 ==> 0 <= env.special(a, d, g).gas <= g
  }

  // ---- call data ----

  /** A window of the caller's memory. */
  datatype CallData = CallData(data: Bytes, offset: nat, size: nat)

  /** `size` bytes of b from `start`, with zero bytes beyond its end. */
  function Window(b: Bytes, start: nat, size: nat): (r: Bytes)
    ensures |r| == size
    ensures forall i :: 0 <= i < size ==> r[i] == if start + i < |b| then b[start + i] else 0
  {
    var s := Slice(b, start, start + size);
    s + Zeros(size - |s|)
  }

  function ExtractAll(d: CallData): Bytes {
    Window(d.data, d.offset, d.size)
  }

  function Extract32(d: CallData, i: nat): Word {
    if i >= d.size then 0
    else
      var hi := if i + 32 <= d.size then d.offset + i + 32 else d.offset + d.size;
      var o := Slice(d.data, d.offset + i, hi);
      WordOf(o + Zeros(32 - |o|))
  }

  /** The byte `extract_copy` writes for position k of the data. */
  function CopyByte(d: CallData, k: nat): Byte
    requires Covered(d)
  {
    if k < d.size then d.data[d.offset + k] else 0
  }

  /** The window lies within the memory it was taken from. */
  predicate Covered(d: CallData) {
    d.size > 0 ==> d.offset + d.size <= |d.data|
  }

  /** Reading through the window is reading the extracted byte string. */
  lemma CallDataIsItsBytes(d: CallData, i: nat)
    requires Covered(d)
    ensures Extract32(d, i) == WordOf(Window(ExtractAll(d), i, 32))
    ensures CopyByte(d, i) == if i < |ExtractAll(d)| then ExtractAll(d)[i] else 0
  {
    var all := ExtractAll(d);
    if i < d.size {
      var hi := if i + 32 <= d.size then d.offset + i + 32 else d.offset + d.size;
      var o := Slice(d.data, d.offset + i, hi);
      assert o + Zeros(32 - |o|) == Window(all, i, 32);
    } else {
      assert Window(all, i, 32) == Zeros(32);
      ZeroWord(32);
    }
  }

  lemma ZeroWord(n: nat)
    requires n <= 32
    ensures WordOf(Zeros(n)) == 0
  {
    LeadingZeros(n, []);
    assert Zeros(n) + [] == Zeros(n);
  }

  // ---- messages ----

  /** A message; it carries no code address when it creates a contract. */
  datatype Message = Message(
    sender: Address, to: Address, value: Word, gas: int, data: CallData, depth: nat,
    codeAddress: Option<Address>, transfersValue: bool, isStatic: bool)

  // ---- reading and writing accounts ----

  function Acct(w: World, a: Address): Account {
    if a in w.accounts then w.accounts[a] else BLANK_ACCOUNT
  }

  function GetBalance(w: World, a: Address): int { Acct(w, a).balance }
  function GetNonce(w: World, a: Address): int { Acct(w, a).nonce }
  function GetCode(w: World, a: Address): Bytes { Acct(w, a).code }

  function StorageAt(s: map<Word, Word>, k: Word): Word { if k in s then s[k] else 0 }
  function GetStorage(w: World, a: Address, k: Word): Word { StorageAt(Acct(w, a).storage, k) }

  function Put(w: World, a: Address, acct: Account): World {
    w.(accounts := w.accounts[a := acct.(touched := true)])
  }

  function SetBalance(w: World, a: Address, v: int): World { Put(w, a, Acct(w, a).(balance := v)) }
  function DeltaBalance(w: World, a: Address, v: int): World { SetBalance(w, a, GetBalance(w, a) + v) }
  function SetNonce(w: World, a: Address, v: int): World { Put(w, a, Acct(w, a).(nonce := v)) }
  function IncrementNonce(w: World, a: Address): World { SetNonce(w, a, GetNonce(w, a) + 1) }
  function SetCode(w: World, a: Address, code: Bytes): World { Put(w, a, Acct(w, a).(code := code)) }

  /** A zero slot is not kept. */
  function WithSlot(s: map<Word, Word>, k: Word, v: Word): map<Word, Word> {
    if v == 0 then s - {k} else s[k := v]
  }

  function SetStorage(w: World, a: Address, k: Word, v: Word): World {
    Put(w, a, Acct(w, a).(storage := WithSlot(Acct(w, a).storage, k, v)))
  }

  /** Wipes an account; its storage is emptied as well. */
  function DelAccount(w: World, a: Address): World {
    var acct := Acct(w, a);
    w.(accounts := w.accounts[a := acct.(balance := 0, nonce := 0, code := [], storage := map[], deleted := true, touched := false)])
  }

  function AddRefund(w: World, v: int): World { w.(refunds := w.refunds + v) }
  function AddSuicide(w: World, a: Address): World { w.(suicides := w.suicides + [a]) }
  function AddLog(w: World, log: Log): World { w.(logs := w.logs + [log]) }

  predicate IsBlank(a: Account) {
    a.nonce == 0 && a.balance == 0 && a.code == []
  }

  predicate AccountExists(env: Env, w: World, a: Address) {
    var acct := Acct(w, a);
    if env.spuriousDragon then !IsBlank(acct)
    else if acct.deleted && !acct.touched then false
    else acct.touched || acct.existentAtStart
  }

  /** None when the balance does not cover the value. */
  function TransferValue(w: World, from: Address, to: Address, value: int): Option<World> {
    if GetBalance(w, from) >= value
    then Some(DeltaBalance(DeltaBalance(w, from, -value), to, value))
    else None
  }
}
