/** The journaled state of ethereum/state.py: cached accounts over an account trie, with snapshot and revert. */
module StateJournal {
  import opened ByteStrings
  import opened Words
  import opened World
  import W = World
  import opened Headers

  /** What the account trie holds under an address, decoded: the storage root stands for the storage trie below it,
      the code hash for the code. */
  datatype Record = Record(nonce: int, balance: int, storage: map<Word, Word>, code: Bytes)

  /** A field of an account that is set through the journal, with a value. */
  datatype Field = Nonce(n: int) | Balance(b: int) | Code(c: Bytes) | Touched(t: bool) | Deleted(d: bool)

  /** What a journal entry does when it is popped. */
  datatype Undo =
    | Setattr(acct: CachedAccount, field: Field)
    | SetSlot(acct: CachedAccount, key: Word, preval: Word)
    | SetCaches(acct: CachedAccount, preCache: map<Word, Word>, preTrie: map<Word, Word>)
    | PopSuicide
    | PopLog
    | SetRefunds(refunds: int)
    | PopReceipt
    | SetBloom(bloom: nat)
    | SetTxindex(txindex: nat)

  // ---- storage: a cache over a trie ----

  function Slot(trie: map<Word, Word>, cache: map<Word, Word>, k: Word): Word {
    if k in cache then cache[k] else StorageAt(trie, k)
  }

  /** The slots that are not zero. */
  function Slots(trie: map<Word, Word>, cache: map<Word, Word>): map<Word, Word> {
    map k | k in trie.Keys + cache.Keys && Slot(trie, cache, k) != 0 :: Slot(trie, cache, k)
  }

  lemma SlotOfSlots(trie: map<Word, Word>, cache: map<Word, Word>, k: Word)
    ensures StorageAt(Slots(trie, cache), k) == Slot(trie, cache, k)
  {
  }

  lemma SlotsLoad(trie: map<Word, Word>, cache: map<Word, Word>, k: Word)
    requires k !in cache
    ensures Slots(trie, cache[k := StorageAt(trie, k)]) == Slots(trie, cache)
  {
    var c := cache[k := StorageAt(trie, k)];
    assert forall j :: Slot(trie, c, j) == Slot(trie, cache, j);
  }

  lemma SlotsWrite(trie: map<Word, Word>, cache: map<Word, Word>, k: Word, v: Word)
    ensures Slots(trie, cache[k := v]) == WithSlot(Slots(trie, cache), k, v)
  {
    var c := cache[k := v];
    assert forall j :: Slot(trie, c, j) == if j == k then v else Slot(trie, cache, j);
  }

  /** An account object. */
  class CachedAccount {
    const address: Address
    var nonce: int
    var balance: int
    var code: Bytes
    var storageTrie: map<Word, Word>
    var storageCache: map<Word, Word>
    var touched: bool
    var deleted: bool
    var existentAtStart: bool

    /** The account the object stands for. */
    ghost function View(): Account
      reads this
    {
      Account(nonce, balance, code, Slots(storageTrie, storageCache), touched, deleted, existentAtStart)
    }

    constructor (address: Address, r: Record)
      ensures this.address == address && View() == Loaded(r)
      ensures storageCache == map[]
    {
      this.address := address;
      nonce, balance, code, storageTrie := r.nonce, r.balance, r.code, r.storage;
      storageCache := map[];
      touched, deleted, existentAtStart := false, false, true;
    }

    constructor Blank(address: Address)
      ensures this.address == address && View() == BLANK_ACCOUNT
      ensures storageCache == map[]
    {
      this.address := address;
      nonce, balance, code, storageTrie, storageCache := 0, 0, [], map[], map[];
      touched, deleted, existentAtStart := false, false, false;
      new;
      assert Slots(storageTrie, storageCache) == map[];
    }

    method GetStorageData(key: Word) returns (v: Word)
      modifies `storageCache
      ensures View() == old(View()) && v == StorageAt(View().storage, key)
      ensures key in storageCache
    {
      if key !in storageCache {
        SlotsLoad(storageTrie, storageCache, key);
        storageCache := storageCache[key := StorageAt(storageTrie, key)];
      }
      SlotOfSlots(storageTrie, storageCache, key);
      v := storageCache[key];
    }

    method SetStorageData(key: Word, value: Word)
      modifies `storageCache
      ensures View() == old(View()).(storage := WithSlot(old(View()).storage, key, value))
    {
      SlotsWrite(storageTrie, storageCache, key, value);
      storageCache := storageCache[key := value];
    }

    method GetField(f: Field) returns (v: Field)
      ensures v == Current(View(), f)
    {
      match f
      case Nonce(_) => v := Nonce(nonce);
      case Balance(_) => v := Balance(balance);
      case Code(_) => v := Code(code);
      case Touched(_) => v := Touched(touched);
      case Deleted(_) => v := Deleted(deleted);
    }

    method SetCaches(cache: map<Word, Word>, trie: map<Word, Word>)
      modifies this
      ensures View() == old(View()).(storage := Slots(trie, cache))
    {
      storageTrie := trie;
      storageCache := cache;
    }

    method SetField(f: Field)
      modifies this
      ensures View() == WithField(old(View()), f)
      ensures storageTrie == old(storageTrie) && storageCache == old(storageCache)
    {
      match f
      case Nonce(n) => nonce := n;
      case Balance(b) => balance := b;
      case Code(c) => code := c;
      case Touched(t) => touched := t;
      case Deleted(d) => deleted := d;
    }

    /** Writes the storage cache into the storage trie. */
    method Commit()
      modifies this
      ensures View() == old(View()) && storageCache == map[]
    {
      var pending := storageCache.Keys;
      var trie := storageTrie;
      while pending != {}
        invariant pending <= storageCache.Keys
        invariant unchanged(this)
        invariant forall k :: StorageAt(trie, k) == if k in storageCache && k !in pending then storageCache[k] else StorageAt(storageTrie, k)
      {
        var k :| k in pending;
        trie := WithSlot(trie, k, storageCache[k]);
        pending := pending - {k};
      }
      assert forall k :: StorageAt(trie, k) == Slot(storageTrie, storageCache, k);
      assert forall k :: Slot(trie, map[], k) == Slot(storageTrie, storageCache, k);
      assert Slots(trie, map[]) == Slots(storageTrie, storageCache);
      storageTrie, storageCache := trie, map[];
    }
  }

  function Loaded(r: Record): Account {
    Account(r.nonce, r.balance, r.code, Slots(r.storage, map[]), false, false, true)
  }

  function WithField(acct: Account, f: Field): Account {
    match f
    case Nonce(n) => acct.(nonce := n)
    case Balance(b) => acct.(balance := b)
    case Code(c) => acct.(code := c)
    case Touched(t) => acct.(touched := t)
    case Deleted(d) => acct.(deleted := d)
  }

  /** The value a field has. */
  function Current(acct: Account, f: Field): Field {
    match f
    case Nonce(_) => Nonce(acct.nonce)
    case Balance(_) => Balance(acct.balance)
    case Code(_) => Code(acct.code)
    case Touched(_) => Touched(acct.touched)
    case Deleted(_) => Deleted(acct.deleted)
  }

  // ---- journals ----

  /** An account that is blank in every respect is not kept. */
  function Store(w: World, a: Address, acct: Account): World {
    w.(accounts := if acct == BLANK_ACCOUNT then w.accounts - {a} else w.accounts[a := acct])
  }

  function DropLast<T>(s: seq<T>): seq<T> { if s == [] then [] else s[..|s| - 1] }

  /** The effect of popping one entry. */
  function Undone(w: World, u: Undo): World {
    match u
    case Setattr(acct, f) => Store(w, acct.address, WithField(Acct(w, acct.address), f))
    case SetSlot(acct, k, v) =>
      Store(w, acct.address, Acct(w, acct.address).(storage := WithSlot(Acct(w, acct.address).storage, k, v)))
    case SetCaches(acct, cache, trie) => Store(w, acct.address, Acct(w, acct.address).(storage := Slots(trie, cache)))
    case PopSuicide => w.(suicides := DropLast(w.suicides))
    case PopLog => w.(logs := DropLast(w.logs))
    case SetRefunds(r) => w.(refunds := r)
    case PopReceipt => w
    case SetBloom(_) => w
    case SetTxindex(_) => w
  }

  /** Popping entries until n are left. */
  function Unwind(w: World, journal: seq<Undo>, n: nat): World
    decreases |journal|
  {
    if |journal| <= n then w else Unwind(Undone(w, journal[|journal| - 1]), journal[..|journal| - 1], n)
  }

  /** Popping down to n is popping down to k first. */
  lemma {:induction false} UnwindVia(w: World, journal: seq<Undo>, k: nat, n: nat)
    requires n <= k <= |journal|
    ensures Unwind(w, journal, n) == Unwind(Unwind(w, journal, k), journal[..k], n)
    decreases |journal|
  {
    if k == |journal| {
      assert journal[..k] == journal;
    } else {
      var last := |journal| - 1;
      assert journal[..last][..k] == journal[..k];
      UnwindVia(Undone(w, journal[last]), journal[..last], k, n);
    }
  }

  lemma WithSlotBack(s: map<Word, Word>, k: Word, v: Word)
    requires k in s ==> s[k] != 0
    ensures WithSlot(WithSlot(s, k, v), k, StorageAt(s, k)) == s
  {
  }

  ghost predicate NoBlanks(w: World) {
    forall a :: a in w.accounts ==> w.accounts[a] != BLANK_ACCOUNT
  }

  /** Without blank entries the lookups determine the map. */
  lemma SameLookups(w: World, w': World)
    requires NoBlanks(w) && NoBlanks(w') && forall a :: Acct(w, a) == Acct(w', a)
    ensures w.accounts == w'.accounts
  {
    assert forall a :: a in w.accounts <==> Acct(w, a) != BLANK_ACCOUNT;
    assert forall a :: a in w'.accounts <==> Acct(w', a) != BLANK_ACCOUNT;
  }

  lemma StoreBack(w: World, a: Address, acct: Account)
    requires NoBlanks(w)
    ensures Store(Store(w, a, acct), a, Acct(w, a)) == w
    ensures Acct(Store(w, a, acct), a) == acct
    ensures NoBlanks(Store(w, a, acct))
  {
    var back := Store(Store(w, a, acct), a, Acct(w, a));
    assert back.accounts == w.accounts;
  }

  lemma PlainFields(acct: CachedAccount)
    ensures var x := acct.View();
            && x.nonce == acct.nonce && x.balance == acct.balance && x.code == acct.code
            && x.touched == acct.touched && x.deleted == acct.deleted && x.existentAtStart == acct.existentAtStart
  {
  }

  lemma NoSlots()
    ensures Slots(map[], map[]) == map[]
  {
  }

  lemma StorageOf(acct: CachedAccount)
    ensures acct.View().storage == Slots(acct.storageTrie, acct.storageCache)
  {
  }

  lemma StoredAt(w: World, a: Address, acct: Account)
    ensures Acct(Store(w, a, acct), a) == acct
  {
  }

  lemma SlotsNotZero(acct: CachedAccount, key: Word)
    ensures key in acct.View().storage ==> acct.View().storage[key] != 0
  {
  }

  /** Setting a field to the value it had undoes the write. */
  lemma SetattrBack(w: World, acct: CachedAccount, f: Field)
    requires NoBlanks(w)
    ensures var x := Acct(w, acct.address);
            Undone(Store(w, acct.address, WithField(x, f)), Setattr(acct, Current(x, f))) == w
  {
    hide Store;
    var x := Acct(w, acct.address);
    StoreBack(w, acct.address, WithField(x, f));
    assert WithField(WithField(x, f), Current(x, f)) == x;
  }

  lemma UndoneLog(w: World, u: Undo)
    ensures u.PopSuicide? ==> Undone(w, u) == w.(suicides := DropLast(w.suicides))
    ensures u.PopLog? ==> Undone(w, u) == w.(logs := DropLast(w.logs))
    ensures u.SetRefunds? ==> Undone(w, u) == w.(refunds := u.refunds)
  {
  }

  lemma NotInView(w: World, u: Undo)
    requires u.PopReceipt? || u.SetBloom? || u.SetTxindex?
    ensures Undone(w, u) == w
  {
  }

  lemma SetSlotBack(w: World, acct: CachedAccount, key: Word, v: Word)
    requires NoBlanks(w) && (key in Acct(w, acct.address).storage ==> Acct(w, acct.address).storage[key] != 0)
    ensures var x := Acct(w, acct.address);
            Undone(Store(w, acct.address, x.(storage := WithSlot(x.storage, key, v))),
                   SetSlot(acct, key, StorageAt(x.storage, key))) == w
  {
    hide Store, WithSlot;
    var x := Acct(w, acct.address);
    StoreBack(w, acct.address, x.(storage := WithSlot(x.storage, key, v)));
    WithSlotBack(x.storage, key, v);
  }

  lemma SetCachesBack(w: World, acct: CachedAccount, cache: map<Word, Word>, trie: map<Word, Word>)
    requires NoBlanks(w) && Acct(w, acct.address).storage == Slots(trie, cache)
    ensures Undone(Store(w, acct.address, Acct(w, acct.address).(storage := map[])), SetCaches(acct, cache, trie)) == w
  {
    hide Store, Slots;
    StoreBack(w, acct.address, Acct(w, acct.address).(storage := map[]));
  }

  lemma StoreSame(w: World, a: Address)
    requires NoBlanks(w)
    ensures Store(w, a, Acct(w, a)) == w
  {
    assert Store(w, a, Acct(w, a)).accounts == w.accounts;
  }

  lemma FlagSteps(w: World, a: Address)
    ensures WithField(Acct(w, a), Deleted(true)) == Acct(w, a).(deleted := true)
    ensures WithField(Acct(w, a), Touched(false)) == Acct(w, a).(touched := false)
  {
  }

  /** The writes of `del_account`, taken together. */
  lemma DelSteps(w: World, a: Address)
    ensures var w3 := SetCode(SetNonce(SetBalance(w, a, 0), a, 0), a, []);
            var w4 := Store(w3, a, Acct(w3, a).(storage := map[]));
            var w5 := Store(w4, a, Acct(w4, a).(deleted := true));
            Store(w5, a, Acct(w5, a).(touched := false)) == DelAccount(w, a)
  {
    var w3 := SetCode(SetNonce(SetBalance(w, a, 0), a, 0), a, []);
    var w4 := Store(w3, a, Acct(w3, a).(storage := map[]));
    var w5 := Store(w4, a, Acct(w4, a).(deleted := true));
    assert Store(w5, a, Acct(w5, a).(touched := false)).accounts == DelAccount(w, a).accounts;
  }

  lemma StoreTwice(w: World, a: Address, acct: Account)
    ensures Store(Store(w, a, acct), a, Acct(Store(w, a, acct), a).(touched := true)) == Put(w, a, acct)
  {
    assert (w.accounts - {a})[a := acct.(touched := true)] == w.accounts[a := acct.(touched := true)];
  }

  /** Popping what was appended since leads back. */
  ghost predicate Undoes(w0: World, j0: seq<Undo>, w: World, j: seq<Undo>) {
    j0 <= j && Unwind(w, j, |j0|) == w0
  }

  lemma UndoesNothing(w: World, j: seq<Undo>)
    ensures Undoes(w, j, w, j)
  {
  }

  lemma UndoesTransitive(w0: World, j0: seq<Undo>, w1: World, j1: seq<Undo>, w2: World, j2: seq<Undo>)
    requires Undoes(w0, j0, w1, j1) && Undoes(w1, j1, w2, j2)
    ensures Undoes(w0, j0, w2, j2)
  {
    UnwindVia(w2, j2, |j1|, |j0|);
    assert j2[..|j1|] == j1;
  }

  lemma UndoesOne(w0: World, w: World, j: seq<Undo>, u: Undo)
    requires Undone(w, u) == w0
    ensures Undoes(w0, j, w, j + [u])
  {
    assert (j + [u])[..|j|] == j;
    assert Unwind(w, j + [u], |j|) == Unwind(Undone(w, u), j, |j|);
  }

  datatype Snapshot = Snapshot(root: map<Address, Record>, height: nat, suicides: seq<Address>, logs: seq<Log>, refunds: int, params: Params)

  class State {
    var trie: map<Address, Record>
    var cache: map<Address, CachedAccount>
    var journal: seq<Undo>
    var suicides: seq<Address>
    var logs: seq<Log>
    var refunds: int
    var params: Params

    ghost function Accounts(): set<CachedAccount>
      reads this
    {
      set a | a in cache :: cache[a]
    }

    ghost predicate Owned(u: Undo)
      reads this
    {
      u.Setattr? || u.SetSlot? || u.SetCaches? ==> u.acct.address in cache && cache[u.acct.address] == u.acct
    }

    ghost predicate Valid()
      reads this
    {
      && (forall a :: a in cache ==> cache[a].address == a)
      && (forall i :: 0 <= i < |journal| ==> Owned(journal[i]))
    }

    ghost function AcctAt(a: Address): Account
      reads this, Accounts()
    {
      if a in cache then cache[a].View() else if a in trie then Loaded(trie[a]) else BLANK_ACCOUNT
    }

    /** The accounts and the log the state stands for. */
    ghost function View(): World
      reads this, Accounts()
    {
      World(map a | a in cache.Keys + trie.Keys && AcctAt(a) != BLANK_ACCOUNT :: AcctAt(a), suicides, logs, refunds)
    }

    /** The state stands for w. */
    ghost predicate Represents(w: World)
      reads this, Accounts()
    {
      && w.suicides == suicides && w.logs == logs && w.refunds == refunds && NoBlanks(w)
      && forall a :: Acct(w, a) == AcctAt(a)
    }

    lemma ViewRepresents()
      ensures Represents(View())
    {
      hide CachedAccount.View, Loaded;
    }

    lemma ViewUnique(w: World)
      requires Represents(w)
      ensures w == View()
    {
      hide CachedAccount.View, Loaded, View;
      ViewRepresents();
      assert forall a :: Acct(w, a) == Acct(View(), a);
      SameLookups(w, View());
    }

    /** Only caching and loading happened to the set of account objects. */
    twostate predicate Extends()
      reads this, Accounts()
    {
      && trie == old(trie) && params == old(params)
      && (forall a :: a in old(cache) ==> a in cache && cache[a] == old(cache[a]))
      && (forall a :: a in cache && a !in old(cache) ==> fresh(cache[a]))
    }

    /** What every operation keeps: the account trie, the cached objects, and a journal that leads back. */
    twostate predicate Moved()
      reads this, Accounts()
    {
      Extends() && Undoes(old(View()), old(journal), View(), journal)
    }

    constructor (trie: map<Address, Record>)
      ensures Valid() && this.trie == trie && params == NO_PARAMS && cache == map[] && journal == []
      ensures View().suicides == [] && View().logs == [] && View().refunds == 0
    {
      this.trie := trie;
      cache, journal, suicides, logs, refunds, params := map[], [], [], [], 0, NO_PARAMS;
    }

    method GetAndCacheAccount(a: Address) returns (acct: CachedAccount)
      requires Valid()
      modifies `cache
      ensures Valid() && Extends() && View() == old(View())
      ensures a in cache && cache[a] == acct && acct.View() == Acct(View(), a)
      ensures a in old(cache) ==> cache == old(cache)
    {
      hide CachedAccount.View, Loaded, View;
      ghost var w := View();
      ViewRepresents();
      if a in cache {
        acct := cache[a];
      } else {
        if a in trie {
          acct := new CachedAccount(a, trie[a]);
        } else {
          acct := new CachedAccount.Blank(a);
        }
        cache := cache[a := acct];
        forall b ensures Acct(w, b) == AcctAt(b) {
          assert Acct(w, b) == old(AcctAt(b));
        }
        ViewUnique(w);
      }
    }

    method GetBalance(a: Address) returns (b: int)
      requires Valid()
      modifies `cache
      ensures Valid() && Extends() && View() == old(View())
      ensures b == W.GetBalance(View(), a)
    {
      var acct := GetAndCacheAccount(a);
      b := acct.balance;
    }

    method GetCode(a: Address) returns (c: Bytes)
      requires Valid()
      modifies `cache
      ensures Valid() && Extends() && View() == old(View())
      ensures c == W.GetCode(View(), a)
    {
      var acct := GetAndCacheAccount(a);
      c := acct.code;
    }

    method GetNonce(a: Address) returns (n: int)
      requires Valid()
      modifies `cache
      ensures Valid() && Extends() && View() == old(View())
      ensures n == W.GetNonce(View(), a)
    {
      var acct := GetAndCacheAccount(a);
      n := acct.nonce;
    }

    /** The state stands for w except at one address. */
    ghost predicate RepresentsBut(w: World, a: Address)
      reads this, Accounts()
    {
      && w.suicides == suicides && w.logs == logs && w.refunds == refunds && NoBlanks(w)
      && forall b :: b != a ==> Acct(w, b) == AcctAt(b)
    }

    /** One account object changed; everything else is as before. */
    lemma OneChanged(w: World, a: Address)
      requires RepresentsBut(w, a) && a in cache
      ensures View() == Store(w, a, cache[a].View())
    {
      hide CachedAccount.View, Loaded, View;
      var w' := Store(w, a, cache[a].View());
      forall b ensures Acct(w', b) == AcctAt(b) {
      }
      ViewUnique(w');
    }

    /** Only the log and the counters changed, from those of w to those of w'. */
    lemma LogChanged(w: World, w': World)
      requires NoBlanks(w) && forall a :: Acct(w, a) == AcctAt(a)
      requires w'.accounts == w.accounts && w'.suicides == suicides && w'.logs == logs && w'.refunds == refunds
      ensures View() == w'
    {
      hide CachedAccount.View, Loaded, View;
      ViewUnique(w');
    }

    method SetAndJournal(acct: CachedAccount, f: Field)
      requires Valid() && acct.address in cache && cache[acct.address] == acct
      modifies this, acct
      ensures Valid() && cache == old(cache) && trie == old(trie) && params == old(params)
      ensures View() == Store(old(View()), acct.address, WithField(Acct(old(View()), acct.address), f))
      ensures Undoes(old(View()), old(journal), View(), journal)
    {
      hide View, CachedAccount.View, WithField, Current, Undone, Undoes, Store;
      var a := acct.address;
      ghost var w := View();
      ViewRepresents();
      var preval := acct.GetField(f);
      journal := journal + [Setattr(acct, preval)];
      acct.SetField(f);
      assert RepresentsBut(w, a);
      OneChanged(w, a);
      SetattrBack(w, acct, f);
      UndoesOne(w, View(), old(journal), Setattr(acct, preval));
    }

    method SetBalance(a: Address, value: int)
      requires Valid()
      modifies this, Accounts()
      ensures a in cache && (a in old(cache) ==> cache == old(cache))
      ensures Valid() && Moved()
      ensures View() == W.SetBalance(old(View()), a, value)
    {
      SetTouched(a, Balance(value));
    }

    method SetCode(a: Address, value: Bytes)
      requires Valid()
      modifies this, Accounts()
      ensures a in cache && (a in old(cache) ==> cache == old(cache))
      ensures Valid() && Moved()
      ensures View() == W.SetCode(old(View()), a, value)
    {
      SetTouched(a, Code(value));
    }

    method SetNonce(a: Address, value: int)
      requires Valid()
      modifies this, Accounts()
      ensures a in cache && (a in old(cache) ==> cache == old(cache))
      ensures Valid() && Moved()
      ensures View() == W.SetNonce(old(View()), a, value)
    {
      SetTouched(a, Nonce(value));
    }

    /** The two journaled writes every setter makes. */
    method SetTouched(a: Address, f: Field)
      requires Valid() && (f.Balance? || f.Nonce? || f.Code?)
      modifies this, Accounts()
      ensures a in cache && (a in old(cache) ==> cache == old(cache))
      ensures Valid() && Moved()
      ensures View() == Put(old(View()), a, WithField(Acct(old(View()), a), f))
    {
      hide View, CachedAccount.View, Undoes;
      var acct := GetAndCacheAccount(a);
      ghost var w0 := View();
      ViewRepresents();
      SetAndJournal(acct, f);
      ghost var w, j := View(), journal;
      SetAndJournal(acct, Touched(true));
      UndoesTransitive(old(View()), old(journal), w, j, View(), journal);
      StoreTwice(w0, a, WithField(Acct(w0, a), f));
    }

    method DeltaBalance(a: Address, value: int)
      requires Valid()
      modifies this, Accounts()
      ensures a in cache && (a in old(cache) ==> cache == old(cache))
      ensures Valid() && Moved()
      ensures View() == W.DeltaBalance(old(View()), a, value)
    {
      hide View, CachedAccount.View, Undoes, Put;
      var acct := GetAndCacheAccount(a);
      PlainFields(acct);
      var newbal := acct.balance + value;
      SetTouched(a, Balance(newbal));
    }

    method IncrementNonce(a: Address)
      requires Valid()
      modifies this, Accounts()
      ensures a in cache && (a in old(cache) ==> cache == old(cache))
      ensures Valid() && Moved()
      ensures View() == W.IncrementNonce(old(View()), a)
    {
      hide View, CachedAccount.View, Undoes, Put;
      var acct := GetAndCacheAccount(a);
      PlainFields(acct);
      var newnonce := acct.nonce + 1;
      SetTouched(a, Nonce(newnonce));
    }

    method GetStorageData(a: Address, key: Word) returns (v: Word)
      requires Valid()
      modifies this, Accounts()
      ensures Valid() && Extends() && View() == old(View()) && journal == old(journal)
      ensures v == W.GetStorage(View(), a, key)
    {
      hide View, CachedAccount.View, Loaded, AcctAt;
      var acct := GetAndCacheAccount(a);
      v := ReadSlot(acct, key);
    }

    method ReadSlot(acct: CachedAccount, key: Word) returns (v: Word)
      requires Valid() && acct.address in cache && cache[acct.address] == acct
      modifies acct
      ensures Valid() && View() == old(View())
      ensures v == W.GetStorage(View(), acct.address, key)
    {
      hide View, CachedAccount.View, Loaded, Store;
      ghost var w := View();
      ViewRepresents();
      v := acct.GetStorageData(key);
      assert RepresentsBut(w, acct.address);
      OneChanged(w, acct.address);
      StoreSame(w, acct.address);
    }

    method SetStorageData(a: Address, key: Word, value: Word)
      requires Valid()
      modifies this, Accounts()
      ensures a in cache && (a in old(cache) ==> cache == old(cache))
      ensures Valid() && Moved()
      ensures View() == W.SetStorage(old(View()), a, key, value)
    {
      hide View, CachedAccount.View, Loaded, Undoes, Put, Store, WithSlot, AcctAt;
      var acct := GetAndCacheAccount(a);
      ghost var w := View();
      WriteSlot(acct, key, value);
      ghost var w1, j1 := View(), journal;
      StoredAt(w, a, Acct(w, a).(storage := WithSlot(Acct(w, a).storage, key, value)));
      SetAndJournal(acct, Touched(true));
      UndoesTransitive(w, old(journal), w1, j1, View(), journal);
      StoreTwice(w, a, Acct(w, a).(storage := WithSlot(Acct(w, a).storage, key, value)));
    }

    /** The journaled write of one slot. */
    method WriteSlot(acct: CachedAccount, key: Word, value: Word)
      requires Valid() && acct.address in cache && cache[acct.address] == acct
      modifies this, acct
      ensures Valid() && cache == old(cache) && trie == old(trie) && params == old(params)
      ensures var x := Acct(old(View()), acct.address);
              View() == Store(old(View()), acct.address, x.(storage := WithSlot(x.storage, key, value)))
      ensures Undoes(old(View()), old(journal), View(), journal)
    {
      hide View, CachedAccount.View, Loaded, Undone, Undoes, Store, WithSlot;
      var a := acct.address;
      ghost var w := View();
      ViewRepresents();
      SlotsNotZero(acct, key);
      var preval := acct.GetStorageData(key);
      acct.SetStorageData(key, value);
      journal := journal + [SetSlot(acct, key, preval)];
      assert RepresentsBut(w, a);
      OneChanged(w, a);
      SetSlotBack(w, acct, key, value);
      UndoesOne(w, View(), old(journal), SetSlot(acct, key, preval));
    }

    method AddSuicide(a: Address)
      requires Valid()
      modifies `suicides, `journal
      ensures Valid() && Undoes(old(View()), old(journal), View(), journal)
      ensures View() == W.AddSuicide(old(View()), a)
    {
      hide View;
      ghost var w := View();
      ViewRepresents();
      suicides := suicides + [a];
      journal := journal + [PopSuicide];
      assert DropLast(suicides) == old(suicides);
      LogChanged(w, W.AddSuicide(w, a));
      UndoesOne(w, View(), old(journal), PopSuicide);
    }

    method AddLog(log: Log)
      requires Valid()
      modifies `logs, `journal
      ensures Valid() && Undoes(old(View()), old(journal), View(), journal)
      ensures View() == W.AddLog(old(View()), log)
    {
      hide View;
      ghost var w := View();
      ViewRepresents();
      logs := logs + [log];
      journal := journal + [PopLog];
      assert DropLast(logs) == old(logs);
      LogChanged(w, W.AddLog(w, log));
      UndoesOne(w, View(), old(journal), PopLog);
    }

    /** `set_param('refunds', …)`. */
    method AddRefund(v: int)
      requires Valid()
      modifies `refunds, `journal
      ensures Valid() && Undoes(old(View()), old(journal), View(), journal)
      ensures View() == W.AddRefund(old(View()), v)
    {
      hide View;
      ghost var w := View();
      ViewRepresents();
      journal := journal + [SetRefunds(refunds)];
      refunds := refunds + v;
      LogChanged(w, W.AddRefund(w, v));
      UndoesOne(w, View(), old(journal), SetRefunds(old(refunds)));
    }

    method ResetStorage(a: Address)
      requires Valid()
      modifies this, Accounts()
      ensures a in cache && (a in old(cache) ==> cache == old(cache))
      ensures Valid() && Moved()
      ensures View() == Store(old(View()), a, Acct(old(View()), a).(storage := map[]))
    {
      hide View, CachedAccount.View, Loaded, Undoes, Store, AcctAt;
      var acct := GetAndCacheAccount(a);
      DropStorage(acct);
    }

    /** The journaled reset of the storage cache and the storage root. */
    method DropStorage(acct: CachedAccount)
      requires Valid() && acct.address in cache && cache[acct.address] == acct
      modifies this, acct
      ensures Valid() && cache == old(cache) && trie == old(trie) && params == old(params)
      ensures View() == Store(old(View()), acct.address, Acct(old(View()), acct.address).(storage := map[]))
      ensures Undoes(old(View()), old(journal), View(), journal)
    {
      hide View, CachedAccount.View, Loaded, Undone, Undoes, Store, Slots;
      ghost var w := View();
      ViewRepresents();
      StorageOf(acct);
      NoSlots();
      var preCache, preTrie := acct.storageCache, acct.storageTrie;
      acct.SetCaches(map[], map[]);
      journal := journal + [SetCaches(acct, preCache, preTrie)];
      assert RepresentsBut(w, acct.address);
      OneChanged(w, acct.address);
      SetCachesBack(w, acct, preCache, preTrie);
      UndoesOne(w, View(), old(journal), SetCaches(acct, preCache, preTrie));
    }

    method DelAccount(a: Address)
      requires Valid()
      modifies this, Accounts()
      ensures a in cache && (a in old(cache) ==> cache == old(cache))
      ensures Valid() && Moved()
      ensures View() == W.DelAccount(old(View()), a)
    {
      hide View, CachedAccount.View, Undoes, Store, W.SetBalance, W.SetNonce, W.SetCode, W.DelAccount, Acct, AcctAt,
        WithField;
      SetBalance(a, 0);
      ghost var w1, j1 := View(), journal;
      SetNonce(a, 0);
      ghost var w2, j2 := View(), journal;
      UndoesTransitive(old(View()), old(journal), w1, j1, w2, j2);
      SetCode(a, []);
      ghost var w3, j3 := View(), journal;
      UndoesTransitive(old(View()), old(journal), w2, j2, w3, j3);
      ResetStorage(a);
      ghost var w4, j4 := View(), journal;
      UndoesTransitive(old(View()), old(journal), w3, j3, w4, j4);
      var acct := GetAndCacheAccount(a);
      SetAndJournal(acct, Deleted(true));
      ghost var w5, j5 := View(), journal;
      UndoesTransitive(old(View()), old(journal), w4, j4, w5, j5);
      acct := GetAndCacheAccount(a);
      SetAndJournal(acct, Touched(false));
      UndoesTransitive(old(View()), old(journal), w5, j5, View(), journal);
      FlagSteps(w4, a);
      FlagSteps(w5, a);
      DelSteps(old(View()), a);
    }

    method AccountExists(env: Env, a: Address) returns (o: bool)
      requires Valid()
      modifies `cache
      ensures Valid() && Extends() && View() == old(View())
      ensures o == W.AccountExists(env, View(), a)
      ensures a in old(cache) ==> cache == old(cache)
    {
      var acct := GetAndCacheAccount(a);
      if env.spuriousDragon {
        o := !(acct.nonce == 0 && acct.balance == 0 && acct.code == []);
      } else if acct.deleted && !acct.touched {
        o := false;
      } else if acct.touched {
        o := true;
      } else {
        o := acct.existentAtStart;
      }
    }

    method TransferValue(from: Address, to: Address, value: int) returns (ok: bool)
      requires Valid() && value >= 0
      modifies this, Accounts()
      ensures Valid() && Moved()
      ensures var t := W.TransferValue(old(View()), from, to, value);
              ok == t.Some? && View() == if t.Some? then t.value else old(View())
    {
      hide View, CachedAccount.View, Undoes, Put;
      var b := GetBalance(from);
      if b >= value {
        DeltaBalance(from, -value);
        ghost var w, j := View(), journal;
        DeltaBalance(to, value);
        UndoesTransitive(old(View()), old(journal), w, j, View(), journal);
        return true;
      }
      UndoesNothing(View(), journal);
      return false;
    }

    // ---- snapshot and revert ----

    method TakeSnapshot() returns (s: Snapshot)
      ensures s == Snapshot(trie, |journal|, suicides, logs, refunds, params)
    {
      s := Snapshot(trie, |journal|, suicides, logs, refunds, params);
    }

    /** Runs the entry of an account write. */
    method RunOnAccount(u: Undo)
      requires Valid() && Owned(u) && (u.Setattr? || u.SetSlot? || u.SetCaches?)
      modifies u.acct
      ensures Valid() && View() == Undone(old(View()), u)
    {
      hide View, CachedAccount.View, Loaded;
      ghost var w := View();
      ViewRepresents();
      var acct := u.acct;
      match u {
        case Setattr(_, f) => acct.SetField(f);
        case SetSlot(_, key, preval) => acct.SetStorageData(key, preval);
        case SetCaches(_, preCache, preTrie) => acct.SetCaches(preCache, preTrie);
      }
      assert RepresentsBut(w, acct.address);
      OneChanged(w, acct.address);
    }

    /** Pops the last entry and runs it. */
    method PopJournal()
      requires Valid() && journal != []
      modifies this, Accounts()
      ensures Valid() && cache == old(cache) && trie == old(trie)
      ensures journal == old(journal)[..|old(journal)| - 1] && SameButJournaled(params, old(params))
      ensures View() == Undone(old(View()), old(journal)[|old(journal)| - 1])
    {
      hide View, CachedAccount.View, Loaded, Undone;
      ghost var w := View();
      ViewRepresents();
      var last := journal[|journal| - 1];
      assert Owned(last);
      journal := journal[..|journal| - 1];
      if last.PopSuicide? || last.PopLog? || last.SetRefunds? {
        UndoneLog(w, last);
        match last {
          case PopSuicide => suicides := DropLast(suicides);
          case PopLog => logs := DropLast(logs);
          case SetRefunds(r) => refunds := r;
        }
        LogChanged(w, Undone(w, last));
      } else if last.PopReceipt? || last.SetBloom? || last.SetTxindex? {
        match last {
          case PopReceipt => params := params.(receipts := DropLast(params.receipts));
          case SetBloom(b) => params := params.(bloom := b);
          case SetTxindex(i) => params := params.(txindex := i);
        }
        NotInView(w, last);
        LogChanged(w, w);
      } else {
        ViewUnique(w);
        RunOnAccount(last);
      }
    }

    // ---- parameters set through the journal ----

    method AddReceipt(r: Receipt)
      requires Valid()
      modifies `params, `journal
      ensures Valid() && View() == old(View()) && params == old(params).(receipts := old(params).receipts + [r])
      ensures journal == old(journal) + [PopReceipt]
    {
      hide View;
      ghost var w := View();
      ViewRepresents();
      params := params.(receipts := params.receipts + [r]);
      journal := journal + [PopReceipt];
      LogChanged(w, w);
    }

    /** `set_param('bloom', …)`. */
    method SetBloomParam(bloom: nat)
      requires Valid()
      modifies `params, `journal
      ensures Valid() && View() == old(View()) && params == old(params).(bloom := bloom)
      ensures journal == old(journal) + [SetBloom(old(params).bloom)]
    {
      hide View;
      ghost var w := View();
      ViewRepresents();
      journal := journal + [SetBloom(params.bloom)];
      params := params.(bloom := bloom);
      LogChanged(w, w);
    }

    /** `set_param('txindex', …)`. */
    method SetTxindexParam(txindex: nat)
      requires Valid()
      modifies `params, `journal
      ensures Valid() && View() == old(View()) && params == old(params).(txindex := txindex)
      ensures journal == old(journal) + [SetTxindex(old(params).txindex)]
    {
      hide View;
      ghost var w := View();
      ViewRepresents();
      journal := journal + [SetTxindex(params.txindex)];
      params := params.(txindex := txindex);
      LogChanged(w, w);
    }

    /** Plain assignment to the parameters. */
    method AssignParams(p: Params)
      requires Valid()
      modifies `params
      ensures Valid() && View() == old(View()) && params == p
    {
      hide View;
      ghost var w := View();
      ViewRepresents();
      params := p;
      LogChanged(w, w);
    }

    /** Pops the journal down to the snapshot. After a commit the account trie is another one: then the snapshot must
        have been taken with an empty journal, and the cache is dropped; false stands for the failing assertion. */
    method Revert(s: Snapshot) returns (ok: bool)
      requires Valid()
      modifies this, Accounts()
      ensures Valid() && ok == (s.root == old(trie) || s.height == 0)
      ensures ok ==> params == s.params && suicides == s.suicides && logs == s.logs && refunds == s.refunds
      ensures s.root == old(trie) ==> trie == old(trie) && cache == old(cache)
      ensures s.root == old(trie) ==> journal == if s.height < |old(journal)| then old(journal)[..s.height] else old(journal)
      ensures s.root == old(trie) ==>
                View() == Unwind(old(View()), old(journal), s.height).(suicides := s.suicides, logs := s.logs, refunds := s.refunds)
      ensures ok && s.root != old(trie) ==> trie == s.root && cache == map[] && journal == []
      ensures !ok ==> trie == old(trie) && journal == if s.height < |old(journal)| then old(journal)[..s.height] else old(journal)
      ensures !ok ==> View() == Unwind(old(View()), old(journal), s.height) && cache == old(cache)
      ensures !ok ==> SameButJournaled(params, old(params))
    {
      hide View, CachedAccount.View, Undone;
      while |journal| > s.height
        invariant Valid() && cache == old(cache) && trie == old(trie) && SameButJournaled(params, old(params))
        invariant journal == old(journal)[..|journal|] && |journal| <= |old(journal)|
        invariant |old(journal)| > s.height ==> |journal| >= s.height
        invariant |old(journal)| <= s.height ==> journal == old(journal)
        invariant Unwind(View(), journal, s.height) == Unwind(old(View()), old(journal), s.height)
        decreases |journal|
      {
        PopJournal();
      }
      ghost var w := View();
      ViewRepresents();
      if s.root != trie {
        if s.height != 0 {
          return false;
        }
        trie := s.root;
        cache := map[];
      }
      suicides, logs, refunds, params := s.suicides, s.logs, s.refunds, s.params;
      if s.root == old(trie) {
        LogChanged(w, w.(suicides := s.suicides, logs := s.logs, refunds := s.refunds));
      }
      return true;
    }

    // ---- commit ----

    /** Writes every touched or deleted account to the account trie and forgets the cache and the journal. */
    method Commit(env: Env, allowEmpties: bool)
      requires Valid()
      modifies this, Accounts()
      ensures Valid() && cache == map[] && journal == []
      ensures suicides == old(suicides) && logs == old(logs) && refunds == old(refunds) && params == old(params)
      ensures forall a: Address :: Acct(View(), a) == Committed(env, allowEmpties, old(View()), old(trie), a)
    {
      hide View, CachedAccount.View, Loaded, Committed, TrieAcct, Slots, AcctAt, Written, Acct;
      ghost var w := View();
      CommitStart(env, allowEmpties);
      var pending := cache.Keys;
      while pending != {}
        invariant pending <= cache.Keys && cache == old(cache) && Valid()
        invariant suicides == old(suicides) && logs == old(logs) && refunds == old(refunds) && params == old(params)
        invariant forall a :: a in cache ==> cache[a].View() == Acct(w, a)
        invariant Written(env, allowEmpties, w, old(trie), trie, pending)
        decreases |pending|
      {
        var a :| a in pending;
        ghost var t := trie;
        WrittenPending(env, allowEmpties, w, old(trie), t, pending, a);
        CommitAccount(env, allowEmpties, a, w, old(trie));
        WrittenStep(env, allowEmpties, w, old(trie), t, trie, pending, a);
        pending := pending - {a};
      }
      cache := map[];
      journal := [];
      CommitEnd(env, allowEmpties, w, old(trie));
    }

    lemma CommitStart(env: Env, allowEmpties: bool)
      ensures forall a :: a in cache ==> cache[a].View() == Acct(View(), a)
      ensures Written(env, allowEmpties, View(), trie, trie, cache.Keys)
    {
      hide View, CachedAccount.View, Loaded, Committed, TrieAcct, Written;
      ViewRepresents();
      forall a: Address | a !in cache ensures Acct(View(), a) == TrieAcct(trie, a) { TrieView(a); }
      forall a: Address | a in cache ensures Acct(View(), a) == cache[a].View() { CachedAt(a); }
      WrittenNothing(env, allowEmpties, View(), trie, cache.Keys);
    }

    lemma CommitEnd(env: Env, allowEmpties: bool, w: World, before: map<Address, Record>)
      requires cache == map[] && Written(env, allowEmpties, w, before, trie, {})
      ensures forall a: Address :: Acct(View(), a) == Committed(env, allowEmpties, w, before, a)
    {
      hide View, CachedAccount.View, Loaded, Committed, TrieAcct, Written;
      WrittenAll(env, allowEmpties, w, before, trie);
      ViewRepresents();
      forall a: Address ensures Acct(View(), a) == Committed(env, allowEmpties, w, before, a) { TrieView(a); }
    }

    lemma CachedAt(a: Address)
      requires a in cache
      ensures Acct(View(), a) == cache[a].View()
    {
      ViewRepresents();
    }

    lemma TrieView(a: Address)
      requires a !in cache
      ensures AcctAt(a) == TrieAcct(trie, a)
    {
    }

    /** One turn of the loop. */
    method CommitAccount(env: Env, allowEmpties: bool, a: Address, ghost w: World, ghost before: map<Address, Record>)
      requires Valid() && a in cache && cache[a].View() == Acct(w, a) && TrieAcct(trie, a) == TrieAcct(before, a)
      modifies this, cache[a]
      ensures Valid() && cache == old(cache) && journal == old(journal)
      ensures suicides == old(suicides) && logs == old(logs) && refunds == old(refunds) && params == old(params)
      ensures cache[a].View() == old(cache[a].View())
      ensures forall b :: b != a ==> TrieAcct(trie, b) == TrieAcct(old(trie), b)
      ensures TrieAcct(trie, a) == Committed(env, allowEmpties, w, before, a)
    {
      hide View, CachedAccount.View, Slots, W.AccountExists, AcctAt;
      var acct := cache[a];
      PlainFields(acct);
      if acct.touched || acct.deleted {
        acct.Commit();
        var kept := AccountExists(env, a);
        CachedAt(a);
        ExistsAlike(env, View(), w, a);
        PlainFields(acct);
        StorageOf(acct);
        if kept || allowEmpties {
          trie := trie[a := Record(acct.nonce, acct.balance, acct.storageTrie, acct.code)];
        } else {
          trie := trie - {a};
        }
      }
    }
  }

  /** Every account outside `pending` is written. */
  ghost predicate Written(env: Env, allowEmpties: bool, w: World, before: map<Address, Record>,
      trie: map<Address, Record>, pending: set<Address>)
  {
    forall a: Address :: TrieAcct(trie, a) == if a in pending then TrieAcct(before, a)
                                              else Committed(env, allowEmpties, w, before, a)
  }

  lemma WrittenNothing(env: Env, allowEmpties: bool, w: World, trie: map<Address, Record>, pending: set<Address>)
    requires forall a: Address :: a !in pending ==> Acct(w, a) == TrieAcct(trie, a)
    ensures Written(env, allowEmpties, w, trie, trie, pending)
  {
    forall a: Address | a !in pending ensures TrieAcct(trie, a) == Committed(env, allowEmpties, w, trie, a) {
      CleanCommitted(env, allowEmpties, w, trie, a);
    }
  }

  lemma WrittenPending(env: Env, allowEmpties: bool, w: World, before: map<Address, Record>, trie: map<Address, Record>,
      pending: set<Address>, a: Address)
    requires Written(env, allowEmpties, w, before, trie, pending) && a in pending
    ensures TrieAcct(trie, a) == TrieAcct(before, a)
  {
  }

  lemma WrittenStep(env: Env, allowEmpties: bool, w: World, before: map<Address, Record>, trie: map<Address, Record>,
      trie': map<Address, Record>, pending: set<Address>, a: Address)
    requires Written(env, allowEmpties, w, before, trie, pending)
    requires forall b: Address :: b != a ==> TrieAcct(trie', b) == TrieAcct(trie, b)
    requires TrieAcct(trie', a) == Committed(env, allowEmpties, w, before, a)
    ensures Written(env, allowEmpties, w, before, trie', pending - {a})
  {
    hide TrieAcct, Committed;
  }

  lemma WrittenAll(env: Env, allowEmpties: bool, w: World, before: map<Address, Record>, trie: map<Address, Record>)
    ensures Written(env, allowEmpties, w, before, trie, {}) ==>
              forall a: Address :: TrieAcct(trie, a) == Committed(env, allowEmpties, w, before, a)
  {
  }

  lemma ExistsAlike(env: Env, w: World, w': World, a: Address)
    ensures Acct(w, a) == Acct(w', a) ==> (AccountExists(env, w, a) <==> AccountExists(env, w', a))
  {
  }

  /** An account that is not cached is the one the trie holds. */
  lemma CleanCommitted(env: Env, allowEmpties: bool, w: World, trie: map<Address, Record>, a: Address)
    requires Acct(w, a) == TrieAcct(trie, a)
    ensures Committed(env, allowEmpties, w, trie, a) == TrieAcct(trie, a)
  {
  }

  /** The account the trie holds. */
  function TrieAcct(trie: map<Address, Record>, a: Address): Account {
    if a in trie then Loaded(trie[a]) else BLANK_ACCOUNT
  }

  /** What a commit makes of an account. */
  function Committed(env: Env, allowEmpties: bool, w: World, trie: map<Address, Record>, a: Address): Account {
    var acct := Acct(w, a);
    if acct.touched || acct.deleted then
      if AccountExists(env, w, a) || allowEmpties then acct.(touched := false, deleted := false, existentAtStart := true)
      else BLANK_ACCOUNT
    else TrieAcct(trie, a)
  }
}
