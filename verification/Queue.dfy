/** The transaction queue of ethereum/transaction_queue.py: two binary heaps. */
module Queue {
  import opened ByteStrings

  const PRIO_INFINITY: int := -0x1_0000000000_0000000000_00000

  datatype Tx = Tx(startgas: int, gasprice: int, id: nat)

  datatype OrderableTx = OrderableTx(prio: int, counter: nat, tx: Tx)

  /** `__lt__`: by priority, then by age. */
  predicate Less(a: OrderableTx, b: OrderableTx) {
    a.prio < b.prio || (a.prio == b.prio && a.counter < b.counter)
  }

  // ---- binary heaps ----

  function Parent(i: nat): nat
    requires i > 0
  {
    (i - 1) / 2
  }

  predicate OrderedAt(h: seq<OrderableTx>, i: nat)
    requires 0 < i < |h|
  {
    !Less(h[i], h[Parent(i)])
  }

  predicate IsHeap(h: seq<OrderableTx>) {
    forall i :: 0 < i < |h| ==> OrderedAt(h, i)
  }

  /** No item is smaller than the top. */
  lemma {:induction false} TopIsLeast(h: seq<OrderableTx>, i: nat)
    requires IsHeap(h) && i < |h|
    ensures !Less(h[i], h[0])
  {
    if i > 0 {
      assert OrderedAt(h, i);
      TopIsLeast(h, Parent(i));
    }
  }

  function Swapped(h: seq<OrderableTx>, i: nat, j: nat): (r: seq<OrderableTx>)
    requires i < |h| && j < |h|
    ensures |r| == |h| && r[i] == h[j] && r[j] == h[i]
  {
    h[i := h[j]][j := h[i]]
  }

  lemma SwapKeeps(h: seq<OrderableTx>, i: nat, j: nat)
    requires i < |h| && j < |h|
    ensures multiset(Swapped(h, i, j)) == multiset(h)
  {
  }

  /** In order but for the item at pos, which may be smaller than its parent. */
  predicate RisingAt(h: seq<OrderableTx>, pos: nat) {
    && (forall i :: 0 < i < |h| && i != pos ==> OrderedAt(h, i))
    && (forall i :: 0 < i < |h| && Parent(i) == pos && pos > 0 && pos < |h| ==> !Less(h[i], h[Parent(pos)]))
  }

  lemma RiseStep(h: seq<OrderableTx>, pos: nat)
    requires 0 < pos < |h| && RisingAt(h, pos) && Less(h[pos], h[Parent(pos)])
    ensures RisingAt(Swapped(h, pos, Parent(pos)), Parent(pos))
  {
    var p := Parent(pos);
    var r := Swapped(h, pos, p);
    forall i | 0 < i < |r| && i != p ensures OrderedAt(r, i) {
      if i != pos { assert OrderedAt(h, i); }
    }
    if p > 0 {
      assert OrderedAt(h, p);
      forall i | 0 < i < |r| && Parent(i) == p ensures !Less(r[i], r[Parent(p)]) {
        if i != pos { assert OrderedAt(h, i); }
      }
    }
  }

  method HeapPush(heap: seq<OrderableTx>, item: OrderableTx) returns (h: seq<OrderableTx>)
    requires IsHeap(heap)
    ensures IsHeap(h) && multiset(h) == multiset(heap) + multiset{item}
  {
    h := heap + [item];
    var pos: nat := |heap|;
    forall i | 0 < i < |h| && i != pos ensures OrderedAt(h, i) { assert OrderedAt(heap, i); }
    while pos > 0 && Less(h[pos], h[Parent(pos)])
      invariant pos < |h| && RisingAt(h, pos)
      invariant multiset(h) == multiset(heap) + multiset{item}
    {
      RiseStep(h, pos);
      SwapKeeps(h, pos, Parent(pos));
      h := Swapped(h, pos, Parent(pos));
      pos := Parent(pos);
    }
  }

  /** In order but for the item at pos, which may be greater than its children. */
  predicate SinkingAt(h: seq<OrderableTx>, pos: nat) {
    && (forall i :: 0 < i < |h| && Parent(i) != pos ==> OrderedAt(h, i))
    && (forall i :: 0 < i < |h| && Parent(i) == pos && 0 < pos < |h| ==> !Less(h[i], h[Parent(pos)]))
  }

  lemma SinkStep(h: seq<OrderableTx>, pos: nat, c: nat)
    requires SinkingAt(h, pos) && 0 < c < |h| && Parent(c) == pos && pos < |h|
    requires forall i :: 0 < i < |h| && Parent(i) == pos ==> !Less(h[i], h[c])
    requires Less(h[c], h[pos])
    ensures SinkingAt(Swapped(h, pos, c), c)
  {
    var r := Swapped(h, pos, c);
    forall i | 0 < i < |r| && Parent(i) != c ensures OrderedAt(r, i) {
      if Parent(i) != pos { assert OrderedAt(h, i); }
    }
    forall i | 0 < i < |r| && Parent(i) == c ensures !Less(r[i], r[Parent(c)]) {
      assert OrderedAt(h, i);
    }
  }

  /** When no child is smaller than the sinking item, all is in order. */
  lemma SinkEnds(h: seq<OrderableTx>, pos: nat)
    requires SinkingAt(h, pos) && pos < |h|
    requires forall i :: 0 < i < |h| && Parent(i) == pos ==> !Less(h[i], h[pos])
    ensures IsHeap(h)
  {
  }

  method Sink(heap: seq<OrderableTx>) returns (h: seq<OrderableTx>)
    requires SinkingAt(heap, 0) && heap != []
    ensures IsHeap(h) && multiset(h) == multiset(heap)
  {
    h := heap;
    var pos: nat := 0;
    while 2 * pos + 1 < |h|
      invariant pos < |h| && SinkingAt(h, pos) && multiset(h) == multiset(heap)
      decreases |h| - pos
    {
      hide SinkingAt, IsHeap, Less;
      var c := 2 * pos + 1;
      if c + 1 < |h| && !Less(h[c], h[c + 1]) {
        c := c + 1;
      }
      LeastChild(h, pos, c);
      if !Less(h[c], h[pos]) {
        NoSmallerChild(h, pos, c);
        SinkEnds(h, pos);
        return;
      }
      SinkStep(h, pos, c);
      SwapKeeps(h, pos, c);
      h := Swapped(h, pos, c);
      pos := c;
    }
    SinkEnds(h, pos);
  }

  lemma LeastChild(h: seq<OrderableTx>, pos: nat, c: nat)
    requires pos < |h| && 2 * pos + 1 < |h|
    requires c == if 2 * pos + 2 < |h| && !Less(h[2 * pos + 1], h[2 * pos + 2]) then 2 * pos + 2 else 2 * pos + 1
    ensures Parent(c) == pos && forall i :: 0 < i < |h| && Parent(i) == pos ==> !Less(h[i], h[c])
  {
    forall i | 0 < i < |h| && Parent(i) == pos ensures !Less(h[i], h[c]) {
      assert i == 2 * pos + 1 || i == 2 * pos + 2;
    }
  }

  lemma NoSmallerChild(h: seq<OrderableTx>, pos: nat, c: nat)
    requires pos < |h| && c < |h| && !Less(h[c], h[pos])
    requires forall i :: 0 < i < |h| && Parent(i) == pos ==> !Less(h[i], h[c])
    ensures forall i :: 0 < i < |h| && Parent(i) == pos ==> !Less(h[i], h[pos])
  {
  }

  method HeapPop(heap: seq<OrderableTx>) returns (item: OrderableTx, h: seq<OrderableTx>)
    requires IsHeap(heap) && heap != []
    ensures item == heap[0] && IsHeap(h) && multiset(heap) == multiset(h) + multiset{item}
  {
    item := heap[0];
    var last := heap[|heap| - 1];
    h := heap[..|heap| - 1];
    assert heap == h + [last];
    if h == [] {
      return;
    }
    ghost var rest := h;
    ReplaceTop(heap, rest, last);
    h := Sink(h[0 := last]);
  }

  /** Taking the last item to the top. */
  lemma ReplaceTop(heap: seq<OrderableTx>, rest: seq<OrderableTx>, last: OrderableTx)
    requires IsHeap(heap) && heap == rest + [last] && rest != []
    ensures SinkingAt(rest[0 := last], 0)
    ensures multiset(heap) == multiset(rest[0 := last]) + multiset{heap[0]}
  {
    var h := rest[0 := last];
    forall i | 0 < i < |h| && Parent(i) != 0 ensures OrderedAt(h, i) { assert OrderedAt(heap, i); }
    assert rest == [heap[0]] + rest[1..] && h == [last] + rest[1..];
  }

  // ---- what the queue holds ----

  /** What stays of an item when its priority changes. */
  function Entry(x: OrderableTx): (nat, Tx) { (x.counter, x.tx) }

  ghost function Entries(m: multiset<OrderableTx>): multiset<(nat, Tx)>
    decreases |m|
  {
    if m == multiset{} then multiset{}
    else
      var x :| x in m;
      Entries(m - multiset{x}) + multiset{Entry(x)}
  }

  lemma {:induction false} EntriesRemove(m: multiset<OrderableTx>, x: OrderableTx)
    requires x in m
    ensures Entries(m) == Entries(m - multiset{x}) + multiset{Entry(x)}
    decreases |m|
  {
    var y :| y in m && Entries(m) == Entries(m - multiset{y}) + multiset{Entry(y)};
    if x != y {
      hide Entries;
      assert x in m - multiset{y} && y in m - multiset{x};
      EntriesRemove(m - multiset{y}, x);
      assert m - multiset{y} - multiset{x} == m - multiset{x} - multiset{y};
      EntriesRemove(m - multiset{x}, y);
      Exchange(Entries(m - multiset{y} - multiset{x}), Entry(x), Entry(y));
    }
  }

  lemma Exchange<T>(m: multiset<T>, x: T, y: T)
    ensures m + multiset{x} + multiset{y} == m + multiset{y} + multiset{x}
  {
  }

  /** Moving an item between the heaps keeps what is queued. */
  lemma EntriesMove(t: multiset<OrderableTx>, a: multiset<OrderableTx>, x: OrderableTx, y: OrderableTx)
    requires Entry(x) == Entry(y)
    ensures Entries(t + multiset{x}) + Entries(a) == Entries(t) + Entries(a + multiset{y})
  {
    hide Entries;
    EntriesAdd(t, x);
    EntriesAdd(a, y);
  }

  /** Bringing an item back changes no competitor. */
  lemma BackCompetes(t0: seq<OrderableTx>, a0: seq<OrderableTx>, t: seq<OrderableTx>, a: seq<OrderableTx>,
      item: OrderableTx)
    requires forall x :: x in a0 <==> x in a || x == item
    requires forall x :: x in t <==> x in t0 || x == Restored(item)
    ensures forall x :: Competes(t, a, x) <==> Competes(t0, a0, x)
  {
    hide Restored;
  }

  /** Setting an item aside that does not fit changes no competitor that fits. */
  lemma AsideCompetes(t0: seq<OrderableTx>, a0: seq<OrderableTx>, t: seq<OrderableTx>, a: seq<OrderableTx>,
      item: OrderableTx, maxGas: int)
    requires item.tx.startgas > maxGas
    requires forall x :: x in t0 <==> x in t || x == item
    requires forall x :: x in a <==> x in a0 || x == SetAside(item)
    ensures forall x: OrderableTx :: x.tx.startgas <= maxGas ==> (Competes(t, a, x) <==> Competes(t0, a0, x))
  {
    forall x: OrderableTx | x.tx.startgas <= maxGas ensures Competes(t, a, x) <==> Competes(t0, a0, x) {
      if Competes(t, a, x) && x !in t {
        var y :| y in a && x == Restored(y);
        assert y != SetAside(item);
      }
    }
  }

  lemma EntriesAdd(m: multiset<OrderableTx>, x: OrderableTx)
    ensures Entries(m + multiset{x}) == Entries(m) + multiset{Entry(x)}
  {
    EntriesRemove(m + multiset{x}, x);
    assert m + multiset{x} - multiset{x} == m;
  }

  /** An item that was set aside comes back with the priority of its gas price. */
  function Restored(x: OrderableTx): OrderableTx { x.(prio := -x.tx.gasprice) }

  function SetAside(x: OrderableTx): OrderableTx { x.(prio := x.tx.startgas) }

  /** An item with the priority it competes with: as it stands in the main heap, or restored from the other one. */
  ghost predicate Competes(txs: seq<OrderableTx>, aside: seq<OrderableTx>, x: OrderableTx) {
    x in txs || exists y :: y in aside && x == Restored(y)
  }

  /** Every queued transaction has a counter of its own, below the next one. */
  ghost predicate Numbered(queued: multiset<(nat, Tx)>, counter: nat) {
    && (forall e :: e in queued ==> queued[e] == 1 && e.0 < counter)
    && (forall e, f :: e in queued && f in queued && e.0 == f.0 ==> e == f)
  }

  lemma NumberedGrows(queued: multiset<(nat, Tx)>, counter: nat, tx: Tx)
    requires Numbered(queued, counter)
    ensures Numbered(queued + multiset{(counter, tx)}, counter + 1)
  {
  }

  lemma NumberedShrinks(queued: multiset<(nat, Tx)>, e: (nat, Tx), counter: nat)
    requires Numbered(queued + multiset{e}, counter)
    ensures Numbered(queued, counter)
  {
    forall f | f in queued ensures queued[f] == 1 && f.0 < counter {
      assert f in queued + multiset{e};
    }
    forall f, g | f in queued && g in queued && f.0 == g.0 ensures f == g {
      assert f in queued + multiset{e} && g in queued + multiset{e};
    }
  }

  lemma EntryIn(m: multiset<OrderableTx>, x: OrderableTx)
    requires x in m
    ensures Entry(x) in Entries(m)
  {
    EntriesRemove(m, x);
  }

  /** So an item never appears twice in the heaps. */
  lemma OneItem(t: multiset<OrderableTx>, a: multiset<OrderableTx>, counter: nat, x: OrderableTx, y: OrderableTx)
    requires Numbered(Entries(t) + Entries(a), counter) && x.counter == y.counter
    requires x in t || x in a
    requires y in t || y in a
    ensures x.tx == y.tx && (x == y || !(x in t && y in t)) && (x in t ==> y !in a)
  {
    hide Entries;
    OneEntry(t, a, counter, x, y);
    if x in t && y in t && x != y {
      EntriesRemove(t, x);
      assert y in t - multiset{x};
      EntryIn(t - multiset{x}, y);
    }
    if x in t && y in a {
      EntryIn(t, x);
      EntryIn(a, y);
    }
  }

  lemma OneEntry(t: multiset<OrderableTx>, a: multiset<OrderableTx>, counter: nat, x: OrderableTx, y: OrderableTx)
    requires Numbered(Entries(t) + Entries(a), counter) && x.counter == y.counter
    requires x in t || x in a
    requires y in t || y in a
    ensures Entry(x) == Entry(y) && (Entries(t) + Entries(a))[Entry(x)] == 1
  {
    hide Entries;
    if x in t { EntryIn(t, x); } else { EntryIn(a, x); }
    if y in t { EntryIn(t, y); } else { EntryIn(a, y); }
    assert Entry(x) in Entries(t) + Entries(a) && Entry(y) in Entries(t) + Entries(a);
  }

  /** The item as it lies in one of the heaps. */
  ghost function Origin(txs: seq<OrderableTx>, aside: seq<OrderableTx>, x: OrderableTx): (r: OrderableTx)
    requires Competes(txs, aside, x)
    ensures r.counter == x.counter && r.tx == x.tx
    ensures (r == x && r in txs) || (r in aside && x == Restored(r))
  {
    if x in txs then x
    else
      var y :| y in aside && x == Restored(y);
      y
  }

  /** Of two items that compete, one is ahead. */
  lemma OneIsAhead(txs: seq<OrderableTx>, aside: seq<OrderableTx>, counter: nat, x: OrderableTx, y: OrderableTx)
    requires Numbered(Entries(multiset(txs)) + Entries(multiset(aside)), counter)
    requires Competes(txs, aside, x) && Competes(txs, aside, y) && !Less(x, y)
    ensures x == y || Less(y, x)
  {
    hide Entries, Numbered;
    if x.prio == y.prio && x.counter == y.counter {
      OneItem(multiset(txs), multiset(aside), counter, Origin(txs, aside, x), Origin(txs, aside, y));
    }
  }

  class TransactionQueue {
    var counter: nat
    var txs: seq<OrderableTx>
    var aside: seq<OrderableTx>

    /** Both heaps are in order; items in the second one wait by their gas; the counters tell all items apart. */
    ghost predicate Valid()
      reads this
    {
      && IsHeap(txs) && IsHeap(aside) && (forall x :: x in aside ==> x.prio == x.tx.startgas)
      && Numbered(Queued(), counter)
    }

    ghost function Queued(): multiset<(nat, Tx)>
      reads this
    {
      Entries(multiset(txs)) + Entries(multiset(aside))
    }

    constructor ()
      ensures Valid() && txs == [] && aside == [] && counter == 0
    {
      counter, txs, aside := 0, [], [];
    }

    method AddTransaction(tx: Tx, force: bool)
      requires Valid()
      modifies this
      ensures Valid() && counter == old(counter) + 1 && aside == old(aside) && |txs| == |old(txs)| + 1
      ensures Queued() == old(Queued()) + multiset{(old(counter), tx)}
      ensures forall x :: x in txs <==> x in old(txs) || x == OrderableTx(if force then PRIO_INFINITY else -tx.gasprice, old(counter), tx)
    {
      hide Entries, IsHeap, Numbered;
      NumberedGrows(Queued(), counter, tx);
      var prio := if force then PRIO_INFINITY else -tx.gasprice;
      var item := OrderableTx(prio, counter, tx);
      EntriesAdd(multiset(txs), item);
      ghost var t0 := txs;
      txs := HeapPush(txs, item);
      Members(txs, t0, item);
      Sizes(txs, t0, item);
      assert Queued() == old(Queued()) + multiset{(counter, tx)};
      counter := counter + 1;
    }

    /** Moves an item from the second heap back to the main one. */
    method BringBack()
      requires Valid() && aside != []
      modifies `txs, `aside
      ensures Valid() && Queued() == old(Queued())
      ensures forall x :: Competes(txs, aside, x) <==> Competes(old(txs), old(aside), x)
      ensures |aside| == |old(aside)| - 1 && |txs| == |old(txs)| + 1
    {
      hide Entries, IsHeap, Competes, Numbered;
      ghost var t0, a0 := txs, aside;
      var item;
      item, aside := HeapPop(aside);
      txs := HeapPush(txs, Restored(item));
      EntriesMove(multiset(t0), multiset(aside), Restored(item), item);
      Members(a0, aside, item);
      Members(txs, t0, Restored(item));
      BackCompetes(t0, a0, txs, aside, item);
      Sizes(txs, t0, Restored(item));
      Sizes(a0, aside, item);
    }

    /** Moves the top of the main heap, which needs too much gas, to the second one. */
    method PutAside(ghost maxGas: int)
      requires Valid() && txs != [] && txs[0].tx.startgas > maxGas
      modifies `txs, `aside
      ensures Valid() && Queued() == old(Queued())
      ensures forall x: OrderableTx :: x.tx.startgas <= maxGas ==>
                (Competes(txs, aside, x) <==> Competes(old(txs), old(aside), x))
      ensures forall x :: x in aside ==> x in old(aside) || x.tx.startgas > maxGas
      ensures |txs| == |old(txs)| - 1 && forall x :: x in txs ==> x in old(txs)
    {
      hide Entries, IsHeap, Competes, Numbered;
      ghost var t0, a0 := txs, aside;
      var item;
      item, txs := HeapPop(txs);
      aside := HeapPush(aside, SetAside(item));
      EntriesMove(multiset(txs), multiset(a0), item, SetAside(item));
      Members(t0, txs, item);
      Members(aside, a0, SetAside(item));
      AsideCompetes(t0, a0, txs, aside, item, maxGas);
      Sizes(t0, txs, item);
    }

    /** The returned transaction is the first, by priority and then by age, among all queued ones that fit into maxGas,
        it is the only one removed, and both heaps stay in order. Nothing is returned only when nothing fits, when the
        first that fits is too cheap, or when the search gave up after setting maxSeekDepth transactions aside. */
    method PopTransaction(maxGas: int, maxSeekDepth: nat, minGasprice: int)
      returns (r: Option<Tx>, ghost item: Option<OrderableTx>, ghost moved: nat)
      requires Valid()
      modifies `txs, `aside
      ensures Valid() && r.Some? == item.Some? && moved <= maxSeekDepth
      ensures r == None ==> Queued() == old(Queued())
      ensures r.Some? ==>
                && item.value.tx == r.value && old(Queued()) == Queued() + multiset{Entry(item.value)}
                && Competes(old(txs), old(aside), item.value) && r.value.startgas <= maxGas
                && (r.value.gasprice >= minGasprice || item.value.prio == PRIO_INFINITY)
                && forall x :: Competes(old(txs), old(aside), x) && x.tx.startgas <= maxGas && x != item.value ==>
                     item.value.prio < x.prio || (item.value.prio == x.prio && item.value.counter < x.counter)
      ensures r == None && moved < maxSeekDepth ==>
                (txs == [] && forall x :: Competes(old(txs), old(aside), x) ==> x.tx.startgas > maxGas)
                || (exists y :: Competes(old(txs), old(aside), y) && y.tx.startgas <= maxGas
                      && y.tx.gasprice < minGasprice && y.prio != PRIO_INFINITY
                      && forall x :: Competes(old(txs), old(aside), x) && x.tx.startgas <= maxGas && x != y ==> Less(y, x))
      ensures moved > 0 ==> exists x :: Competes(old(txs), old(aside), x) && x.tx.startgas > maxGas
      ensures moved <= |old(txs)| + |old(aside)|
    {
      hide Entries, IsHeap, Competes, Less, Numbered;
      item, moved := None, 0;
      ghost var t0, a0 := txs, aside;
      ghost var big: Option<OrderableTx> := None;
      while |aside| > 0 && maxGas >= aside[0].prio
        invariant Valid() && Queued() == old(Queued())
        invariant forall x :: Competes(txs, aside, x) <==> Competes(t0, a0, x)
        invariant |txs| + |aside| == |t0| + |a0|
        decreases |aside|
      {
        BringBack();
      }
      AsideTooBig(aside, maxGas);
      AllCompete(txs, aside);
      var bound := if |txs| < maxSeekDepth then |txs| else maxSeekDepth;
      for i := 0 to bound
        invariant Valid() && Queued() == old(Queued()) && moved == i && |txs| + i >= bound
        invariant bound < maxSeekDepth ==> |txs| + i == bound
        invariant forall x: OrderableTx :: x.tx.startgas <= maxGas ==> (Competes(txs, aside, x) <==> Competes(t0, a0, x))
        invariant forall x :: x in aside ==> x.tx.startgas > maxGas
        invariant forall x :: x in txs ==> Competes(t0, a0, x)
        invariant i > 0 ==> big.Some? && Competes(t0, a0, big.value) && big.value.tx.startgas > maxGas
      {
        var top := txs[0];
        if top.tx.startgas > maxGas {
          big := Some(top);
          PutAside(maxGas);
          moved := moved + 1;
        } else {
          FirstFits(txs, aside, maxGas);
          FirstIsAhead(txs, aside, counter, maxGas);
          LessMeans(top);
          if top.tx.gasprice >= minGasprice || top.prio == PRIO_INFINITY {
            var x;
            x, txs := HeapPop(txs);
            EntriesTake(multiset(txs), multiset(aside), x);
            NumberedShrinks(Queued(), Entry(x), counter);
            item := Some(top);
            return Some(top.tx), item, moved;
          } else {
            return None, None, moved;
          }
        }
      }
      if bound < maxSeekDepth { NothingFits(txs, aside, maxGas); }
      return None, None, moved;
    }
  }

  lemma EntriesTake(t: multiset<OrderableTx>, a: multiset<OrderableTx>, x: OrderableTx)
    ensures Entries(t + multiset{x}) + Entries(a) == Entries(t) + Entries(a) + multiset{Entry(x)}
  {
    hide Entries;
    EntriesAdd(t, x);
  }

  lemma AllCompete(txs: seq<OrderableTx>, aside: seq<OrderableTx>)
    ensures forall x :: x in txs ==> Competes(txs, aside, x)
  {
  }

  lemma FirstIsAhead(txs: seq<OrderableTx>, aside: seq<OrderableTx>, counter: nat, maxGas: int)
    requires Numbered(Entries(multiset(txs)) + Entries(multiset(aside)), counter) && txs != []
    requires Competes(txs, aside, txs[0])
    requires forall x :: Competes(txs, aside, x) && x.tx.startgas <= maxGas ==> !Less(x, txs[0])
    ensures forall x :: Competes(txs, aside, x) && x.tx.startgas <= maxGas && x != txs[0] ==> Less(txs[0], x)
  {
    hide Entries, Numbered, Competes, Less;
    forall x | Competes(txs, aside, x) && x.tx.startgas <= maxGas && x != txs[0] ensures Less(txs[0], x) {
      OneIsAhead(txs, aside, counter, x, txs[0]);
    }
  }

  lemma LessMeans(a: OrderableTx)
    ensures forall b :: Less(a, b) ==> a.prio < b.prio || (a.prio == b.prio && a.counter < b.counter)
  {
  }

  lemma NothingFits(txs: seq<OrderableTx>, aside: seq<OrderableTx>, maxGas: int)
    requires txs == [] && forall x :: x in aside ==> x.tx.startgas > maxGas
    ensures forall x :: Competes(txs, aside, x) ==> x.tx.startgas > maxGas
  {
  }

  lemma Sizes(all: seq<OrderableTx>, rest: seq<OrderableTx>, item: OrderableTx)
    requires multiset(all) == multiset(rest) + multiset{item}
    ensures |all| == |rest| + 1
  {
    assert |all| == |multiset(all)| && |rest| == |multiset(rest)|;
  }

  lemma Members(all: seq<OrderableTx>, rest: seq<OrderableTx>, item: OrderableTx)
    requires multiset(all) == multiset(rest) + multiset{item}
    ensures forall x :: x in all <==> x in rest || x == item
  {
    forall x ensures x in all <==> x in rest || x == item {
      assert x in all <==> x in multiset(all);
      assert x in rest <==> x in multiset(rest);
    }
  }

  /** When the top of the second heap does not fit, nothing in it does. */
  lemma AsideTooBig(aside: seq<OrderableTx>, maxGas: int)
    requires IsHeap(aside) && (forall x :: x in aside ==> x.prio == x.tx.startgas)
    requires aside == [] || maxGas < aside[0].prio
    ensures forall x :: x in aside ==> x.tx.startgas > maxGas
  {
    forall x | x in aside ensures x.tx.startgas > maxGas {
      var i :| 0 <= i < |aside| && aside[i] == x;
      TopIsLeast(aside, i);
    }
  }

  /** When nothing in the second heap fits, the top of the main one comes first among all that fit. */
  lemma FirstFits(txs: seq<OrderableTx>, aside: seq<OrderableTx>, maxGas: int)
    requires IsHeap(txs) && txs != [] && (forall x :: x in aside ==> x.tx.startgas > maxGas)
    ensures Competes(txs, aside, txs[0])
    ensures forall x :: Competes(txs, aside, x) && x.tx.startgas <= maxGas ==> !Less(x, txs[0])
  {
    forall x | Competes(txs, aside, x) && x.tx.startgas <= maxGas ensures !Less(x, txs[0]) {
      if x in txs {
        var i :| 0 <= i < |txs| && txs[i] == x;
        TopIsLeast(txs, i);
      }
    }
  }

  /** Two queued transactions, the first one forced, and what they compete with as long as neither was set aside. */
  ghost predicate BothFresh(txs: seq<OrderableTx>, aside: seq<OrderableTx>, forced: Tx, other: Tx) {
    forall x :: Competes(txs, aside, x) <==> x == OrderableTx(PRIO_INFINITY, 0, forced) || x == OrderableTx(-other.gasprice, 1, other)
  }

  /** And once both were. */
  ghost predicate BothRestored(txs: seq<OrderableTx>, aside: seq<OrderableTx>, forced: Tx, other: Tx) {
    forall x :: Competes(txs, aside, x) <==> x == OrderableTx(-forced.gasprice, 0, forced) || x == OrderableTx(-other.gasprice, 1, other)
  }

  lemma RestoredBoth(aside: seq<OrderableTx>, forced: Tx, other: Tx)
    requires Entries(multiset(aside)) == multiset{(0, forced), (1, other)}
    ensures BothRestored([], aside, forced, other)
  {
    hide Entries;
    var m := multiset(aside);
    forall x | x in aside ensures Entry(x) == (0, forced) || Entry(x) == (1, other) {
      EntryIn(m, x);
      assert Entry(x) in Entries(m);
    }
    var f, o := Holder(m, (0, forced)), Holder(m, (1, other));
    assert f in aside && o in aside;
    assert Competes([], aside, Restored(f)) && Competes([], aside, Restored(o));
    assert forall x :: Competes([], aside, x) ==> exists y :: y in aside && x == Restored(y);
  }

  ghost function Holder(m: multiset<OrderableTx>, e: (nat, Tx)): (x: OrderableTx)
    requires e in Entries(m)
    ensures x in m && Entry(x) == e
    decreases |m|
  {
    var x :| x in m && Entries(m) == Entries(m - multiset{x}) + multiset{Entry(x)};
    if Entry(x) == e then x else Holder(m - multiset{x}, e)
  }

  /** A queue with a forced transaction and another one. */
  method ForcedAndOther(forced: Tx, other: Tx) returns (q: TransactionQueue)
    ensures fresh(q) && q.Valid() && BothFresh(q.txs, q.aside, forced, other)
    ensures q.Queued() == multiset{(0, forced), (1, other)} && |q.txs| + |q.aside| == 2
  {
    hide Entries, IsHeap, Numbered;
    q := new TransactionQueue();
    NoEntries();
    q.AddTransaction(forced, true);
    q.AddTransaction(other, false);
  }

  lemma NoEntries()
    ensures Entries(multiset{}) == multiset{}
  {
  }

  /** A forced transaction is ahead of every other one with a gas price below 2^100, but only until it is set aside for its
      gas: then it comes back with the priority of its gas price, and the other one is popped first. */
  method ForceIsLostAside(forced: Tx, other: Tx, low: int, high: int) returns (direct: Option<Tx>, late: Option<Tx>)
    requires low < forced.startgas <= high && low < other.startgas <= high
    requires 0 <= forced.gasprice < other.gasprice < -PRIO_INFINITY
    ensures direct == Some(forced) && late == Some(other)
  {
    hide Entries, IsHeap, Numbered, Competes, Restored;
    direct := PopOnce(forced, other, low, high);
    late := PopTwice(forced, other, low, high);
  }

  method PopOnce(forced: Tx, other: Tx, low: int, high: int) returns (r: Option<Tx>)
    requires low < forced.startgas <= high && low < other.startgas <= high
    requires 0 <= forced.gasprice < other.gasprice < -PRIO_INFINITY
    ensures r == Some(forced)
  {
    hide Entries, IsHeap, Numbered, Competes, Restored;
    var q := ForcedAndOther(forced, other);
    ghost var first := OrderableTx(PRIO_INFINITY, 0, forced);
    assert Competes(q.txs, q.aside, first);
    ghost var item, moved;
    r, item, moved := q.PopTransaction(high, 16, 0);
  }

  method PopTwice(forced: Tx, other: Tx, low: int, high: int) returns (r: Option<Tx>)
    requires low < forced.startgas <= high && low < other.startgas <= high
    requires 0 <= forced.gasprice < other.gasprice < -PRIO_INFINITY
    ensures r == Some(other)
  {
    hide Entries, IsHeap, Numbered, Competes, Restored;
    var q := ForcedAndOther(forced, other);
    ghost var item, moved;
    r, item, moved := q.PopTransaction(low, 16, 0);
    assert r == None && q.txs == [];
    NoEntries();
    assert multiset(q.txs) == multiset{};
    RestoredBoth(q.aside, forced, other);
    ghost var best := OrderableTx(-other.gasprice, 1, other);
    assert Competes(q.txs, q.aside, best);
    r, item, moved := q.PopTransaction(high, 16, 0);
  }
}
