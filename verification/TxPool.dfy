// The transaction pool (chain/tx_pool.go): events become transactions with
// consecutive nonces, enter their sender's queue and are promoted to its
// pending list.
module TxPool {
  import opened Options
  import opened Limits
  import opened NonceHeap
  import opened TxList
  import opened Batches

  type Lists = map<Address, TxSortedMap>

  // What the lists hold, by address.
  type Contents = map<Address, Items>

  // Every list is valid and serves one address in one role.
  ghost predicate Kept(lists: Lists, role: Role, repr: set<TxSortedMap>)
    reads repr
  {
    forall a :: a in lists ==> lists[a] in repr && lists[a].Valid() && lists[a].owner == Owner(role, a)
  }

  ghost function Snap(lists: Lists, role: Role, repr: set<TxSortedMap>): Contents
    requires Kept(lists, role, repr)
    reads repr
  {
    map a | a in lists :: lists[a].items
  }

  ghost function ItemsAt(snap: Contents, a: Address): Items
  {
    if a in snap then snap[a] else map[]
  }

  // Put a transaction into the list of an address, creating the list if needed.
  method PutInto(lists: Lists, ghost role: Role, ghost repr: set<TxSortedMap>, addr: Address, tx: Transaction)
    returns (out: Lists, ghost repr': set<TxSortedMap>)
    requires Kept(lists, role, repr)
    modifies if addr in lists then {lists[addr]} else {}
    ensures repr <= repr' && fresh(repr' - repr) && Kept(out, role, repr')
    ensures var before := old(Snap(lists, role, repr));
      Snap(out, role, repr') == before[addr := ItemsAt(before, addr)[tx.nonce := tx]]
  {
    hide TxSortedMap.Valid;
    out, repr' := lists, repr;
    if addr !in out {
      var created := new TxSortedMap(Owner(role, addr));
      out, repr' := out[addr := created], repr' + {created};
    }
    var list := out[addr];
    list.Put(tx);
  }

  // The transaction that event number n became.
  function TxAt(history: seq<OracleRequest>, n: Nonce): Transaction
    requires 1 <= n <= |history|
  {
    Transaction(history[n - 1].chainId, history[n - 1], n)
  }

  // The transactions of sender a in a history of events.
  ghost function SentBy(history: seq<OracleRequest>, a: Address): Items
  {
    map n: Nonce | 1 <= n <= |history| && history[n - 1].bridge == a :: TxAt(history, n)
  }

  lemma SentByNext(history: seq<OracleRequest>, ev: OracleRequest, a: Address)
    requires |history| + 1 < TWO_64
    ensures var h := history + [ev];
      SentBy(h, a) == if a == ev.bridge then SentBy(history, a)[|h| := TxAt(h, |h|)] else SentBy(history, a)
  {
    var h := history + [ev];
    var r := if a == ev.bridge then SentBy(history, a)[|h| := TxAt(h, |h|)] else SentBy(history, a);
    forall n: Nonce
      ensures n in SentBy(h, a) <==> n in r
      ensures n in r ==> SentBy(h, a)[n] == r[n]
    {
    }
  }

  // Each sender's list holds exactly the transactions made from its events.
  ghost predicate Complete(snap: Contents, history: seq<OracleRequest>)
  {
    forall a :: ItemsAt(snap, a) == SentBy(history, a)
  }

  lemma CompleteNext(snap: Contents, history: seq<OracleRequest>, ev: OracleRequest, tx: Transaction)
    requires Complete(snap, history) && |history| + 1 < TWO_64
    requires tx == Transaction(ev.chainId, ev, |history| + 1)
    ensures Complete(snap[ev.bridge := ItemsAt(snap, ev.bridge)[tx.nonce := tx]], history + [ev])
  {
    var after := snap[ev.bridge := ItemsAt(snap, ev.bridge)[tx.nonce := tx]];
    forall a
      ensures ItemsAt(after, a) == SentBy(history + [ev], a)
    {
      SentByNext(history, ev, a);
    }
  }

  // The map with the listed transactions put in one after the other.
  function PutAll(items: Items, txs: seq<Transaction>): Items
  {
    if txs == [] then items else PutAll(items, txs[..|txs| - 1])[txs[|txs| - 1].nonce := txs[|txs| - 1]]
  }

  ghost predicate HasNonce(txs: seq<Transaction>, n: Nonce)
  {
    exists i :: 0 <= i < |txs| && txs[i].nonce == n
  }

  lemma HasNonceSnoc(txs: seq<Transaction>, n: Nonce)
    requires txs != []
    ensures HasNonce(txs, n) <==> HasNonce(txs[..|txs| - 1], n) || txs[|txs| - 1].nonce == n
  {
    var init := txs[..|txs| - 1];
    if HasNonce(init, n) {
      var i :| 0 <= i < |init| && init[i].nonce == n;
      assert txs[i].nonce == n;
    }
    if HasNonce(txs, n) && txs[|txs| - 1].nonce != n {
      var i :| 0 <= i < |txs| && txs[i].nonce == n;
      assert init[i].nonce == n;
    }
  }

  lemma {:induction false} PutAllHolds(items: Items, txs: seq<Transaction>, n: Nonce)
    ensures HasNonce(txs, n) ==> n in PutAll(items, txs) && PutAll(items, txs)[n] in txs
    ensures HasNonce(txs, n) ==> PutAll(items, txs)[n].nonce == n
    ensures !HasNonce(txs, n) ==> (n in PutAll(items, txs) <==> n in items)
    ensures !HasNonce(txs, n) && n in items ==> PutAll(items, txs)[n] == items[n]
    decreases |txs|
  {
    hide HasNonce;
    if txs != [] {
      var init, last := txs[..|txs| - 1], txs[|txs| - 1];
      assert txs == init + [last];
      HasNonceSnoc(txs, n);
      PutAllHolds(items, init, n);
    } else {
      NoNonce(n);
    }
  }

  lemma NoNonce(n: Nonce)
    ensures !HasNonce([], n)
  {
  }

  lemma PutAllFlat(items: Items, more: Items, txs: seq<Transaction>)
    requires Keyed(more) && Flat(more, txs)
    ensures PutAll(items, txs) == items + more
  {
    var r := PutAll(items, txs);
    forall n: Nonce
      ensures n in r <==> n in items + more
      ensures n in r ==> r[n] == (items + more)[n]
    {
      PutAllHolds(items, txs, n);
      if n in more {
        assert more[n] in txs;
        var i :| 0 <= i < |txs| && txs[i] == more[n];
        assert HasNonce(txs, n);
      }
    }
  }

  lemma SingleReady(tx: Transaction, start: Nonce)
    requires tx.nonce <= start
    ensures ReadyKeys(map[tx.nonce := tx], start) == {tx.nonce}
  {
    var items: Items := map[tx.nonce := tx];
    assert tx.nonce in items;
  }

  class TxPool {
    var nonce: Nonce
    var pending: Lists
    var queue: Lists
    ghost var repr: set<TxSortedMap>
    ghost var history: seq<OracleRequest>

    ghost predicate Valid()
      reads this, repr
    {
      Kept(pending, Role.Pending, repr) && Kept(queue, Role.Queue, repr)
    }

    ghost function PendingItems(): Contents
      requires Valid()
      reads this, repr
    {
      Snap(pending, Role.Pending, repr)
    }

    ghost function QueuedItems(): Contents
      requires Valid()
      reads this, repr
    {
      Snap(queue, Role.Queue, repr)
    }

    // No event is lost or duplicated.
    ghost predicate Conserved()
      requires Valid()
      reads this, repr
    {
      QueuedItems() == map[] && nonce == |history| + 1 && Complete(PendingItems(), history)
    }

    constructor ()
      ensures Valid() && Conserved() && history == [] && repr == {}
    {
      nonce, pending, queue, repr, history := 1, map[], map[], {}, [];
    }

    // promoteTx
    method PromoteTx(addr: Address, tx: Transaction)
      requires Valid()
      modifies this`pending, this`repr, repr
      ensures Valid() && old(repr) <= repr && fresh(repr - old(repr))
      ensures PendingItems() == old(PendingItems())[addr := ItemsAt(old(PendingItems()), addr)[tx.nonce := tx]]
      ensures QueuedItems() == old(QueuedItems())
    {
      hide TxSortedMap.Valid;
      pending, repr := PutInto(pending, Role.Pending, repr, addr, tx);
    }

    // add
    method Add(tx: Transaction)
      requires Valid()
      modifies this`queue, this`repr, repr
      ensures Valid() && old(repr) <= repr && fresh(repr - old(repr))
      ensures var q, a := old(QueuedItems()), tx.origin.bridge;
        QueuedItems() == q[a := ItemsAt(q, a)[tx.nonce := tx]]
      ensures PendingItems() == old(PendingItems())
    {
      hide TxSortedMap.Valid;
      queue, repr := PutInto(queue, Role.Queue, repr, tx.origin.bridge, tx);
    }

    // Take the ready transactions out of the queue of one account.
    method TakeReady(addr: Address) returns (txs: seq<Transaction>)
      requires Valid() && addr in queue
      modifies this`queue, repr
      ensures Valid()
      ensures var q := old(QueuedItems())[addr]; var ready := ReadyKeys(q, nonce);
        && Keyed(q) && Flat(Restrict(q, ready), txs)
        && QueuedItems() ==
           if q - ready == map[] then old(QueuedItems()) - {addr} else old(QueuedItems())[addr := q - ready]
      ensures PendingItems() == old(PendingItems())
    {
      hide TxSortedMap.Valid;
      hide ReadyKeys;
      hide Restrict;
      hide Flat;
      hide Keyed;
      var list := queue[addr];
      list.IsKeyed();
      txs := list.Ready(nonce);
      if list.items == map[] {
        queue := queue - {addr};
      }
    }

    // promoteExecutables for one account.
    method PromoteAccount(addr: Address)
      requires Valid() && addr in queue
      modifies this`pending, this`queue, this`repr, repr
      ensures Valid() && old(repr) <= repr && fresh(repr - old(repr))
      ensures Promotion(true, QueuedItems(), PendingItems())
           == PromoteAt(old(QueuedItems()), old(PendingItems()), addr, nonce)
    {
      hide TxSortedMap.Valid;
      var txs := TakeReady(addr);
      ghost var queued := QueuedItems();
      for k := 0 to |txs|
        invariant Valid() && old(repr) <= repr && fresh(repr - old(repr))
        invariant QueuedItems() == queued
        invariant PendingItems() == PromotedList(old(PendingItems()), addr, txs[..k])
      {
        PromoteTx(addr, txs[k]);
        PromotedNext(old(PendingItems()), addr, txs, k);
      }
      assert txs[..|txs|] == txs;
      ghost var q := old(QueuedItems())[addr];
      PromotedAll(old(PendingItems()), addr, Restrict(q, ReadyKeys(q, nonce)), txs);
    }

    // promoteExecutables: each listed account hands its ready transactions over
    // to its pending list, without a list every account of the queue in the
    // order of the map; an unknown account panics (`ok` is false).
    method PromoteExecutables(accounts: Option<seq<Address>>) returns (ok: bool, ghost listed: seq<Address>)
      requires Valid()
      modifies this`pending, this`queue, this`repr, repr
      ensures Valid() && old(repr) <= repr && fresh(repr - old(repr))
      ensures accounts.Some? ==> listed == accounts.value
      ensures accounts.None? ==> Distinct(listed) && forall a :: a in listed <==> a in old(QueuedItems())
      ensures Promotion(ok, QueuedItems(), PendingItems())
           == PromoteEach(old(QueuedItems()), old(PendingItems()), listed, nonce)
    {
      hide TxSortedMap.Valid;
      hide PromoteEach;
      var adds;
      if accounts.Some? { adds := accounts.value; } else { adds := Addresses(queue.Keys); }
      listed := adds;
      ok := PromoteListed(adds);
    }

    method PromoteListed(adds: seq<Address>) returns (ok: bool)
      requires Valid()
      modifies this`pending, this`queue, this`repr, repr
      ensures Valid() && old(repr) <= repr && fresh(repr - old(repr))
      ensures Promotion(ok, QueuedItems(), PendingItems())
           == PromoteEach(old(QueuedItems()), old(PendingItems()), adds, nonce)
    {
      hide TxSortedMap.Valid;
      ghost var q, p := QueuedItems(), PendingItems();
      EachStart(q, p, adds, nonce);
      hide PromoteAt;
      hide PromoteEach;
      for k := 0 to |adds|
        invariant Valid() && old(repr) <= repr && fresh(repr - old(repr))
        invariant PromoteEach(q, p, adds[..k], nonce) == Promotion(true, QueuedItems(), PendingItems())
      {
        EachNext(q, p, adds, k, nonce);
        if adds[k] !in queue {
          PanicStays(q, p, adds, k + 1, nonce);
          return false;
        }
        PromoteAccount(adds[k]);
      }
      assert adds[..|adds|] == adds;
      ok := true;
    }

    // AddEvent: number the event, queue it, promote what is ready.  The queue is
    // empty between calls.  Nothing is lost before the nonce wraps around.
    method AddEvent(ev: OracleRequest)
      requires Valid() && QueuedItems() == map[]
      modifies this, repr
      ensures Valid() && fresh(repr - old(repr)) && QueuedItems() == map[]
      ensures history == old(history) + [ev]
      ensures nonce == if old(nonce) + 1 == TWO_64 then 0 else old(nonce) + 1
      ensures var tx := Transaction(ev.chainId, ev, old(nonce));
        PendingItems() == old(PendingItems())[ev.bridge := ItemsAt(old(PendingItems()), ev.bridge)[tx.nonce := tx]]
      ensures old(Conserved()) && old(nonce) + 1 < TWO_64 ==> Conserved()
    {
      hide TxSortedMap.Valid;
      hide Complete;
      hide MovedAll;
      hide PromoteEach;
      var tx := Transaction(ev.chainId, ev, nonce);
      Add(tx);
      assert QueuedItems() == map[ev.bridge := map[tx.nonce := tx]];
      ghost var q := QueuedItems();
      var ok, _ := PromoteExecutables(Some([ev.bridge]));
      EachMoves(q, old(PendingItems()), [ev.bridge], nonce);
      OneHanded(old(PendingItems()), QueuedItems(), PendingItems(), tx, ev.bridge, nonce);
      history := history + [ev];
      nonce := if nonce + 1 == TWO_64 then 0 else nonce + 1;
      if old(Conserved()) && old(nonce) + 1 < TWO_64 {
        CompleteNext(old(PendingItems()), old(history), ev, tx);
      }
    }

    // Pending: each sender's transactions in nonce order.
    method Pending() returns (batches: Batches.Pending)
      requires Valid()
      modifies repr`cache
      ensures Valid() && PendingItems() == old(PendingItems()) && QueuedItems() == old(QueuedItems())
      ensures batches.Keys == PendingItems().Keys
      ensures forall a :: a in batches ==> Flat(PendingItems()[a], batches[a])
    {
      hide TxSortedMap.Valid;
      batches := map[];
      var todo := pending.Keys;
      while todo != {}
        invariant Valid() && PendingItems() == old(PendingItems()) && QueuedItems() == old(QueuedItems())
        invariant todo <= pending.Keys && batches.Keys == pending.Keys - todo
        invariant forall a :: a in batches ==> Flat(PendingItems()[a], batches[a])
        decreases todo
      {
        var a :| a in todo;
        var txs := FlattenAt(a);
        batches := batches[a := txs];
        todo := todo - {a};
      }
    }

    method FlattenAt(a: Address) returns (txs: seq<Transaction>)
      requires Valid() && a in pending
      modifies repr`cache
      ensures Valid() && PendingItems() == old(PendingItems()) && QueuedItems() == old(QueuedItems())
      ensures Flat(PendingItems()[a], txs)
    {
      hide TxSortedMap.Valid;
      txs := pending[a].Flatten();
    }

    // PendingByChainId: the pending transactions grouped by destination chain.
    method PendingByChainId()
      returns (groups: map<Nonce, seq<Transaction>>, ghost batches: Batches.Pending, ghost order: seq<Address>)
      requires Valid()
      modifies repr`cache
      ensures Valid() && PendingItems() == old(PendingItems()) && QueuedItems() == old(QueuedItems())
      ensures batches.Keys == PendingItems().Keys && Order(batches, order)
      ensures forall a :: a in batches ==> Flat(PendingItems()[a], batches[a])
      ensures forall k :: k in groups <==> exists x :: x in Concat(batches, order) && x.chainId == k
      ensures forall k :: k in groups ==> groups[k] == ByChain(Concat(batches, order), k)
    {
      hide TxSortedMap.Valid;
      var all := Pending();
      batches := all;
      groups, order := GroupByChain(all);
    }
  }

  ghost function Ready(queued: Contents, a: Address, start: Nonce): set<Nonce>
  {
    ReadyKeys(ItemsAt(queued, a), start)
  }

  // At address a the ready nonces went from the queue to pending; a queue that
  // became empty is gone.
  ghost predicate Handed(q: Contents, p: Contents, q1: Contents, p1: Contents,
                         a: Address, start: Nonce)
  {
    var ready := Ready(q, a, start);
    && ItemsAt(q1, a) == ItemsAt(q, a) - ready
    && ItemsAt(p1, a) == ItemsAt(p, a) + Restrict(ItemsAt(q, a), ready)
    && (a in q1 <==> ItemsAt(q, a) - ready != map[])
    && (a in p1 <==> a in p || Restrict(ItemsAt(q, a), ready) != map[])
  }

  ghost predicate Untouched(q: Contents, q1: Contents, a: Address)
  {
    (a in q1 <==> a in q) && ItemsAt(q1, a) == ItemsAt(q, a)
  }

  // The ready transactions of the listed accounts moved, and nothing else.
  ghost predicate MovedAll(q: Contents, p: Contents, q1: Contents, p1: Contents,
                           accounts: seq<Address>, start: Nonce)
  {
    && (forall a :: a in accounts ==> Handed(q, p, q1, p1, a, start))
    && (forall a :: a !in accounts ==> Untouched(q, q1, a) && Untouched(p, p1, a))
  }

  ghost predicate Distinct(accounts: seq<Address>)
  {
    forall i, j :: 0 <= i < j < |accounts| ==> accounts[i] != accounts[j]
  }

  // The keys of a map in some order.
  method Addresses(keys: set<Address>) returns (s: seq<Address>)
    ensures Distinct(s) && forall a :: a in s <==> a in keys
  {
    s := [];
    var todo := keys;
    while todo != {}
      invariant todo <= keys && Distinct(s)
      invariant forall a :: a in s <==> a in keys && a !in todo
      decreases todo
    {
      var a :| a in todo;
      s := s + [a];
      todo := todo - {a};
    }
  }

  // Queue and pending lists after promotion; not ok is the panic.
  datatype Promotion = Promotion(ok: bool, queue: Contents, pending: Contents)

  ghost function PromoteAt(q: Contents, p: Contents, addr: Address, start: Nonce): Promotion
    requires addr in q
  {
    var ready := ReadyKeys(q[addr], start);
    var rest := q[addr] - ready;
    Promotion(true, if rest == map[] then q - {addr} else q[addr := rest], Promoted(p, addr, Restrict(q[addr], ready)))
  }

  // One account after another until one is unknown.
  ghost function PromoteEach(q: Contents, p: Contents, accounts: seq<Address>, start: Nonce): Promotion
    decreases |accounts|
  {
    if accounts == [] then Promotion(true, q, p)
    else
      var r := PromoteEach(q, p, accounts[..|accounts| - 1], start);
      var a := accounts[|accounts| - 1];
      if r.ok && a in r.queue then PromoteAt(r.queue, r.pending, a, start) else r.(ok := false)
  }

  lemma EachStart(q: Contents, p: Contents, accounts: seq<Address>, start: Nonce)
    ensures PromoteEach(q, p, accounts[..0], start) == Promotion(true, q, p)
  {
  }

  lemma EachNext(q: Contents, p: Contents, accounts: seq<Address>, k: nat, start: Nonce)
    requires k < |accounts|
    ensures var r := PromoteEach(q, p, accounts[..k], start);
      PromoteEach(q, p, accounts[..k + 1], start) ==
        if r.ok && accounts[k] in r.queue then PromoteAt(r.queue, r.pending, accounts[k], start) else r.(ok := false)
  {
    assert accounts[..k + 1][..k] == accounts[..k];
  }

  lemma {:induction false} PanicStays(q: Contents, p: Contents, accounts: seq<Address>, k: nat, start: Nonce)
    requires k <= |accounts| && !PromoteEach(q, p, accounts[..k], start).ok
    ensures PromoteEach(q, p, accounts, start) == PromoteEach(q, p, accounts[..k], start)
    decreases |accounts|
  {
    if k == |accounts| {
      assert accounts[..k] == accounts;
    } else {
      var init := accounts[..|accounts| - 1];
      assert init[..k] == accounts[..k];
      PanicStays(q, p, init, k, start);
    }
  }

  // For different accounts: no panic exactly when all are known, and then
  // exactly their ready transactions move.
  lemma {:induction false} EachMoves(q: Contents, p: Contents, accounts: seq<Address>, start: Nonce)
    requires Distinct(accounts)
    ensures var r := PromoteEach(q, p, accounts, start);
      && (r.ok <==> forall a :: a in accounts ==> a in q)
      && (r.ok ==> MovedAll(q, p, r.queue, r.pending, accounts, start))
    decreases |accounts|
  {
    if accounts != [] {
      var init, a := accounts[..|accounts| - 1], accounts[|accounts| - 1];
      assert accounts == init + [a];
      EachMoves(q, p, init, start);
      var r := PromoteEach(q, p, init, start);
      if r.ok {
        assert a !in init;
        assert Untouched(q, r.queue, a);
        if a in q {
          var s := PromoteAt(r.queue, r.pending, a, start);
          MovedNext(q, p, r.queue, r.pending, s.queue, s.pending, init, a, start);
        }
      }
    }
  }

  // One promoted account after another.
  lemma MovedNext(q: Contents, p: Contents, q1: Contents, p1: Contents,
                  q2: Contents, p2: Contents, accounts: seq<Address>, addr: Address, start: Nonce)
    requires MovedAll(q, p, q1, p1, accounts, start) && addr !in accounts && addr in q1
    requires Promotion(true, q2, p2) == PromoteAt(q1, p1, addr, start)
    ensures MovedAll(q, p, q2, p2, accounts + [addr], start)
  {
    assert Untouched(q, q1, addr) && Untouched(p, p1, addr);
    HandedAt(q, p, q1, p1, q2, p2, addr, start);
    forall a | a in accounts
      ensures Handed(q, p, q2, p2, a, start)
    {
      assert Handed(q, p, q1, p1, a, start);
      HandedElsewhere(q, p, q1, p1, q2, p2, a, addr, start);
    }
    forall a | a !in accounts + [addr]
      ensures Untouched(q, q2, a) && Untouched(p, p2, a)
    {
      assert Untouched(q, q1, a) && Untouched(p, p1, a);
    }
  }

  // Promotion at one address leaves the others alone.
  lemma HandedElsewhere(q: Contents, p: Contents, q1: Contents, p1: Contents,
                        q2: Contents, p2: Contents, a: Address, addr: Address, start: Nonce)
    requires Handed(q, p, q1, p1, a, start) && a != addr && addr in q1
    requires Promotion(true, q2, p2) == PromoteAt(q1, p1, addr, start)
    ensures Handed(q, p, q2, p2, a, start)
  {
    hide Ready;
    hide Restrict;
    hide ReadyKeys;
    assert Untouched(q1, q2, a) && Untouched(p1, p2, a);
  }

  lemma HandedAt(q: Contents, p: Contents, q1: Contents, p1: Contents,
                 q2: Contents, p2: Contents, addr: Address, start: Nonce)
    requires Untouched(q, q1, addr) && Untouched(p, p1, addr) && addr in q1
    requires Promotion(true, q2, p2) == PromoteAt(q1, p1, addr, start)
    ensures Handed(q, p, q2, p2, addr, start)
  {
    var more := Restrict(q1[addr], ReadyKeys(q1[addr], start));
    assert ItemsAt(p1, addr) + more == ItemsAt(p2, addr);
  }

  // A queue that holds one new transaction only is emptied into pending.
  lemma OneHanded(p: Contents, q1: Contents, p1: Contents, tx: Transaction, addr: Address, start: Nonce)
    requires tx.nonce <= start && MovedAll(map[addr := map[tx.nonce := tx]], p, q1, p1, [addr], start)
    ensures q1 == map[] && p1 == p[addr := ItemsAt(p, addr)[tx.nonce := tx]]
  {
    var one: Items := map[tx.nonce := tx];
    var q: Contents := map[addr := one];
    SingleReady(tx, start);
    assert Handed(q, p, q1, p1, addr, start);
    assert tx.nonce in one;
    assert one - {tx.nonce} == map[];
    assert Restrict(one, {tx.nonce}) == one;
    assert ItemsAt(p, addr) + one == ItemsAt(p, addr)[tx.nonce := tx];
    assert q1 == map[] by {
      forall a
        ensures a !in q1
      {
        if a != addr { assert Untouched(q, q1, a); }
      }
    }
    var r := p[addr := ItemsAt(p, addr)[tx.nonce := tx]];
    forall a
      ensures a in p1 <==> a in r
      ensures a in r ==> p1[a] == r[a]
    {
      if a == addr {
        assert addr in p1 && p1[addr] == ItemsAt(p1, addr);
      } else {
        assert Untouched(p, p1, a);
        assert a in p ==> p1[a] == ItemsAt(p1, a) == ItemsAt(p, a) == p[a];
      }
    }
  }

  // Pending contents after transactions were promoted at one address.
  ghost function Promoted(snap: Contents, addr: Address, more: Items): Contents
  {
    if more == map[] then snap else snap[addr := ItemsAt(snap, addr) + more]
  }

  ghost function PromotedList(snap: Contents, addr: Address, txs: seq<Transaction>): Contents
  {
    if txs == [] then snap else snap[addr := PutAll(ItemsAt(snap, addr), txs)]
  }

  lemma PromotedNext(snap: Contents, addr: Address, txs: seq<Transaction>, k: nat)
    requires k < |txs|
    ensures var p := PromotedList(snap, addr, txs[..k]);
      PromotedList(snap, addr, txs[..k + 1]) == p[addr := ItemsAt(p, addr)[txs[k].nonce := txs[k]]]
  {
    assert txs[..k + 1][..k] == txs[..k];
  }

  lemma PromotedAll(snap: Contents, addr: Address, more: Items, txs: seq<Transaction>)
    requires Keyed(more) && Flat(more, txs)
    ensures PromotedList(snap, addr, txs) == Promoted(snap, addr, more)
  {
    PutAllFlat(ItemsAt(snap, addr), more, txs);
    assert txs == [] || txs[0] in txs;
    assert more == map[] || exists n: Nonce :: n in more;
    if n: Nonce :| n in more { assert more[n] in txs; }
  }

  // x is the transaction of one of the events.
  ghost predicate FromHistory(history: seq<OracleRequest>, x: Transaction)
  {
    1 <= x.nonce <= |history| && x == TxAt(history, x.nonce)
  }

  lemma BatchesFromHistory(snap: Contents, history: seq<OracleRequest>, batches: Batches.Pending, x: Transaction)
    requires Complete(snap, history)
    requires batches.Keys == snap.Keys && forall a :: a in batches ==> Flat(snap[a], batches[a])
    ensures FromHistory(history, x) <==> x.origin.bridge in batches && x in batches[x.origin.bridge]
    ensures forall a :: a in batches && x in batches[a] ==> x.origin.bridge == a
  {
    var b := x.origin.bridge;
    assert ItemsAt(snap, b) == SentBy(history, b);
    assert FromHistory(history, x) ==> x.nonce in SentBy(history, b) && SentBy(history, b)[x.nonce] == x;
    assert x.nonce in SentBy(history, b) && SentBy(history, b)[x.nonce] == x ==> FromHistory(history, x);
    forall a | a in batches && x in batches[a]
      ensures b == a
    {
      assert ItemsAt(snap, a) == SentBy(history, a);
    }
  }

  // Of a pool that lost nothing, the group of a chain holds exactly the
  // transactions of the events for that chain, each once, every sender's in
  // nonce order, whatever the iteration order of the pending map.
  lemma EventsGroupedByChain(snap: Contents, history: seq<OracleRequest>, batches: Batches.Pending,
                             order: seq<Address>, k: Nonce)
    requires Complete(snap, history)
    requires batches.Keys == snap.Keys && forall a :: a in batches ==> Flat(snap[a], batches[a])
    requires Order(batches, order)
    ensures var g := ByChain(Concat(batches, order), k);
      && (forall x :: x in g <==> x.chainId == k && FromHistory(history, x))
      && SenderOrdered(g)
      && (forall i, j :: 0 <= i < j < |g| ==> g[i] != g[j])
  {
    forall a | a in batches
      ensures Increasing(batches[a]) && forall x :: x in batches[a] ==> x.origin.bridge == a
    {
      forall x | x in batches[a]
        ensures x.origin.bridge == a
      {
        BatchesFromHistory(snap, history, batches, x);
      }
    }
    GroupHolds(batches, order, k);
    forall x
      ensures FromHistory(history, x) <==> x.origin.bridge in batches && x in batches[x.origin.bridge]
    {
      BatchesFromHistory(snap, history, batches, x);
    }
  }

  // The grouping of PendingByChainId.
  method GroupByChain(all: Batches.Pending) returns (groups: map<Nonce, seq<Transaction>>, ghost order: seq<Address>)
    ensures Order(all, order)
    ensures forall k :: k in groups <==> exists x :: x in Concat(all, order) && x.chainId == k
    ensures forall k :: k in groups ==> groups[k] == ByChain(Concat(all, order), k)
  {
    var visited: seq<Address> := [];
    var txs: seq<Transaction> := [];
    var todo := all.Keys;
    while todo != {}
      invariant todo <= all.Keys
      invariant forall a :: a in visited <==> a in all && a !in todo
      invariant forall i, j :: 0 <= i < j < |visited| ==> visited[i] != visited[j]
      invariant txs == Concat(all, visited)
      decreases todo
    {
      var a :| a in todo;
      ConcatSnoc(all, visited, a);
      txs := txs + all[a];
      visited := visited + [a];
      todo := todo - {a};
    }
    order := visited;
    var keys: set<Nonce> := set x | x in txs :: x.chainId;
    groups := map[];
    var left := keys;
    while left != {}
      invariant left <= keys && groups.Keys == keys - left
      invariant forall k :: k in groups ==> groups[k] == ByChain(txs, k)
      decreases left
    {
      var k :| k in left;
      var tmp := Select(txs, k);
      groups := groups[k := tmp];
      left := left - {k};
    }
  }

  lemma {:induction false} ConcatSnoc(batches: Batches.Pending, order: seq<Address>, a: Address)
    requires a in batches && forall b :: b in order ==> b in batches
    ensures Concat(batches, order + [a]) == Concat(batches, order) + batches[a]
    decreases |order|
  {
    if order == [] {
      assert ([] + [a])[1..] == [];
    } else {
      assert (order + [a])[0] == order[0] && (order + [a])[1..] == order[1..] + [a];
      ConcatSnoc(batches, order[1..], a);
    }
  }

  // The inner loop: the transactions for chain k, in order.
  method Select(txs: seq<Transaction>, k: Nonce) returns (r: seq<Transaction>)
    ensures r == ByChain(txs, k)
  {
    r := [];
    for i := 0 to |txs|
      invariant r + ByChain(txs[i..], k) == ByChain(txs, k)
    {
      assert txs[i..][1..] == txs[i + 1..];
      if k == txs[i].chainId { r := r + [txs[i]]; }
    }
  }
}
