// The nonce-sorted transaction list (chain/tx_list.go): a map from nonce to
// transaction, a heap of the nonces and a cache of the sorted contents.
module TxList {
  import opened Options
  import opened Limits
  import opened NonceHeap

  type Address = string

  // The parts of a BridgeOracleRequest that the pool looks at.
  datatype OracleRequest = OracleRequest(bridge: Address, chainId: Nonce, payload: string)

  datatype Transaction = Transaction(chainId: Nonce, origin: OracleRequest, nonce: Nonce)

  type Items = map<Nonce, Transaction>

  ghost predicate Keyed(items: Items)
  {
    forall n :: n in items ==> items[n].nonce == n
  }

  ghost predicate Increasing(s: seq<Transaction>)
  {
    forall i, j :: 0 <= i < j < |s| ==> s[i].nonce < s[j].nonce
  }

  // s lists the items in the order of their nonces.
  ghost predicate Flat(items: Items, s: seq<Transaction>)
  {
    && Increasing(s)
    && forall x :: x in s <==> x.nonce in items && items[x.nonce] == x
  }

  // There is only one such list.
  lemma {:induction false} FlatUnique(items: Items, s: seq<Transaction>, t: seq<Transaction>)
    requires Flat(items, s) && Flat(items, t)
    ensures s == t
    decreases |s|
  {
    assert s == [] || s[0] in s;
    assert t == [] || t[0] in t;
    if s != [] && t != [] {
      var i :| 0 <= i < |t| && t[i] == s[0];
      var j :| 0 <= j < |s| && s[j] == t[0];
      assert s[0] == t[0];
      var rest := map n | n in items && n != s[0].nonce :: items[n];
      FlatTail(items, s, rest);
      FlatTail(items, t, rest);
      FlatUnique(rest, s[1..], t[1..]);
    }
  }

  lemma FlatTail(items: Items, s: seq<Transaction>, rest: Items)
    requires Flat(items, s) && s != []
    requires rest == map n | n in items && n != s[0].nonce :: items[n]
    ensures Flat(rest, s[1..])
  {
    forall x
      ensures x in s[1..] <==> x.nonce in rest && rest[x.nonce] == x
    {
      if x in s[1..] {
        var k :| 0 <= k < |s[1..]| && s[1..][k] == x;
        assert s[k + 1] == x;
      }
    }
  }

  // sort.Sort(PoolTxByNonce(...)) on transactions with different nonces.
  function Insert(s: seq<Transaction>, x: Transaction): (r: seq<Transaction>)
    requires Increasing(s) && forall y :: y in s ==> y.nonce != x.nonce
    ensures Increasing(r) && forall y :: y in r <==> y == x || y in s
  {
    if s == [] then [x]
    else if x.nonce < s[0].nonce then [x] + s
    else
      assert s == [s[0]] + s[1..];
      var t := Insert(s[1..], x);
      assert forall y :: y in t ==> s[0].nonce < y.nonce by {
        forall y | y in t
          ensures s[0].nonce < y.nonce
        {
          if y != x {
            var k :| 0 <= k < |s[1..]| && s[1..][k] == y;
            assert s[k + 1] == y;
          }
        }
      }
      [s[0]] + t
  }

  method SortByNonce(s: seq<Transaction>) returns (r: seq<Transaction>)
    requires forall i, j :: 0 <= i < j < |s| ==> s[i].nonce != s[j].nonce
    ensures Increasing(r) && forall y :: y in r <==> y in s
  {
    r := [];
    for k := 0 to |s|
      invariant Increasing(r) && forall y :: y in r <==> y in s[..k]
    {
      r := Insert(r, s[k]);
      assert s[..k + 1] == s[..k] + [s[k]];
    }
    assert s[..|s|] == s;
  }

  // The nonces Ready(start) hands out: if some nonce is at most `start`, all
  // those reachable from the least nonce without a gap.
  ghost function ReadyKeys(items: Items, start: Nonce): set<Nonce>
  {
    if exists x :: x in items && x <= start
    then set n | n in items && GapFree(items, n)
    else {}
  }

  ghost predicate GapFree(items: Items, n: Nonce)
  {
    forall x: Nonce, k: Nonce :: x in items && x <= k <= n ==> k in items
  }

  // The comment on Ready promises every nonce up to `start`; that holds exactly
  // when there is no gap below the largest of them.
  lemma ReadyUpToStartIff(items: Items, start: Nonce)
    ensures (forall n :: n in items && n <= start ==> n in ReadyKeys(items, start))
       <==> (forall x: Nonce, k: Nonce, n: Nonce :: x in items && n in items && x <= k <= n <= start ==> k in items)
  {
    if forall n :: n in items && n <= start ==> n in ReadyKeys(items, start) {
      forall x: Nonce, k: Nonce, n: Nonce | x in items && n in items && x <= k <= n <= start
        ensures k in items
      {
        assert n in ReadyKeys(items, start);
      }
    } else {
      var n :| n in items && n <= start && n !in ReadyKeys(items, start);
      assert !GapFree(items, n);
    }
  }

  lemma {:induction false} LeastOf(keys: set<Nonce>) returns (least: Nonce)
    requires keys != {}
    ensures least in keys && forall n :: n in keys ==> least <= n
  {
    var one :| one in keys;
    least := one;
    if keys - {one} != {} {
      var rest := LeastOf(keys - {one});
      if rest < one { least := rest; }
      forall n | n in keys
        ensures least <= n
      {
        assert n == one || n in keys - {one};
      }
    } else {
      assert keys == {one};
    }
  }

  // The least nonce is handed out if it is not above `start`.
  lemma LeastReady(items: Items, start: Nonce, least: Nonce)
    requires least in items && least <= start && forall n :: n in items ==> least <= n
    ensures least in ReadyKeys(items, start)
  {
    assert GapFree(items, least);
  }

  // A nonce that follows one handed out is handed out.
  lemma NextReady(items: Items, start: Nonce, last: Nonce, next: Nonce)
    requires last in ReadyKeys(items, start) && next == last + 1 && next in items
    ensures next in ReadyKeys(items, start)
  {
    assert GapFree(items, last);
    forall x: Nonce, k: Nonce | x in items && x <= k <= next
      ensures k in items
    {
      assert k == next || k <= last;
    }
    assert GapFree(items, next);
  }

  // A sorted list of the items reaches from the least to the largest nonce.
  lemma FlatBounds(items: Items, s: seq<Transaction>, n: Nonce)
    requires Keyed(items) && Flat(items, s) && n in items
    ensures s != [] && s[0].nonce <= n <= s[|s| - 1].nonce
  {
    assert items[n] in s;
    var i :| 0 <= i < |s| && s[i] == items[n];
  }

  lemma FlatEnds(items: Items, s: seq<Transaction>)
    requires Flat(items, s) && s != []
    ensures s[0].nonce in items && s[|s| - 1].nonce in items
  {
    assert s[0] in s && s[|s| - 1] in s;
  }

  // What Ready hands out: nothing exactly when the least nonce is above `start`,
  // else the run from the least nonce up to the first gap.
  lemma ReadyRun(items: Items, start: Nonce, ready: seq<Transaction>)
    requires Keyed(items) && Flat(Restrict(items, ReadyKeys(items, start)), ready)
    ensures ready == [] <==> forall n :: n in items ==> n > start
    ensures ready != [] ==> forall n :: n in items ==> ready[0].nonce <= n
    ensures ready != [] ==> ready[|ready| - 1].nonce + 1 == TWO_64 || ready[|ready| - 1].nonce + 1 !in items
  {
    hide ReadyKeys;
    hide GapFree;
    hide Flat;
    var given := Restrict(items, ReadyKeys(items, start));
    if n :| n in items && n <= start {
      var least := LeastOf(items.Keys);
      LeastReady(items, start, least);
      FlatBounds(given, ready, least);
      FlatEnds(given, ready);
      var last := ready[|ready| - 1].nonce;
      if last + 1 < TWO_64 && (last + 1) in items {
        NextReady(items, start, last, last + 1);
        FlatBounds(given, ready, last + 1);
      }
    } else {
      NothingReady(items, start);
      FlatUnique(given, ready, []);
    }
  }

  ghost function Restrict(items: Items, keys: set<Nonce>): Items
  {
    map n | n in items && n in keys :: items[n]
  }

  // Which of the pool's lists an object serves as.
  datatype Role = Pending | Queue
  datatype Owner = Owner(role: Role, addr: Address)

  class TxSortedMap {
    var items: Items
    var index: seq<Nonce>
    var cache: Option<seq<Transaction>>
    ghost const owner: Owner

    // The map is keyed by nonce, the index is a heap holding every stored
    // nonce once, and a cache is the sorted list of the items.
    ghost predicate Valid()
      reads this
    {
      && Keyed(items)
      && Heap(index, |index|)
      && multiset(index) == multiset(items.Keys)
      && (cache.Some? ==> Flat(items, cache.value))
    }

    constructor (ghost owner: Owner)
      ensures Valid() && items == map[] && this.owner == owner
    {
      items, index, cache := map[], [], None;
      this.owner := owner;
    }

    lemma IsKeyed()
      requires Valid()
      ensures Keyed(items)
    {
    }

    method Put(tx: Transaction)
      requires Valid()
      modifies this
      ensures Valid() && items == old(items)[tx.nonce := tx] && cache == None
    {
      var nonce := tx.nonce;
      if nonce !in items {
        index := Push(index, nonce);
      }
      items, cache := items[nonce := tx], None;
      assert nonce in old(items) ==> items.Keys == old(items.Keys);
      assert nonce !in old(items) ==> items.Keys == old(items.Keys) + {nonce};
    }

    method Ready(start: Nonce) returns (ready: seq<Transaction>)
      requires Valid()
      modifies this
      ensures Valid()
      ensures items == old(items) - ReadyKeys(old(items), start)
      ensures Flat(Restrict(old(items), ReadyKeys(old(items), start)), ready)
      ensures forall k :: 0 <= k < |ready| ==> ready[k].nonce == ready[0].nonce + k
      ensures ready == [] ==> cache == old(cache) && index == old(index)
    {
      hide ReadyKeys;
      hide Restrict;
      hide Flat;
      hide Taking;
      LeastInIndex(items, index);
      if |index| == 0 || index[0] > start {
        NothingReady(items, start);
        return [];
      }
      var least := index[0];
      var rest, nonces;
      ready, rest, nonces := TakeRun(items, index);
      TakeDone(items, rest, start, least, ready);
      items, index, cache := rest, nonces, None;
    }

    // The transactions in the order of their nonces, whatever the iteration
    // order of the map.
    method Flatten() returns (txs: seq<Transaction>)
      requires Valid()
      modifies this`cache
      ensures Valid() && Flat(items, txs) && cache == Some(txs)
    {
      if cache == None {
        var keys := items.Keys;
        var all: seq<Transaction> := [];
        while keys != {}
          invariant keys <= items.Keys
          invariant forall x :: x in all <==> x.nonce in items && x.nonce !in keys && items[x.nonce] == x
          invariant forall i, j :: 0 <= i < j < |all| ==> all[i].nonce != all[j].nonce
          decreases keys
        {
          var n :| n in keys;
          assert items[n] !in all;
          all := all + [items[n]];
          keys := keys - {n};
        }
        var sorted := SortByNonce(all);
        cache := Some(sorted);
      }
      txs := cache.value;
    }
  }

  lemma NothingReady(items: Items, start: Nonce)
    requires forall n :: n in items ==> n > start
    ensures items == items - ReadyKeys(items, start)
    ensures Flat(Restrict(items, ReadyKeys(items, start)), [])
  {
  }

  // What the heap says about the map it indexes.
  lemma LeastInIndex(items: Items, index: seq<Nonce>)
    requires Heap(index, |index|) && multiset(index) == multiset(items.Keys)
    ensures index == [] <==> items == map[]
    ensures index != [] ==> index[0] in items && forall n :: n in items ==> index[0] <= n
  {
    forall n: Nonce
      ensures n in items <==> n in index
    {
      assert n in index <==> n in multiset(index);
    }
    assert items == map[] || exists n: Nonce :: n in items;
    assert index == [] || index[0] in index;
    forall n | n in items
      ensures index != [] && index[0] <= n
    {
      var j :| 0 <= j < |index| && index[j] == n;
      RootIsLeast(index, |index|, j);
    }
  }

  // The loop of Ready: pop while the heap continues the run; `next` wraps
  // around like a uint64.
  method TakeRun(items0: Items, index0: seq<Nonce>)
    returns (ready: seq<Transaction>, items: Items, index: seq<Nonce>)
    requires Keyed(items0) && index0 != [] && Heap(index0, |index0|) && multiset(index0) == multiset(items0.Keys)
    ensures Heap(index, |index|) && multiset(index) == multiset(items.Keys)
    ensures Taking(items0, items, index0[0], ready) && ready != []
    ensures index0[0] + |ready| == TWO_64 || (index0[0] + |ready|) !in items
  {
    ready, items, index := [], items0, index0;
    LeastInIndex(items0, index0);
    var least := index[0];
    var next := least;
    while |index| > 0 && index[0] == next
      invariant Heap(index, |index|) && multiset(index) == multiset(items.Keys)
      invariant Taking(items0, items, least, ready)
      invariant next == if least + |ready| == TWO_64 then 0 else least + |ready|
      invariant ready == [] ==> index == index0
      decreases |index|
    {
      LeastInIndex(items, index);
      TakeNext(items0, items, least, ready, next);
      ready := ready + [items[next]];
      var x, rest := Pop(index);
      PoppedKey(rest, items.Keys, next);
      items := items - {next};
      index := rest;
      next := if next + 1 == TWO_64 then 0 else next + 1;
    }
    LeastInIndex(items, index);
  }

  lemma PoppedKey(rest: seq<Nonce>, keys: set<Nonce>, n: Nonce)
    requires n in keys && multiset(keys) == multiset(rest) + multiset{n}
    ensures multiset(rest) == multiset(keys - {n})
  {
    forall x: Nonce
      ensures multiset(rest)[x] == multiset(keys - {n})[x]
    {
      assert multiset(keys)[x] == if x in keys then 1 else 0;
    }
  }

  // `ready` holds the items from `least` upwards without a gap, `items` the rest.
  ghost predicate Taking(all: Items, items: Items, least: Nonce, ready: seq<Transaction>)
  {
    && Keyed(all) && least in all && (forall n :: n in all ==> least <= n)
    && least + |ready| <= TWO_64
    && (forall k :: 0 <= k < |ready| ==>
        ready[k].nonce == least + k && ready[k].nonce in all && all[ready[k].nonce] == ready[k])
    && (forall n: Nonce :: least <= n < least + |ready| ==> n in all)
    && (forall n :: n in items <==> n in all && n >= least + |ready|)
    && (forall n :: n in items ==> items[n] == all[n])
  }

  lemma TakeNext(all: Items, items: Items, least: Nonce, ready: seq<Transaction>, next: Nonce)
    requires Taking(all, items, least, ready) && next == least + |ready| && next in items
    ensures Taking(all, items - {next}, least, ready + [items[next]])
  {
  }

  // At the first gap, the items taken are exactly ReadyKeys.
  lemma TakeDone(all: Items, items: Items, start: Nonce, least: Nonce, ready: seq<Transaction>)
    requires Taking(all, items, least, ready) && least <= start
    requires least + |ready| == TWO_64 || (least + |ready|) !in items
    ensures Keyed(items) && items == all - ReadyKeys(all, start)
    ensures Flat(Restrict(all, ReadyKeys(all, start)), ready)
    ensures forall k :: 0 <= k < |ready| ==> ready[k].nonce == ready[0].nonce + k
  {
    var m := |ready|;
    forall n: Nonce
      ensures n in ReadyKeys(all, start) <==> n < least + m && n in all
    {
      if n in all && n >= least + m {
        var k: Nonce := least + m;
        assert least in all && least <= k <= n && k !in all;
      }
    }
    forall x
      ensures x in ready <==> x.nonce in all && x.nonce < least + m && all[x.nonce] == x
    {
      if x.nonce in all && x.nonce < least + m && all[x.nonce] == x {
        assert ready[x.nonce - least] == x;
      }
    }
  }
}
