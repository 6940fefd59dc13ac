// Grouping of pending transactions by destination chain (chain/tx_pool.go,
// PendingByChainId): the per-sender batches are concatenated in the iteration
// order of a map and then filtered by chain id.
module Batches {
  import opened NonceHeap
  import opened TxList

  type Pending = map<Address, seq<Transaction>>

  // Every batch is sorted by nonce and belongs to its sender.
  ghost predicate WellKept(batches: Pending)
  {
    forall a :: a in batches ==> Increasing(batches[a]) && forall x :: x in batches[a] ==> x.origin.bridge == a
  }

  function Concat(batches: Pending, order: seq<Address>): seq<Transaction>
    requires forall a :: a in order ==> a in batches
  {
    if order == [] then [] else batches[order[0]] + Concat(batches, order[1..])
  }

  function ByChain(s: seq<Transaction>, k: Nonce): seq<Transaction>
  {
    if s == [] then []
    else (if s[0].chainId == k then [s[0]] else []) + ByChain(s[1..], k)
  }

  // An iteration order of the map: every sender once.
  ghost predicate Order(batches: Pending, order: seq<Address>)
  {
    && (forall a :: a in order <==> a in batches)
    && (forall i, j :: 0 <= i < j < |order| ==> order[i] != order[j])
  }

  // Transactions of one sender come in the order of their nonces.
  ghost predicate SenderOrdered(s: seq<Transaction>)
  {
    forall i, j :: 0 <= i < j < |s| && s[i].origin.bridge == s[j].origin.bridge ==> s[i].nonce < s[j].nonce
  }

  lemma {:induction false} ByChainMembers(s: seq<Transaction>, k: Nonce, x: Transaction)
    ensures x in ByChain(s, k) <==> x in s && x.chainId == k
  {
    if s != [] {
      assert s == [s[0]] + s[1..];
      ByChainMembers(s[1..], k, x);
    }
  }

  // Filtering by chain keeps each sender's order.
  lemma {:induction false} ByChainSenders(s: seq<Transaction>, k: Nonce)
    requires SenderOrdered(s)
    ensures SenderOrdered(ByChain(s, k))
  {
    if s != [] {
      var t := s[1..];
      ByChainSenders(t, k);
      forall y | y in ByChain(t, k) && s[0].origin.bridge == y.origin.bridge
        ensures s[0].nonce < y.nonce
      {
        ByChainMembers(t, k, y);
        var j :| 0 <= j < |t| && t[j] == y;
        assert s[j + 1] == y;
      }
    }
  }

  lemma {:induction false} ByChainIncreasing(s: seq<Transaction>, k: Nonce)
    requires Increasing(s)
    ensures Increasing(ByChain(s, k))
  {
    if s != [] {
      var t := s[1..];
      ByChainIncreasing(t, k);
      forall y | y in ByChain(t, k)
        ensures s[0].nonce < y.nonce
      {
        ByChainMembers(t, k, y);
        var j :| 0 <= j < |t| && t[j] == y;
        assert s[j + 1] == y;
      }
    }
  }

  lemma {:induction false} ConcatHolds(batches: Pending, order: seq<Address>)
    requires WellKept(batches) && (forall a :: a in order ==> a in batches)
    requires forall i, j :: 0 <= i < j < |order| ==> order[i] != order[j]
    ensures forall x :: x in Concat(batches, order) <==> x.origin.bridge in order && x in batches[x.origin.bridge]
    ensures SenderOrdered(Concat(batches, order))
    decreases |order|
  {
    if order != [] {
      var a, rest := order[0], order[1..];
      assert order == [a] + rest;
      ConcatHolds(batches, rest);
      var first, tail := batches[a], Concat(batches, rest);
      var both: seq<Transaction> := Concat(batches, order);
      assert both == first + tail;
      assert a !in rest;
      forall i, j | 0 <= i < j < |both| && both[i].origin.bridge == both[j].origin.bridge
        ensures both[i].nonce < both[j].nonce
      {
        var x, y := both[i], both[j];
        if i < |first| {
          assert x in first;
          assert j < |first| || y in tail;
        }
      }
    }
  }

  // Whatever the iteration order, each group holds exactly the pending
  // transactions of its chain, once each, every sender's in nonce order.
  lemma GroupHolds(batches: Pending, order: seq<Address>, k: Nonce)
    requires WellKept(batches) && Order(batches, order)
    ensures var g := ByChain(Concat(batches, order), k);
      && (forall x :: x in g <==> x.chainId == k && x.origin.bridge in batches && x in batches[x.origin.bridge])
      && SenderOrdered(g)
      && (forall i, j :: 0 <= i < j < |g| ==> g[i] != g[j])
  {
    ConcatHolds(batches, order);
    var all := Concat(batches, order);
    forall x
      ensures x in ByChain(all, k) <==> x.chainId == k && x.origin.bridge in batches && x in batches[x.origin.bridge]
    {
      ByChainMembers(all, k, x);
    }
    ByChainSenders(all, k);
  }

  lemma {:induction false} ByChainConcat(s: seq<Transaction>, t: seq<Transaction>, k: Nonce)
    ensures ByChain(s + t, k) == ByChain(s, k) + ByChain(t, k)
  {
    if s == [] {
      assert s + t == t;
    } else {
      ByChainConcat(s[1..], t, k);
      assert (s + t)[0] == s[0] && (s + t)[1..] == s[1..] + t;
      var head := if s[0].chainId == k then [s[0]] else [];
      assert ByChain(s + t, k) == head + (ByChain(s[1..], k) + ByChain(t, k));
    }
  }

  lemma {:induction false} OneSender(batches: Pending, order: seq<Address>, k: Nonce, a: Address)
    requires forall b :: b in order ==> b in batches
    requires forall i, j :: 0 <= i < j < |order| ==> order[i] != order[j]
    requires forall b :: b in order && b != a ==> ByChain(batches[b], k) == []
    ensures ByChain(Concat(batches, order), k) == if a in order then ByChain(batches[a], k) else []
    decreases |order|
  {
    if order != [] {
      assert order == [order[0]] + order[1..];
      OneSender(batches, order[1..], k, a);
      ByChainConcat(batches[order[0]], Concat(batches, order[1..]), k);
    }
  }

  lemma {:induction false} SomeOrder(keys: set<Address>) returns (order: seq<Address>)
    ensures forall a :: a in order <==> a in keys
    ensures forall i, j :: 0 <= i < j < |order| ==> order[i] != order[j]
  {
    order := [];
    if keys != {} {
      var a :| a in keys;
      var rest := SomeOrder(keys - {a});
      order := [a] + rest;
    }
  }

  lemma GroupOfTwoFirst(batches: Pending, a: Address, b: Address, rest: seq<Address>, k: Nonce)
    requires a in batches && b in batches && forall c :: c in rest ==> c in batches
    ensures ByChain(Concat(batches, [a] + ([b] + rest)), k)
         == ByChain(batches[a], k) + (ByChain(batches[b], k) + ByChain(Concat(batches, rest), k))
  {
    var tail := [b] + rest;
    assert tail[1..] == rest;
    assert ([a] + tail)[1..] == tail;
    ByChainConcat(batches[a], Concat(batches, tail), k);
    ByChainConcat(batches[b], Concat(batches, rest), k);
  }

  // An iteration order that visits a and then b, both first.
  lemma OrderStarting(batches: Pending, a: Address, b: Address) returns (rest: seq<Address>)
    requires a in batches && b in batches && a != b
    ensures Order(batches, [a] + ([b] + rest))
  {
    rest := SomeOrder(batches.Keys - {a, b});
    var order := [a] + ([b] + rest);
    forall c
      ensures c in order <==> c in batches
    {
      assert c in order <==> c == a || c == b || c in rest;
    }
  }

  // Two senders for one chain: visiting them in either order cannot both be sorted.
  lemma NotAlwaysSorted(batches: Pending, k: Nonce, a: Address, b: Address)
    requires a in batches && b in batches && a != b
    requires ByChain(batches[a], k) != [] && ByChain(batches[b], k) != []
    ensures exists order :: Order(batches, order) && !Increasing(ByChain(Concat(batches, order), k))
  {
    var x, y := ByChain(batches[a], k), ByChain(batches[b], k);
    var r1 := OrderStarting(batches, a, b);
    var r2 := OrderStarting(batches, b, a);
    GroupOfTwoFirst(batches, a, b, r1, k);
    GroupOfTwoFirst(batches, b, a, r2, k);
    var o1, o2 := [a] + ([b] + r1), [b] + ([a] + r2);
    var g1, g2 := ByChain(Concat(batches, o1), k), ByChain(Concat(batches, o2), k);
    assert g1[0] == x[0] && g1[|x|] == y[0];
    assert g2[0] == y[0] && g2[|y|] == x[0];
    assert !Increasing(g1) || !Increasing(g2);
  }

  // A group is sorted by nonce in every iteration order exactly when at most
  // one sender has pending transactions for that chain.
  lemma SortedIffOneSender(batches: Pending, k: Nonce)
    requires WellKept(batches)
    ensures (forall order :: Order(batches, order) ==> Increasing(ByChain(Concat(batches, order), k)))
       <==> (forall a, b :: a in batches && b in batches && a != b ==>
              ByChain(batches[a], k) == [] || ByChain(batches[b], k) == [])
  {
    if a, b :| a in batches && b in batches && a != b && ByChain(batches[a], k) != [] && ByChain(batches[b], k) != [] {
      NotAlwaysSorted(batches, k, a, b);
    } else {
      forall order | Order(batches, order)
        ensures Increasing(ByChain(Concat(batches, order), k))
      {
        if a :| a in batches && ByChain(batches[a], k) != [] {
          OneSender(batches, order, k, a);
          ByChainIncreasing(batches[a], k);
        } else {
          OneSender(batches, order, k, "");
        }
      }
    }
  }
}
