// Leader election by rendezvous hashing (libp2p/leader_provider.go): the peer
// whose hash of topic and identity is least in string order.
module Leader {
  import opened Options

  // The order of sort.Strings.
  predicate Leq(a: string, b: string)
  {
    a == [] || (b != [] && (a[0] < b[0] || (a[0] == b[0] && Leq(a[1..], b[1..]))))
  }

  lemma {:induction false} LeqReflexive(a: string)
    ensures Leq(a, a)
  {
    if a != [] { LeqReflexive(a[1..]); }
  }

  lemma {:induction false} LeqAntisymmetric(a: string, b: string)
    requires Leq(a, b) && Leq(b, a)
    ensures a == b
  {
    if a != [] {
      LeqAntisymmetric(a[1..], b[1..]);
      assert a == [a[0]] + a[1..] && b == [b[0]] + b[1..];
    }
  }

  lemma {:induction false} LeqTransitive(a: string, b: string, c: string)
    requires Leq(a, b) && Leq(b, c)
    ensures Leq(a, c)
  {
    if a != [] && a[0] == b[0] == c[0] { LeqTransitive(a[1..], b[1..], c[1..]); }
  }

  lemma {:induction false} LeqTotal(a: string, b: string)
    ensures Leq(a, b) || Leq(b, a)
  {
    if a != [] && b != [] && a[0] == b[0] { LeqTotal(a[1..], b[1..]); }
  }

  // The order spelled out: a is a prefix of b, or it is smaller at the first
  // position where they differ.
  ghost predicate LexLeq(a: string, b: string)
  {
    a <= b || exists i: nat :: SmallerAt(a, b, i)
  }

  lemma {:induction false} LeqIsLex(a: string, b: string)
    ensures Leq(a, b) <==> LexLeq(a, b)
  {
    if a != [] && b != [] {
      if a[0] == b[0] {
        LeqIsLex(a[1..], b[1..]);
        LexTail(a, b);
      } else if a[0] < b[0] {
        assert SmallerAt(a, b, 0);
      } else {
        forall i: nat
          ensures !SmallerAt(a, b, i)
        {
          if 0 < i <= |a| && i <= |b| { assert a[..i][0] != b[..i][0]; }
        }
      }
    }
  }

  // The strings differ first at position i, where a is smaller.
  ghost predicate SmallerAt(a: string, b: string, i: nat)
  {
    i < |a| && i < |b| && a[..i] == b[..i] && a[i] < b[i]
  }

  lemma SmallerTail(a: string, b: string, i: nat)
    requires a != [] && b != [] && a[0] == b[0]
    ensures SmallerAt(a, b, i + 1) <==> SmallerAt(a[1..], b[1..], i)
  {
    if i + 1 <= |a| && i + 1 <= |b| {
      assert a[..i + 1] == [a[0]] + a[1..][..i] && b[..i + 1] == [b[0]] + b[1..][..i];
      assert a[..i + 1][1..] == a[1..][..i] && b[..i + 1][1..] == b[1..][..i];
    }
  }

  // A common first character does not matter.
  lemma LexTail(a: string, b: string)
    requires a != [] && b != [] && a[0] == b[0]
    ensures LexLeq(a, b) <==> LexLeq(a[1..], b[1..])
  {
    var c, d := a[1..], b[1..];
    assert a <= b <==> c <= d by { assert a == [a[0]] + c && b == [b[0]] + d; }
    if i: nat :| SmallerAt(a, b, i) { SmallerTail(a, b, i - 1); }
    if i: nat :| SmallerAt(c, d, i) { SmallerTail(a, b, i); }
    hide SmallerAt;
  }

  // ---- sort.Strings ----

  ghost predicate Sorted(s: seq<string>)
  {
    forall i, j :: 0 <= i < j < |s| ==> Leq(s[i], s[j])
  }

  method SortStrings(s: seq<string>) returns (r: seq<string>)
    ensures Sorted(r)
    ensures forall i, j :: 0 <= i < j < |r| ==> LexLeq(r[i], r[j])
    ensures multiset(r) == multiset(s)
  {
    hide LexLeq;
    r := [];
    for k := 0 to |s|
      invariant Sorted(r)
      invariant multiset(r) == multiset(s[..k])
    {
      r := Insert(r, s[k]);
      assert s[..k + 1] == s[..k] + [s[k]];
    }
    assert s[..|s|] == s;
    forall i, j | 0 <= i < j < |r|
      ensures LexLeq(r[i], r[j])
    {
      LeqIsLex(r[i], r[j]);
    }
  }

  function Insert(s: seq<string>, x: string): (r: seq<string>)
    requires Sorted(s)
    ensures Sorted(r)
    ensures multiset(r) == multiset(s) + multiset{x}
  {
    if s == [] then [x]
    else if Leq(x, s[0]) then
      assert forall i :: 0 <= i < |s| ==> Leq(x, s[i]) by {
        forall i | 0 < i < |s|
          ensures Leq(x, s[i])
        {
          LeqTransitive(x, s[0], s[i]);
        }
      }
      [x] + s
    else
      LeqTotal(x, s[0]);
      var t := Insert(s[1..], x);
      assert s == [s[0]] + s[1..];
      assert forall y :: y in t ==> Leq(s[0], y) by {
        forall y | y in t
          ensures Leq(s[0], y)
        {
          assert y in multiset(t);
          assert y == x || y in s[1..];
        }
      }
      [s[0]] + t
  }

  // ---- The election ----

  // A fold that keeps the least hash seen, the later one on a tie.
  function Leader(hash: string -> string, topic: string, pids: seq<string>): string
    requires pids != []
  {
    var last := pids[|pids| - 1];
    if |pids| == 1 then last
    else
      var best := Leader(hash, topic, pids[..|pids| - 1]);
      if Leq(hash(topic + last), hash(topic + best)) then last else best
  }

  lemma {:induction false} LeaderIsLeast(hash: string -> string, topic: string, pids: seq<string>)
    requires pids != []
    ensures Leader(hash, topic, pids) in pids
    ensures forall p :: p in pids ==> Leq(hash(topic + Leader(hash, topic, pids)), hash(topic + p))
    decreases |pids|
  {
    var n := |pids| - 1;
    var last := pids[n];
    LeqReflexive(hash(topic + last));
    if n > 0 {
      var init := pids[..n];
      assert pids == init + [last];
      LeaderIsLeast(hash, topic, init);
      var best := Leader(hash, topic, init);
      LeqTotal(hash(topic + last), hash(topic + best));
      forall p | p in pids
        ensures Leq(hash(topic + Leader(hash, topic, pids)), hash(topic + p))
      {
        if p in init && Leq(hash(topic + last), hash(topic + best)) {
          LeqTransitive(hash(topic + last), hash(topic + best), hash(topic + p));
        }
      }
    }
  }

  // The least hash is reached by one identity only.
  ghost predicate Unambiguous(hash: string -> string, topic: string, pids: seq<string>)
    requires pids != []
  {
    forall p :: p in pids && hash(topic + p) == hash(topic + Leader(hash, topic, pids))
      ==> p == Leader(hash, topic, pids)
  }

  // A list drawn from pids that still contains the leader has the same leader:
  // order, repetition and the removal of other peers do not matter.
  lemma Stable(hash: string -> string, topic: string, pids: seq<string>, qids: seq<string>)
    requires pids != [] && Unambiguous(hash, topic, pids)
    requires Leader(hash, topic, pids) in qids && forall q :: q in qids ==> q in pids
    ensures Leader(hash, topic, qids) == Leader(hash, topic, pids)
  {
    LeaderIsLeast(hash, topic, pids);
    LeaderIsLeast(hash, topic, qids);
    LeqAntisymmetric(hash(topic + Leader(hash, topic, pids)), hash(topic + Leader(hash, topic, qids)));
  }

  ghost predicate SamePeers(pids: seq<string>, qids: seq<string>)
  {
    forall p :: p in qids <==> p in pids
  }

  // Every list of the same peers elects the same leader exactly when the
  // least hash is not shared by two of them.
  lemma StableIff(hash: string -> string, topic: string, pids: seq<string>)
    requires pids != []
    ensures (forall qids: seq<string> :: qids != [] && SamePeers(pids, qids)
              ==> Leader(hash, topic, qids) == Leader(hash, topic, pids))
       <==> Unambiguous(hash, topic, pids)
  {
    LeaderIsLeast(hash, topic, pids);
    var l := Leader(hash, topic, pids);
    if Unambiguous(hash, topic, pids) {
      forall qids: seq<string> | qids != [] && SamePeers(pids, qids)
        ensures Leader(hash, topic, qids) == l
      {
        Stable(hash, topic, pids, qids);
      }
    } else {
      var p :| p in pids && hash(topic + p) == hash(topic + l) && p != l;
      var qids := pids + [p];
      assert qids[..|qids| - 1] == pids;
      LeqReflexive(hash(topic + p));
      assert SamePeers(pids, qids) && Leader(hash, topic, qids) == p;
    }
  }

  // Adding a peer, wherever it is listed, elects that peer if its hash is not
  // larger than the leader's and keeps the leader otherwise.
  lemma AddedPeer(hash: string -> string, topic: string, pids: seq<string>, p: string, qids: seq<string>)
    requires pids != [] && qids != [] && forall q :: q in qids <==> q in pids || q == p
    requires Unambiguous(hash, topic, qids)
    ensures Leader(hash, topic, qids) ==
      if Leq(hash(topic + p), hash(topic + Leader(hash, topic, pids))) then p else Leader(hash, topic, pids)
  {
    LeaderIsLeast(hash, topic, pids);
    LeaderIsLeast(hash, topic, qids);
    var before, after := Leader(hash, topic, pids), Leader(hash, topic, qids);
    if Leq(hash(topic + p), hash(topic + before)) {
      if after != p {
        LeqTransitive(hash(topic + p), hash(topic + before), hash(topic + after));
        LeqAntisymmetric(hash(topic + p), hash(topic + after));
      }
    } else {
      assert after != p;
      LeqAntisymmetric(hash(topic + before), hash(topic + after));
    }
  }

  predicate Stored(table: map<string, string>, key: string, value: string)
  {
    key in table && table[key] == value
  }

  // The hashes of all peers and the table from hash back to peer.
  method HashAll(hash: string -> string, topic: string, pids: seq<string>)
    returns (keyStore: map<string, string>, hashes: seq<string>)
    requires pids != []
    ensures |hashes| == |pids| && forall k :: 0 <= k < |pids| ==> hashes[k] == hash(topic + pids[k])
    ensures forall k :: 0 <= k < |pids| ==> hashes[k] in keyStore
    ensures Stored(keyStore, hash(topic + Leader(hash, topic, pids)), Leader(hash, topic, pids))
  {
    keyStore, hashes := map[], [];
    for i := 0 to |pids|
      invariant |hashes| == i && forall k :: 0 <= k < i ==> hashes[k] == hash(topic + pids[k])
      invariant forall k :: 0 <= k < i ==> hashes[k] in keyStore
      invariant i > 0 ==> Stored(keyStore, hash(topic + Leader(hash, topic, pids[..i])), Leader(hash, topic, pids[..i]))
    {
      var sum := hash(topic + pids[i]);
      assert pids[..i + 1][..i] == pids[..i];
      LeqReflexive(sum);
      keyStore := keyStore[sum := pids[i]];
      hashes := hashes + [sum];
    }
    assert pids[..|pids|] == pids;
  }

  // The first of the sorted hashes is the leader's.
  lemma FirstSorted(hash: string -> string, topic: string, pids: seq<string>, hashes: seq<string>, sorted: seq<string>)
    requires pids != [] && |hashes| == |pids| && forall k :: 0 <= k < |pids| ==> hashes[k] == hash(topic + pids[k])
    requires Sorted(sorted) && multiset(sorted) == multiset(hashes)
    ensures sorted != [] && sorted[0] == hash(topic + Leader(hash, topic, pids))
  {
    var l := Leader(hash, topic, pids);
    var best := hash(topic + l);
    LeaderIsLeast(hash, topic, pids);
    var i :| 0 <= i < |pids| && pids[i] == l;
    assert hashes[i] in multiset(sorted);
    var j :| 0 <= j < |sorted| && sorted[j] == best;
    assert sorted[0] in multiset(hashes);
    var k :| 0 <= k < |hashes| && hashes[k] == sorted[0];
    assert pids[k] in pids;
    LeqReflexive(best);
    LeqAntisymmetric(best, sorted[0]);
  }

  // LeaderNode / RelayerLeaderNode: hash every peer, sort the hashes, look the
  // first one up in the table from hash to peer.
  method RelayerLeaderNode(hash: string -> string, topic: string, pids: seq<string>) returns (r: Option<string>)
    ensures r.None? <==> pids == [] || topic == []
    ensures r.Some? ==> r.value == Leader(hash, topic, pids)
    ensures r.Some? ==> r.value in pids && forall p :: p in pids ==> LexLeq(hash(topic + r.value), hash(topic + p))
  {
    hide LexLeq;
    if |pids| == 0 || |topic| == 0 { return None; }
    var keyStore, hashes := HashAll(hash, topic, pids);
    var sorted := SortStrings(hashes);
    FirstSorted(hash, topic, pids, hashes, sorted);
    r := Some(keyStore[sorted[0]]);
    LeaderIsLeast(hash, topic, pids);
    forall p | p in pids
      ensures LexLeq(hash(topic + r.value), hash(topic + p))
    {
      LeqIsLex(hash(topic + r.value), hash(topic + p));
    }
  }
}
