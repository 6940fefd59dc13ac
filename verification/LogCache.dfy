// The duplicate filter for chain events (extChains/eth/log_cache.go) and the
// watcher that feeds it across resubscriptions (extChains/eth/watcher.go).
module LogCache {
  import opened Limits
  import opened Options

  type Block = x: int | 0 <= x < TWO_64
  type Hash = string

  // What the cache keys a log by.
  datatype Key = Key(block: Block, tx: Hash)

  datatype Log = Log(block: Block, tx: Hash, index: nat, data: string)

  function KeyOf(l: Log): Key
  {
    Key(l.block, l.tx)
  }

  // The highest block of a history, 0 at the start.
  function Top(history: seq<Key>): Block
  {
    if history == [] then 0
    else
      var t := Top(history[..|history| - 1]);
      var b := history[|history| - 1].block;
      if t <= b then b else t
  }

  // Entry j of the history made the cache drop everything below its block.
  ghost predicate Cleans(history: seq<Key>, j: nat)
    requires j < |history|
  {
    history[j].block >= Top(history[..j])
  }

  // The key occurred and no later entry dropped its block.
  ghost predicate Remembered(history: seq<Key>, k: Key)
  {
    exists i: nat :: i < |history| && history[i] == k &&
      forall j: nat :: i < j < |history| && Cleans(history, j) ==> history[j].block <= k.block
  }

  lemma {:induction false} TopIsHighest(history: seq<Key>)
    ensures forall k :: k in history ==> k.block <= Top(history)
    ensures history != [] ==> exists k :: k in history && k.block == Top(history)
    decreases |history|
  {
    if history != [] {
      var init := history[..|history| - 1];
      TopIsHighest(init);
      assert history == init + [history[|history| - 1]];
      if init != [] {
        var k :| k in init && k.block == Top(init);
        assert k in history;
      }
      assert history[|history| - 1] in history;
    }
  }

  // An answer "seen" is always right, and at or above the highest block the
  // answer is exact in both directions.
  lemma FilterIsExactAtTop(history: seq<Key>, k: Key)
    ensures Remembered(history, k) ==> k in history
    ensures k.block >= Top(history) ==> (Remembered(history, k) <==> k in history)
  {
    TopIsHighest(history);
    if k.block >= Top(history) && k in history {
      var i: nat :| i < |history| && history[i] == k;
      forall j: nat | i < j < |history|
        ensures history[j].block <= k.block
      {
        assert history[j] in history;
      }
    }
  }

  // How one more entry changes what is remembered.
  lemma RememberedNext(history: seq<Key>, e: Key, k: Key)
    ensures Remembered(history + [e], k) <==>
      k == e || (Remembered(history, k) && (e.block >= Top(history) ==> e.block <= k.block))
  {
    hide Top;
    var h := history + [e];
    var n := |history|;
    assert h[..n] == history;
    assert forall j: nat :: j < n ==> h[..j] == history[..j];
    assert Cleans(h, n) <==> e.block >= Top(history);
    assert forall j: nat :: j < n ==> (Cleans(h, j) <==> Cleans(history, j));
    if k == e {
      assert h[n] == k;
    }
    if Remembered(history, k) && (e.block >= Top(history) ==> e.block <= k.block) {
      var i: nat :| i < |history| && history[i] == k &&
        forall j: nat :: i < j < |history| && Cleans(history, j) ==> history[j].block <= k.block;
      assert h[i] == k;
    }
    if Remembered(h, k) && k != e {
      var i: nat :| i < |h| && h[i] == k && forall j: nat :: i < j < |h| && Cleans(h, j) ==> h[j].block <= k.block;
      assert history[i] == k;
      forall j: nat | i < j < |history| && Cleans(history, j)
        ensures history[j].block <= k.block
      {
        assert Cleans(h, j);
      }
    }
  }

  ghost predicate Holds(data: map<Block, set<Hash>>, k: Key)
  {
    k.block in data && k.tx in data[k.block]
  }

  class LogCache {
    var blockNumber: Block
    var data: map<Block, set<Hash>>
    ghost var history: seq<Key>

    // The bounded table remembers exactly what the rule says.
    ghost predicate Valid()
      reads this
    {
      && blockNumber == Top(history)
      && forall k :: Holds(data, k) <==> Remembered(history, k)
    }

    constructor ()
      ensures Valid() && history == []
    {
      blockNumber, data, history := 0, map[], [];
    }

    method Exists(log: Log) returns (exists_: bool)
      requires Valid()
      modifies this
      ensures Valid() && history == old(history) + [KeyOf(log)]
      ensures exists_ <==> Remembered(old(history), KeyOf(log))
    {
      ghost var before := data;
      ghost var e := KeyOf(log);
      if blockNumber <= log.block {
        blockNumber := log.block;
        Cleanup();
      }
      exists_ := AddTxExists(log.block, log.tx);
      history := history + [e];
      assert history[..|history| - 1] == old(history);
      forall k
        ensures Holds(data, k) <==> Remembered(history, k)
      {
        RememberedNext(old(history), e, k);
        assert Holds(before, k) <==> Remembered(old(history), k);
      }
      assert Holds(before, e) <==> Remembered(old(history), e);
    }

    method AddTxExists(blockNumber: Block, txHash: Hash) returns (txExists: bool)
      modifies this`data
      ensures txExists <==> old(Holds(data, Key(blockNumber, txHash)))
      ensures forall k :: Holds(data, k) <==> old(Holds(data, k)) || k == Key(blockNumber, txHash)
    {
      if blockNumber in data {
        txExists := txHash in data[blockNumber];
        if !txExists {
          data := data[blockNumber := data[blockNumber] + {txHash}];
        }
      } else {
        data := data[blockNumber := {txHash}];
        txExists := false;
      }
    }

    // Drop every block below the current one.
    method Cleanup()
      modifies this`data
      ensures forall k :: Holds(data, k) <==> old(Holds(data, k)) && k.block >= blockNumber
    {
      var todo := data.Keys;
      while todo != {}
        invariant todo <= old(data).Keys
        invariant data.Keys <= old(data).Keys
        invariant forall u :: u in old(data) ==> (u in data <==> u in todo || u >= blockNumber)
        invariant forall u :: u in data ==> data[u] == old(data)[u]
        decreases todo
      {
        var u :| u in todo;
        if u < blockNumber { data := data - {u}; }
        todo := todo - {u};
      }
    }
  }

  // ---- The watcher ----

  function Keys(logs: seq<Log>): (ks: seq<Key>)
    ensures |ks| == |logs| && forall i :: 0 <= i < |logs| ==> ks[i] == KeyOf(logs[i])
  {
    seq(|logs|, i requires 0 <= i < |logs| => KeyOf(logs[i]))
  }

  // Whether log k of the stream reaches the handler: the cache does not know
  // it and it unpacks.
  ghost predicate Fires(unpack: Log -> bool, logs: seq<Log>, k: nat)
    requires k < |logs|
  {
    !Remembered(Keys(logs[..k]), KeyOf(logs[k])) && unpack(logs[k])
  }

  ghost function Handled(unpack: Log -> bool, logs: seq<Log>): seq<Log>
  {
    if logs == [] then []
    else
      var n := |logs| - 1;
      Handled(unpack, logs[..n]) + (if Fires(unpack, logs, n) then [logs[n]] else [])
  }

  // Successive subscriptions, each resumed from BlockNumber() and delivering in
  // block order, form one stream in block order.
  ghost predicate InOrder(logs: seq<Log>)
  {
    forall i, j :: 0 <= i < j < |logs| ==> logs[i].block <= logs[j].block
  }

  ghost predicate Resumes(logs: seq<Log>, more: seq<Log>)
  {
    InOrder(logs) && InOrder(more) && forall i :: 0 <= i < |more| ==> more[i].block >= Top(Keys(logs))
  }

  lemma ResumeKeepsOrder(logs: seq<Log>, more: seq<Log>, used: nat)
    requires Resumes(logs, more) && used <= |more|
    ensures InOrder(logs + more[..used])
  {
    TopIsHighest(Keys(logs));
    var all := logs + more[..used];
    forall i, j | 0 <= i < j < |all|
      ensures all[i].block <= all[j].block
    {
      if i < |logs| <= j {
        assert Keys(logs)[i] in Keys(logs);
        assert more[j - |logs|].block >= Top(Keys(logs));
      } else if |logs| <= i {
        assert more[i - |logs|].block <= more[j - |logs|].block;
      }
    }
  }

  ghost predicate SeenBefore(logs: seq<Log>, k: nat)
    requires k < |logs|
  {
    exists j: nat :: j < k && KeyOf(logs[j]) == KeyOf(logs[k])
  }

  // Between logs i and k a log of a higher block than i's made the cache drop i.
  ghost predicate Dropped(logs: seq<Log>, i: nat, k: nat)
    requires i < k < |logs|
  {
    exists j: nat :: i < j < k && Cleans(Keys(logs), j) && logs[j].block > logs[i].block
  }

  // Every earlier log with the key of log k was dropped before k.
  ghost predicate Fresh(logs: seq<Log>, k: nat)
    requires k < |logs|
  {
    forall i: nat :: i < k && KeyOf(logs[i]) == KeyOf(logs[k]) ==> Dropped(logs, i, k)
  }

  lemma CleansInPrefix(logs: seq<Log>, k: nat, j: nat)
    requires j < k <= |logs|
    ensures Cleans(Keys(logs[..k]), j) <==> Cleans(Keys(logs), j)
  {
    assert Keys(logs[..k])[..j] == Keys(logs)[..j];
  }

  // On any stream, in whatever order: a log reaches the handler exactly when it
  // is fresh and unpacks.
  lemma FiresIffFresh(unpack: Log -> bool, logs: seq<Log>, k: nat)
    requires k < |logs|
    ensures Fires(unpack, logs, k) <==> Fresh(logs, k) && unpack(logs[k])
  {
    hide Cleans;
    var past, key := Keys(logs[..k]), KeyOf(logs[k]);
    forall j: nat | j < k
      ensures Cleans(past, j) <==> Cleans(Keys(logs), j)
    {
      CleansInPrefix(logs, k, j);
    }
    if Remembered(past, key) {
      var i: nat :| i < |past| && past[i] == key &&
        forall j: nat :: i < j < |past| && Cleans(past, j) ==> past[j].block <= key.block;
      assert KeyOf(logs[i]) == key && !Dropped(logs, i, k);
    }
    if !Fresh(logs, k) {
      var i: nat :| i < k && KeyOf(logs[i]) == key && !Dropped(logs, i, k);
      assert past[i] == key;
      assert Remembered(past, key);
    }
  }

  // In block order nothing is dropped before its last occurrence.
  lemma FreshInOrder(logs: seq<Log>, k: nat)
    requires InOrder(logs) && k < |logs|
    ensures Fresh(logs, k) <==> !SeenBefore(logs, k)
    ensures forall i: nat :: i < k && KeyOf(logs[i]) == KeyOf(logs[k]) ==> !Dropped(logs, i, k)
  {
    forall i: nat | i < k && KeyOf(logs[i]) == KeyOf(logs[k])
      ensures !Dropped(logs, i, k)
    {
      assert forall j: nat :: i < j < k ==> logs[j].block <= logs[k].block;
    }
  }

  // In block order the bounded cache decides like an unbounded one.
  lemma FiresIff(unpack: Log -> bool, logs: seq<Log>, k: nat)
    requires InOrder(logs) && k < |logs|
    ensures Fires(unpack, logs, k) <==> !SeenBefore(logs, k) && unpack(logs[k])
  {
    FiresIffFresh(unpack, logs, k);
    FreshInOrder(logs, k);
  }

  lemma FiresInPrefix(unpack: Log -> bool, logs: seq<Log>, n: nat, k: nat)
    requires k < n <= |logs|
    ensures Fires(unpack, logs[..n], k) <==> Fires(unpack, logs, k)
  {
    assert logs[..n][..k] == logs[..k];
  }

  // A handled log is one that fired at some position.
  lemma {:induction false} HandledFired(unpack: Log -> bool, logs: seq<Log>, l: Log) returns (k: nat)
    requires l in Handled(unpack, logs)
    ensures k < |logs| && logs[k] == l && Fires(unpack, logs, k)
    decreases |logs|
  {
    var n := |logs| - 1;
    if l in Handled(unpack, logs[..n]) {
      k := HandledFired(unpack, logs[..n], l);
      FiresInPrefix(unpack, logs, n, k);
    } else {
      k := n;
    }
  }

  lemma {:induction false} FiredHandled(unpack: Log -> bool, logs: seq<Log>, k: nat)
    requires k < |logs| && Fires(unpack, logs, k)
    ensures logs[k] in Handled(unpack, logs)
    decreases |logs|
  {
    var n := |logs| - 1;
    if k < n {
      FiresInPrefix(unpack, logs, n, k);
      FiredHandled(unpack, logs[..n], k);
    }
  }

  // Two logs that fire are handled one after the other, and the other way round.
  lemma {:induction false} FiredPair(unpack: Log -> bool, logs: seq<Log>, i: nat, k: nat) returns (x: nat, y: nat)
    requires i < k < |logs| && Fires(unpack, logs, i) && Fires(unpack, logs, k)
    ensures x < y < |Handled(unpack, logs)|
    ensures Handled(unpack, logs)[x] == logs[i] && Handled(unpack, logs)[y] == logs[k]
    decreases |logs|
  {
    hide Fires;
    var n := |logs| - 1;
    var h := Handled(unpack, logs[..n]);
    assert Handled(unpack, logs) == h + (if Fires(unpack, logs, n) then [logs[n]] else []);
    hide Handled;
    FiresInPrefix(unpack, logs, n, i);
    if k == n {
      FiredHandled(unpack, logs[..n], i);
      x :| 0 <= x < |h| && h[x] == logs[i];
      y := |h|;
    } else {
      FiresInPrefix(unpack, logs, n, k);
      x, y := FiredPair(unpack, logs[..n], i, k);
    }
  }

  lemma {:induction false} HandledPair(unpack: Log -> bool, logs: seq<Log>, x: nat, y: nat) returns (i: nat, k: nat)
    requires x < y < |Handled(unpack, logs)|
    ensures i < k < |logs| && Fires(unpack, logs, i) && Fires(unpack, logs, k)
    ensures logs[i] == Handled(unpack, logs)[x] && logs[k] == Handled(unpack, logs)[y]
    decreases |logs|
  {
    var n := |logs| - 1;
    var h := Handled(unpack, logs[..n]);
    if y < |h| {
      i, k := HandledPair(unpack, logs[..n], x, y);
      FiresInPrefix(unpack, logs, n, i);
      FiresInPrefix(unpack, logs, n, k);
    } else {
      assert h[x] in h;
      i := HandledFired(unpack, logs[..n], h[x]);
      k := n;
      FiresInPrefix(unpack, logs, n, i);
    }
  }

  // No two handled logs have the same (block, transaction) pair, or the same
  // transaction.
  ghost predicate OncePerKey(h: seq<Log>)
  {
    forall x, y :: 0 <= x < y < |h| ==> KeyOf(h[x]) != KeyOf(h[y])
  }

  ghost predicate OncePerTx(h: seq<Log>)
  {
    forall x, y :: 0 <= x < y < |h| ==> h[x].tx != h[y].tx
  }

  // Two positions of the stream where logs of one pair (one transaction) are
  // fresh and unpack.
  ghost predicate FreshTwice(unpack: Log -> bool, logs: seq<Log>, i: nat, k: nat)
  {
    i < k < |logs| && Fresh(logs, i) && unpack(logs[i]) && Fresh(logs, k) && unpack(logs[k])
  }

  lemma FreshTwiceHandled(unpack: Log -> bool, logs: seq<Log>, i: nat, k: nat) returns (x: nat, y: nat)
    requires FreshTwice(unpack, logs, i, k)
    ensures x < y < |Handled(unpack, logs)|
    ensures Handled(unpack, logs)[x] == logs[i] && Handled(unpack, logs)[y] == logs[k]
  {
    hide Fresh;
    hide Fires;
    hide Handled;
    FiresIffFresh(unpack, logs, i);
    FiresIffFresh(unpack, logs, k);
    x, y := FiredPair(unpack, logs, i, k);
  }

  lemma HandledFreshTwice(unpack: Log -> bool, logs: seq<Log>, x: nat, y: nat) returns (i: nat, k: nat)
    requires x < y < |Handled(unpack, logs)|
    ensures FreshTwice(unpack, logs, i, k) && logs[i] == Handled(unpack, logs)[x] && logs[k] == Handled(unpack, logs)[y]
  {
    hide Fresh;
    hide Fires;
    hide Handled;
    i, k := HandledPair(unpack, logs, x, y);
    FiresIffFresh(unpack, logs, i);
    FiresIffFresh(unpack, logs, k);
  }

  // On any stream: no pair is handled twice exactly when none is fresh twice.
  lemma HandledOnceIff(unpack: Log -> bool, logs: seq<Log>)
    ensures OncePerKey(Handled(unpack, logs)) <==>
      forall i: nat, k: nat :: FreshTwice(unpack, logs, i, k) ==> KeyOf(logs[i]) != KeyOf(logs[k])
  {
    var h := Handled(unpack, logs);
    hide Fresh;
    hide Handled;
    if i: nat, k: nat :| FreshTwice(unpack, logs, i, k) && KeyOf(logs[i]) == KeyOf(logs[k]) {
      var x, y := FreshTwiceHandled(unpack, logs, i, k);
    } else if x: nat, y: nat :| x < y < |h| && KeyOf(h[x]) == KeyOf(h[y]) {
      var i, k := HandledFreshTwice(unpack, logs, x, y);
    }
  }

  // The same for transactions.
  lemma TxHandledOnceIff(unpack: Log -> bool, logs: seq<Log>)
    ensures OncePerTx(Handled(unpack, logs)) <==>
      forall i: nat, k: nat :: FreshTwice(unpack, logs, i, k) ==> logs[i].tx != logs[k].tx
  {
    var h := Handled(unpack, logs);
    hide Fresh;
    hide Handled;
    if i: nat, k: nat :| FreshTwice(unpack, logs, i, k) && logs[i].tx == logs[k].tx {
      var x, y := FreshTwiceHandled(unpack, logs, i, k);
    } else if x: nat, y: nat :| x < y < |h| && h[x].tx == h[y].tx {
      var i, k := HandledFreshTwice(unpack, logs, x, y);
    }
  }

  // The first log since the last drop is fresh.
  lemma {:induction false} FreshUpTo(logs: seq<Log>, k: nat) returns (f: nat)
    requires k < |logs|
    ensures f <= k && KeyOf(logs[f]) == KeyOf(logs[k]) && Fresh(logs, f)
    decreases k
  {
    if Fresh(logs, k) {
      f := k;
    } else {
      var i: nat :| i < k && KeyOf(logs[i]) == KeyOf(logs[k]) && !Dropped(logs, i, k);
      f := FreshUpTo(logs, i);
    }
  }

  // After a drop the pair becomes fresh again.
  lemma {:induction false} FreshAgain(logs: seq<Log>, i: nat, k: nat) returns (f: nat)
    requires i < k < |logs| && KeyOf(logs[i]) == KeyOf(logs[k]) && Dropped(logs, i, k)
    ensures i < f <= k && KeyOf(logs[f]) == KeyOf(logs[i]) && Fresh(logs, f)
    decreases k
  {
    hide Cleans;
    if Fresh(logs, k) {
      f := k;
    } else {
      var j: nat :| i < j < k && Cleans(Keys(logs), j) && logs[j].block > logs[i].block;
      var m: nat :| m < k && KeyOf(logs[m]) == KeyOf(logs[k]) && !Dropped(logs, m, k);
      assert logs[m].block == logs[i].block;
      assert m > j;
      assert Dropped(logs, i, m);
      f := FreshAgain(logs, i, m);
    }
  }

  // Log k has the key of the earlier log i, which the cache dropped in between.
  ghost predicate Returns(logs: seq<Log>, i: nat, k: nat)
  {
    i < k < |logs| && KeyOf(logs[i]) == KeyOf(logs[k]) && Dropped(logs, i, k)
  }

  // When all logs unpack: a pair is handled twice exactly when it is delivered
  // again after the cache dropped it, which takes a return to a lower block.
  lemma PairHandledOnceIfUnpacked(unpack: Log -> bool, logs: seq<Log>)
    requires forall k :: 0 <= k < |logs| ==> unpack(logs[k])
    ensures OncePerKey(Handled(unpack, logs)) <==> forall i: nat, k: nat :: !Returns(logs, i, k)
  {
    HandledOnceIff(unpack, logs);
    hide Handled;
    hide Dropped;
    if i: nat, k: nat :| Returns(logs, i, k) {
      var f := FreshUpTo(logs, i);
      var g := FreshAgain(logs, i, k);
      assert FreshTwice(unpack, logs, f, g);
    } else if i: nat, k: nat :| FreshTwice(unpack, logs, i, k) && KeyOf(logs[i]) == KeyOf(logs[k]) {
      assert Returns(logs, i, k);
    }
  }

  // Log k repeats the transaction of log i in another block.
  ghost predicate Moves(logs: seq<Log>, i: nat, k: nat)
  {
    i < k < |logs| && logs[i].tx == logs[k].tx && logs[i].block != logs[k].block
  }

  // When all logs unpack: a transaction is handled twice exactly when one of
  // its pairs is, or when it is delivered in two different blocks.
  lemma TxHandledOnceIfUnpacked(unpack: Log -> bool, logs: seq<Log>)
    requires forall k :: 0 <= k < |logs| ==> unpack(logs[k])
    ensures OncePerTx(Handled(unpack, logs)) <==>
      (forall i: nat, k: nat :: !Returns(logs, i, k)) && (forall i: nat, k: nat :: !Moves(logs, i, k))
  {
    TxHandledOnceIff(unpack, logs);
    hide Handled;
    hide Dropped;
    if i: nat, k: nat :| Returns(logs, i, k) {
      var f := FreshUpTo(logs, i);
      var g := FreshAgain(logs, i, k);
      assert FreshTwice(unpack, logs, f, g);
    } else if i: nat, k: nat :| Moves(logs, i, k) {
      var f := FreshUpTo(logs, i);
      var g := FreshUpTo(logs, k);
      assert f < g ==> FreshTwice(unpack, logs, f, g);
      assert g < f ==> FreshTwice(unpack, logs, g, f);
    } else if i: nat, k: nat :| FreshTwice(unpack, logs, i, k) && logs[i].tx == logs[k].tx {
      assert Returns(logs, i, k) || Moves(logs, i, k);
    }
  }

  // In block order no (block, transaction) pair is handled twice.
  lemma HandledOnce(unpack: Log -> bool, logs: seq<Log>)
    requires InOrder(logs)
    ensures OncePerKey(Handled(unpack, logs))
  {
    HandledOnceIff(unpack, logs);
    forall i: nat, k: nat | FreshTwice(unpack, logs, i, k)
      ensures KeyOf(logs[i]) != KeyOf(logs[k])
    {
      FreshInOrder(logs, k);
    }
  }

  // In block order a transaction is handled once exactly when no two blocks
  // delivered a first log of it that unpacks.
  lemma TxHandledOnceInOrderIff(unpack: Log -> bool, logs: seq<Log>)
    requires InOrder(logs)
    ensures OncePerTx(Handled(unpack, logs)) <==>
      forall i: nat, k: nat :: FirstTwice(unpack, logs, i, k) ==> logs[i].tx != logs[k].tx
  {
    TxHandledOnceIff(unpack, logs);
    forall i: nat, k: nat
      ensures FirstTwice(unpack, logs, i, k) <==> FreshTwice(unpack, logs, i, k)
    {
      if i < k < |logs| {
        FreshInOrder(logs, i);
        FreshInOrder(logs, k);
      }
    }
  }

  ghost predicate FirstTwice(unpack: Log -> bool, logs: seq<Log>, i: nat, k: nat)
  {
    i < k < |logs| && !SeenBefore(logs, i) && unpack(logs[i]) && !SeenBefore(logs, k) && unpack(logs[k])
  }

  lemma FirstIsUnique(logs: seq<Log>, i: nat, k: nat)
    requires i < |logs| && k < |logs| && KeyOf(logs[i]) == KeyOf(logs[k])
    requires !SeenBefore(logs, i) && !SeenBefore(logs, k)
    ensures i == k
  {
  }

  // The first delivered log of the pair did not unpack.
  ghost predicate LostToUnpack(unpack: Log -> bool, logs: seq<Log>, key: Key)
  {
    exists k: nat :: k < |logs| && KeyOf(logs[k]) == key && !SeenBefore(logs, k) && !unpack(logs[k])
  }

  // A delivered pair is handled exactly when its first log unpacks: the
  // cache marks a log before it is unpacked, so a failure is never retried.
  lemma {:induction false} DeliveredIsHandledIff(unpack: Log -> bool, logs: seq<Log>, k: nat)
    requires InOrder(logs) && k < |logs|
    ensures (exists l :: l in Handled(unpack, logs) && KeyOf(l) == KeyOf(logs[k]))
       <==> !LostToUnpack(unpack, logs, KeyOf(logs[k]))
    decreases k
  {
    if SeenBefore(logs, k) {
      var j: nat :| j < k && KeyOf(logs[j]) == KeyOf(logs[k]);
      DeliveredIsHandledIff(unpack, logs, j);
    } else {
      FiresIff(unpack, logs, k);
      if unpack(logs[k]) {
        FiredHandled(unpack, logs, k);
        forall i: nat | i < |logs| && KeyOf(logs[i]) == KeyOf(logs[k]) && !SeenBefore(logs, i)
          ensures unpack(logs[i])
        {
          FirstIsUnique(logs, i, k);
        }
      } else {
        forall l | l in Handled(unpack, logs)
          ensures KeyOf(l) != KeyOf(logs[k])
        {
          var i := HandledFired(unpack, logs, l);
          FiresIff(unpack, logs, i);
          if KeyOf(l) == KeyOf(logs[k]) { FirstIsUnique(logs, i, k); }
        }
      }
    }
  }

  // The logs of successive subscriptions, as far as each was consumed.
  function Stream(parts: seq<seq<Log>>): seq<Log>
  {
    if parts == [] then [] else Stream(parts[..|parts| - 1]) + parts[|parts| - 1]
  }

  // Each subscription delivers in block order from the highest block so far.
  ghost predicate Resumed(parts: seq<seq<Log>>)
  {
    forall k: nat :: k < |parts| ==>
      InOrder(parts[k]) && forall i :: 0 <= i < |parts[k]| ==> parts[k][i].block >= Top(Keys(Stream(parts[..k])))
  }

  lemma {:induction false} StreamInOrder(parts: seq<seq<Log>>)
    requires Resumed(parts)
    ensures InOrder(Stream(parts))
    decreases |parts|
  {
    if parts != [] {
      var n := |parts| - 1;
      var init := parts[..n];
      forall k: nat | k < n
        ensures InOrder(init[k]) && forall i :: 0 <= i < |init[k]| ==> init[k][i].block >= Top(Keys(Stream(init[..k])))
      {
        assert init[..k] == parts[..k] && init[k] == parts[k];
      }
      StreamInOrder(init);
      ResumeKeepsOrder(Stream(init), parts[n], |parts[n]|);
      assert parts[n][..|parts[n]|] == parts[n];
    }
  }

  // Over any number of broken and resumed subscriptions no (block, transaction)
  // pair is handled twice, and a delivered one is skipped exactly when its
  // first log does not unpack.
  lemma NoneTwiceNoneSkipped(unpack: Log -> bool, parts: seq<seq<Log>>)
    requires Resumed(parts)
    ensures OncePerKey(Handled(unpack, Stream(parts)))
    ensures forall k: nat :: k < |Stream(parts)| ==>
      ((exists l :: l in Handled(unpack, Stream(parts)) && KeyOf(l) == KeyOf(Stream(parts)[k]))
        <==> !LostToUnpack(unpack, Stream(parts), KeyOf(Stream(parts)[k])))
  {
    var logs := Stream(parts);
    StreamInOrder(parts);
    HandledOnce(unpack, logs);
    forall k: nat | k < |logs|
      ensures (exists l :: l in Handled(unpack, logs) && KeyOf(l) == KeyOf(logs[k]))
         <==> !LostToUnpack(unpack, logs, KeyOf(logs[k]))
    {
      DeliveredIsHandledIff(unpack, logs, k);
    }
  }

  // No two different delivered logs share a pair, and all unpack.
  ghost predicate OneLogPerTx(unpack: Log -> bool, logs: seq<Log>)
  {
    forall i: nat, j: nat :: i < |logs| && j < |logs| && KeyOf(logs[i]) == KeyOf(logs[j]) ==>
      logs[i] == logs[j] && unpack(logs[i])
  }

  lemma AllHandledIfOnePerTx(unpack: Log -> bool, logs: seq<Log>, k: nat)
    requires InOrder(logs) && OneLogPerTx(unpack, logs) && k < |logs|
    ensures logs[k] in Handled(unpack, logs)
  {
    DeliveredIsHandledIff(unpack, logs, k);
    var m :| m in Handled(unpack, logs) && KeyOf(m) == KeyOf(logs[k]);
    var i := HandledFired(unpack, logs, m);
    assert KeyOf(logs[i]) == KeyOf(logs[k]);
  }

  lemma OnePerTxIfAllHandled(unpack: Log -> bool, logs: seq<Log>, i: nat, j: nat)
    requires InOrder(logs) && i < |logs| && j < |logs| && KeyOf(logs[i]) == KeyOf(logs[j])
    requires logs[i] in Handled(unpack, logs) && logs[j] in Handled(unpack, logs)
    ensures logs[i] == logs[j] && unpack(logs[i])
  {
    hide Handled;
    hide Remembered;
    hide InOrder;
    var k := HandledFired(unpack, logs, logs[i]);
    var h := Handled(unpack, logs);
    var x :| 0 <= x < |h| && h[x] == logs[i];
    var y :| 0 <= y < |h| && h[y] == logs[j];
    HandledOnce(unpack, logs);
  }

  // Every delivered log reaches the handler exactly when each unpacks and no
  // two different logs share a (block, transaction) pair.
  lemma EveryLogHandledIff(unpack: Log -> bool, logs: seq<Log>)
    requires InOrder(logs)
    ensures (forall k: nat :: k < |logs| ==> logs[k] in Handled(unpack, logs)) <==> OneLogPerTx(unpack, logs)
  {
    if OneLogPerTx(unpack, logs) {
      forall k: nat | k < |logs|
        ensures logs[k] in Handled(unpack, logs)
      {
        AllHandledIfOnePerTx(unpack, logs, k);
      }
    }
    if forall k: nat :: k < |logs| ==> logs[k] in Handled(unpack, logs) {
      forall i: nat, j: nat | i < |logs| && j < |logs| && KeyOf(logs[i]) == KeyOf(logs[j])
        ensures logs[i] == logs[j] && unpack(logs[i])
      {
        OnePerTxIfAllHandled(unpack, logs, i, j);
      }
    }
  }

  // The order matters: a reorganisation that returns to an older block delivers
  // a pair again that was dropped, and it is handled twice.
  lemma ReorgHandlesTwice(unpack: Log -> bool, a: Log, b: Log)
    requires a.block < b.block && unpack(a)
    ensures Handled(unpack, [a, b, a]) == if unpack(b) then [a, b, a] else [a, a]
    ensures !OncePerKey(Handled(unpack, [a, b, a]))
  {
    hide Handled;
    HandledThree(unpack, a, b);
    var h := Handled(unpack, [a, b, a]);
    assert h[0] == a && h[|h| - 1] == a;
  }

  lemma HandledOne(unpack: Log -> bool, a: Log)
    requires unpack(a)
    ensures Handled(unpack, [a]) == [a]
  {
    HandledSnoc(unpack, [], a);
    assert Handled(unpack, []) == [] && [] + [a] == [a] && Keys([]) == [];
  }

  lemma HandledTwo(unpack: Log -> bool, a: Log, b: Log)
    requires a.block < b.block && unpack(a)
    ensures Handled(unpack, [a, b]) == if unpack(b) then [a, b] else [a]
  {
    hide Handled;
    hide Remembered;
    HandledOne(unpack, a);
    HandledSnoc(unpack, [a], b);
    ReorgForgets(KeyOf(a), KeyOf(b));
    assert Keys([a]) == [KeyOf(a)] && [a] + [b] == [a, b];
  }

  lemma HandledThree(unpack: Log -> bool, a: Log, b: Log)
    requires a.block < b.block && unpack(a)
    ensures Handled(unpack, [a, b, a]) == if unpack(b) then [a, b, a] else [a, a]
  {
    hide Handled;
    hide Remembered;
    HandledTwo(unpack, a, b);
    HandledSnoc(unpack, [a, b], a);
    ReorgForgets(KeyOf(a), KeyOf(b));
    assert Keys([a, b]) == [KeyOf(a), KeyOf(b)] && [a, b] + [a] == [a, b, a];
  }

  lemma HandledSnoc(unpack: Log -> bool, logs: seq<Log>, l: Log)
    ensures Handled(unpack, logs + [l]) ==
      Handled(unpack, logs) + if !Remembered(Keys(logs), KeyOf(l)) && unpack(l) then [l] else []
  {
    hide Remembered;
    assert (logs + [l])[..|logs|] == logs;
  }

  // A higher block makes the cache forget a lower one.
  lemma ReorgForgets(a: Key, b: Key)
    requires a.block < b.block
    ensures !Remembered([], a) && !Remembered([a], b) && !Remembered([a, b], a)
  {
    var h := [a, b];
    assert h[..1] == [a] && [a][..0] == [];
    assert Top(h[..1]) == a.block;
    assert Cleans(h, 1) && h[1].block > a.block;
  }

  // A log that is new after the given ones and does not unpack.
  ghost predicate Refused(unpack: Log -> bool, logs: seq<Log>, l: Log)
  {
    !Remembered(Keys(logs), KeyOf(l)) && !unpack(l)
  }

  // How a subscription ends: it breaks, with an error or by unsubscribing, or
  // the watcher is told to quit.
  datatype End = Broken(error: bool) | Quit

  class ClientWatcher {
    const cache: LogCache
    const unpack: Log -> bool
    var subscribed: bool
    var handled: seq<Log>
    ghost var logs: seq<Log>

    ghost predicate Valid()
      reads this, cache
    {
      cache.Valid() && cache.history == Keys(logs) && handled == Handled(unpack, logs)
    }

    constructor (unpack: Log -> bool)
      ensures Valid() && fresh(cache) && logs == [] && this.unpack == unpack
    {
      cache := new LogCache();
      this.unpack := unpack;
      subscribed, handled, logs := false, [], [];
    }

    // The start of the log query of watchLogs.
    method FromBlock() returns (from: Option<Block>)
      requires Valid()
      ensures from == None <==> Top(Keys(logs)) == 0
      ensures from.Some? ==> from.value == Top(Keys(logs))
    {
      from := if cache.blockNumber > 0 then Some(cache.blockNumber) else None;
    }

    // One iteration of the event loop of watchEvents; `failed` ends the subscription.
    method OnLog(log: Log) returns (failed: bool)
      requires Valid()
      modifies this`handled, this`logs, cache
      ensures Valid() && logs == old(logs) + [log]
      ensures failed <==> Refused(unpack, old(logs), log)
    {
      var known := cache.Exists(log);
      ghost var all := logs + [log];
      assert all[..|logs|] == logs;
      assert Keys(all) == Keys(logs) + [KeyOf(log)];
      failed := !known && !unpack(log);
      if !known && !failed {
        handled := handled + [log];
      }
      logs := all;
    }

    // The events of one subscription until it ends or up to the first new log
    // that does not unpack.
    // Only a break clears `subscribed`, and only a break with an error asks for
    // resubscription.
    method Consume(delivered: seq<Log>, end: End) returns (used: nat, failed: bool, signal: bool)
      requires Valid()
      modifies this, cache
      ensures used <= |delivered| && (used < |delivered| ==> failed)
      ensures Valid() && logs == old(logs) + delivered[..used]
      ensures forall k: nat :: k < used ==>
        (Refused(unpack, old(logs) + delivered[..k], delivered[k]) <==> failed && k == used - 1)
      ensures failed ==> used > 0
      ensures subscribed <==> failed || end == Quit
      ensures signal <==> !failed && end == Broken(true)
    {
      hide Handled;
      hide Keys;
      hide Remembered;
      subscribed := true;
      used, failed, signal := 0, false, false;
      assert old(logs) + delivered[..0] == old(logs);
      while used < |delivered| && !failed
        invariant used <= |delivered| && subscribed
        invariant Valid() && logs == old(logs) + delivered[..used]
        invariant failed ==> used > 0
        invariant forall k: nat :: k < used ==>
          (Refused(unpack, old(logs) + delivered[..k], delivered[k]) <==> failed && k == used - 1)
        decreases |delivered| - used
      {
        assert delivered[..used + 1] == delivered[..used] + [delivered[used]];
        failed := OnLog(delivered[used]);
        used := used + 1;
      }
      if failed { return; }
      match end {
        case Broken(error) =>
          subscribed := false;
          signal := error;
        case Quit =>
      }
    }
  }
}
