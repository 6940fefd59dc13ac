// The nonce index of a transaction list: Go's container/heap over a slice of
// uint64 (chain/tx_list.go).
module NonceHeap {
  import opened Limits

  type Nonce = x: int | 0 <= x < TWO_64

  function Parent(j: nat): nat
  {
    if j == 0 then 0 else (j - 1) / 2
  }

  // The first n elements form a min-heap.
  ghost predicate Heap(h: seq<Nonce>, n: nat)
    requires n <= |h|
  {
    forall j: nat :: 0 < j < n ==> h[Parent(j)] <= h[j]
  }

  function Swap(h: seq<Nonce>, i: nat, j: nat): (r: seq<Nonce>)
    requires i < |h| && j < |h|
    ensures |r| == |h| && multiset(r) == multiset(h)
  {
    h[i := h[j]][j := h[i]]
  }

  lemma {:induction false} RootIsLeast(h: seq<Nonce>, n: nat, j: nat)
    requires n <= |h| && Heap(h, n) && j < n
    ensures h[0] <= h[j]
    decreases j
  {
    if j > 0 { RootIsLeast(h, n, Parent(j)); }
  }

  // A heap but for the edge above position j.
  ghost predicate BrokenAbove(h: seq<Nonce>, j: nat)
  {
    && j < |h|
    && (forall k: nat :: 0 < k < |h| && k != j ==> h[Parent(k)] <= h[k])
    && (forall k: nat :: 0 < j && 0 < k < |h| && Parent(k) == j ==> h[Parent(j)] <= h[k])
  }

  // A heap of n elements but for the edges below position i.
  ghost predicate BrokenBelow(h: seq<Nonce>, n: nat, i: nat)
  {
    && n <= |h|
    && (forall k: nat :: 0 < k < n && Parent(k) != i ==> h[Parent(k)] <= h[k])
    && (forall k: nat :: 0 < i && 0 < k < n && Parent(k) == i ==> h[Parent(i)] <= h[k])
  }

  lemma ParentBelow(j: nat)
    requires 0 < j
    ensures Parent(j) < j
  {
  }

  lemma Children(i: nat, j: nat)
    ensures 0 < j && Parent(j) == i <==> j == 2 * i + 1 || j == 2 * i + 2
  {
  }

  lemma UpStep(h: seq<Nonce>, j: nat)
    requires BrokenAbove(h, j) && 0 < j && h[j] < h[Parent(j)]
    ensures BrokenAbove(Swap(h, Parent(j), j), Parent(j))
  {
    var p := Parent(j);
    var s := Swap(h, p, j);
    ParentBelow(j);
    forall k: nat | 0 < k < |h|
      ensures Parent(k) < k
    {
      ParentBelow(k);
    }
    hide Parent;
    forall k: nat | 0 < k < |s| && k != p
      ensures s[Parent(k)] <= s[k]
    {
      if k != j { assert h[Parent(k)] <= h[k]; }
    }
    forall k: nat | 0 < p && 0 < k < |s| && Parent(k) == p
      ensures s[Parent(p)] <= s[k]
    {
      assert h[Parent(p)] <= h[p];
      if k != j { assert h[p] <= h[k]; }
    }
  }

  lemma DownStep(h: seq<Nonce>, n: nat, i: nat, j: nat)
    requires BrokenBelow(h, n, i) && 0 < j < n && Parent(j) == i && h[j] < h[i]
    requires forall k: nat :: 0 < k < n && Parent(k) == i ==> h[j] <= h[k]
    ensures BrokenBelow(Swap(h, i, j), n, j)
  {
    var s := Swap(h, i, j);
    forall k: nat | 0 < k < n
      ensures Parent(k) < k
    {
      ParentBelow(k);
    }
    hide Parent;
    forall k: nat | 0 < k < n && Parent(k) != j
      ensures s[Parent(k)] <= s[k]
    {
      if k == i {
        assert h[Parent(i)] <= h[j];
      } else if Parent(k) != i {
        assert h[Parent(k)] <= h[k];
      }
    }
    forall k: nat | 0 < k < n && Parent(k) == j
      ensures s[Parent(j)] <= s[k]
    {
      assert h[Parent(k)] <= h[k];
    }
  }

  // No child of i is smaller, so nothing is broken any more.
  lemma DownDone(h: seq<Nonce>, n: nat, i: nat)
    requires BrokenBelow(h, n, i) && (i < n || n <= 2 * i + 1)
    requires 2 * i + 1 < n ==> h[i] <= h[2 * i + 1]
    requires 2 * i + 2 < n ==> h[i] <= h[2 * i + 2]
    ensures Heap(h, n)
  {
    forall k: nat | 0 < k < n
      ensures h[Parent(k)] <= h[k]
    {
      Children(i, k);
    }
  }

  // The smaller of the children of i.
  method SmallerChild(h: seq<Nonce>, n: nat, i: nat) returns (j: nat)
    requires n <= |h| && 2 * i + 1 < n
    ensures 0 < j < n && Parent(j) == i && i < j
    ensures forall k: nat :: 0 < k < n && Parent(k) == i ==> h[j] <= h[k]
    ensures h[j] <= h[2 * i + 1] && (2 * i + 2 < n ==> h[j] <= h[2 * i + 2])
  {
    j := 2 * i + 1;
    if j + 1 < n && h[j + 1] < h[j] { j := j + 1; }
    Children(i, j);
    forall k: nat | 0 < k < n && Parent(k) == i
      ensures h[j] <= h[k]
    {
      Children(i, k);
    }
  }

  // heap.up
  method Up(h0: seq<Nonce>, j0: nat) returns (h: seq<Nonce>)
    requires j0 + 1 == |h0| && Heap(h0, j0)
    ensures |h| == |h0| && Heap(h, |h|) && multiset(h) == multiset(h0)
  {
    h := h0;
    var j: nat := j0;
    while true
      invariant |h| == |h0| && multiset(h) == multiset(h0)
      invariant BrokenAbove(h, j)
      decreases j
    {
      var i := Parent(j);
      if i == j || !(h[j] < h[i]) { break; }
      UpStep(h, j);
      h := Swap(h, i, j);
      j := i;
    }
  }

  // heap.down from the root, on the first n elements.
  method Down(h0: seq<Nonce>, n: nat) returns (h: seq<Nonce>)
    requires BrokenBelow(h0, n, 0)
    ensures |h| == |h0| && Heap(h, n) && multiset(h) == multiset(h0)
    ensures h[n..] == h0[n..]
  {
    assert n <= |h0|;
    hide BrokenBelow;
    hide Heap;
    hide Parent;
    h := h0;
    var i: nat := 0;
    while true
      invariant n <= |h| == |h0| && multiset(h) == multiset(h0) && h[n..] == h0[n..]
      invariant BrokenBelow(h, n, i)
      decreases n - i
    {
      if 2 * i + 1 >= n {
        DownDone(h, n, i);
        break;
      }
      var j := SmallerChild(h, n, i);
      if !(h[j] < h[i]) {
        DownDone(h, n, i);
        break;
      }
      DownStep(h, n, i, j);
      h := Swap(h, i, j);
      i := j;
    }
  }

  // heap.Push
  method Push(h0: seq<Nonce>, x: Nonce) returns (h: seq<Nonce>)
    requires Heap(h0, |h0|)
    ensures Heap(h, |h|) && multiset(h) == multiset(h0) + multiset{x}
  {
    h := Up(h0 + [x], |h0|);
  }

  // heap.Pop: the least element and a heap of the others.
  method Pop(h0: seq<Nonce>) returns (x: Nonce, h: seq<Nonce>)
    requires h0 != [] && Heap(h0, |h0|)
    ensures Heap(h, |h|) && multiset(h0) == multiset(h) + multiset{x}
    ensures x == h0[0] && forall k :: 0 <= k < |h| ==> x <= h[k]
  {
    var n := |h0| - 1;
    var s := Swap(h0, 0, n);
    var d := Down(s, n);
    x, h := d[n], d[..n];
    assert d[n..][0] == s[n..][0];
    assert d == h + [x];
    forall k | 0 <= k < |h|
      ensures x <= h[k]
    {
      assert h[k] in multiset(h0);
      var j :| 0 <= j < |h0| && h0[j] == h[k];
      RootIsLeast(h0, |h0|, j);
    }
  }
}
