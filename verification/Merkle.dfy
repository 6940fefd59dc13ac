// The Merkle tree over a block's transactions (chain/merkle_tree.go).
module Merkle {
  import opened Options
  import opened Bits

  type Bytes = seq<int>

  datatype Node = Leaf(data: Bytes) | Inner(left: Node, right: Node, data: Bytes)

  // NewMerkleNode for a leaf and for two children.
  function NewLeaf(hash: Bytes -> Bytes, datum: Bytes): Node
  {
    Leaf(hash(datum))
  }

  function NewInner(hash: Bytes -> Bytes, left: Node, right: Node): Node
  {
    Inner(left, right, hash(left.data + right.data))
  }

  // An odd list has its last element repeated.
  function Padded(data: seq<Bytes>): seq<Bytes>
  {
    if |data| % 2 != 0 then data + [data[|data| - 1]] else data
  }

  function LeafNodes(hash: Bytes -> Bytes, data: seq<Bytes>): seq<Node>
  {
    seq(|data|, i requires 0 <= i < |data| => NewLeaf(hash, data[i]))
  }

  // One pass of the inner loop over an even number of nodes.
  function PairUp(hash: Bytes -> Bytes, nodes: seq<Node>): (r: seq<Node>)
    requires |nodes| % 2 == 0
    ensures 2 * |r| == |nodes|
  {
    if nodes == [] then [] else [NewInner(hash, nodes[0], nodes[1])] + PairUp(hash, nodes[2..])
  }

  // k passes; None when some pass meets an odd number of nodes and indexes
  // past the end.
  function Rounds(hash: Bytes -> Bytes, nodes: seq<Node>, k: nat): Option<seq<Node>>
    decreases k
  {
    if k == 0 then Some(nodes)
    else if |nodes| % 2 != 0 then None
    else Rounds(hash, PairUp(hash, nodes), k - 1)
  }

  function Tree(hash: Bytes -> Bytes, data: seq<Bytes>): Option<Node>
  {
    var padded := Padded(data);
    var top := Rounds(hash, LeafNodes(hash, padded), |padded| / 2);
    if top.Some? && top.value != [] then Some(top.value[0]) else None
  }

  // ---- When the build finishes ----

  lemma RoundsNext(hash: Bytes -> Bytes, nodes: seq<Node>, k: nat)
    requires k > 0
    ensures Rounds(hash, nodes, k) == if |nodes| % 2 != 0 then None else Rounds(hash, PairUp(hash, nodes), k - 1)
  {
  }

  lemma {:induction false} RoundsHalve(hash: Bytes -> Bytes, nodes: seq<Node>, k: nat)
    requires Rounds(hash, nodes, k).Some?
    ensures |nodes| == |Rounds(hash, nodes, k).value| * Pow2(k)
    decreases k
  {
    if k > 0 {
      RoundsNext(hash, nodes, k);
      hide Rounds;
      RoundsHalve(hash, PairUp(hash, nodes), k - 1);
      Double(|Rounds(hash, nodes, k).value|, Pow2(k - 1));
    }
  }

  lemma Double(m: nat, p: nat)
    ensures m * (2 * p) == 2 * (m * p)
  {
  }

  lemma {:induction false} RoundsNeed(hash: Bytes -> Bytes, nodes: seq<Node>, k: nat)
    requires Rounds(hash, nodes, k).Some? && nodes != []
    ensures |nodes| >= Pow2(k)
    decreases k
  {
    if k > 0 { RoundsNeed(hash, PairUp(hash, nodes), k - 1); }
  }

  lemma {:induction false} TwiceBelowPow2(k: nat)
    requires k >= 3
    ensures 2 * k < Pow2(k)
  {
    if k > 3 { TwiceBelowPow2(k - 1); }
  }

  // The number of rounds is half the padded length, not its logarithm, so the
  // build indexes past the end for every list but those of one to four elements.
  lemma FinishesIff(hash: Bytes -> Bytes, data: seq<Bytes>)
    ensures Tree(hash, data).Some? <==> 1 <= |data| <= 4
  {
    var leaves := LeafNodes(hash, Padded(data));
    var k := |Padded(data)| / 2;
    if k == 0 {
    } else if k == 1 {
      assert Rounds(hash, leaves, 1) == Some(PairUp(hash, leaves));
    } else if k == 2 {
      var mid := PairUp(hash, leaves);
      assert Rounds(hash, mid, 1) == Some(PairUp(hash, mid));
    } else {
      TwiceBelowPow2(k);
      if Rounds(hash, leaves, k).Some? {
        RoundsNeed(hash, leaves, k);
      }
    }
  }

  // ---- What the nodes hold ----

  function Leaves(t: Node): seq<Bytes>
  {
    match t
    case Leaf(d) => [d]
    case Inner(l, r, _) => Leaves(l) + Leaves(r)
  }

  function AllLeaves(nodes: seq<Node>): seq<Bytes>
  {
    if nodes == [] then [] else Leaves(nodes[0]) + AllLeaves(nodes[1..])
  }

  // A complete tree of depth k whose inner nodes hash their children.
  ghost predicate Built(hash: Bytes -> Bytes, t: Node, k: nat)
  {
    if k == 0 then t.Leaf?
    else
      && t.Inner? && Built(hash, t.left, k - 1) && Built(hash, t.right, k - 1)
      && t.data == hash(t.left.data + t.right.data)
  }

  ghost predicate AllBuilt(hash: Bytes -> Bytes, nodes: seq<Node>, k: nat)
  {
    forall i :: 0 <= i < |nodes| ==> Built(hash, nodes[i], k)
  }

  // A completed level: the same leaves from left to right, one level deeper.
  lemma {:induction false} PairUpKeeps(hash: Bytes -> Bytes, nodes: seq<Node>, k: nat)
    requires |nodes| % 2 == 0 && AllBuilt(hash, nodes, k)
    ensures AllBuilt(hash, PairUp(hash, nodes), k + 1)
    ensures AllLeaves(PairUp(hash, nodes)) == AllLeaves(nodes)
    decreases |nodes|
  {
    if nodes != [] {
      PairUpKeeps(hash, nodes[2..], k);
      var rest := PairUp(hash, nodes[2..]);
      var up := PairUp(hash, nodes);
      assert up[0] == NewInner(hash, nodes[0], nodes[1]) && up[1..] == rest;
      assert Built(hash, nodes[0], k) && Built(hash, nodes[1], k);
      assert nodes[1..][1..] == nodes[2..];
      forall i | 0 <= i < |up|
        ensures Built(hash, up[i], k + 1)
      {
        if i > 0 { assert up[i] == rest[i - 1]; }
      }
    }
  }

  lemma {:induction false} RoundsKeep(hash: Bytes -> Bytes, nodes: seq<Node>, d: nat, k: nat)
    requires AllBuilt(hash, nodes, d) && Rounds(hash, nodes, k).Some?
    ensures AllBuilt(hash, Rounds(hash, nodes, k).value, d + k)
    ensures AllLeaves(Rounds(hash, nodes, k).value) == AllLeaves(nodes)
    decreases k
  {
    hide AllBuilt;
    hide AllLeaves;
    if k > 0 {
      PairUpKeeps(hash, nodes, d);
      var up := PairUp(hash, nodes);
      RoundsKeep(hash, up, d + 1, k - 1);
      assert Rounds(hash, nodes, k) == Rounds(hash, up, k - 1);
      assert d + 1 + (k - 1) == d + k;
    }
  }

  lemma {:induction false} LeavesOfLeaves(hash: Bytes -> Bytes, data: seq<Bytes>)
    ensures |AllLeaves(LeafNodes(hash, data))| == |data|
    ensures forall i :: 0 <= i < |data| ==> AllLeaves(LeafNodes(hash, data))[i] == hash(data[i])
  {
    if data != [] {
      LeavesOfLeaves(hash, data[1..]);
      assert LeafNodes(hash, data)[1..] == LeafNodes(hash, data[1..]);
    }
  }

  lemma TreeLeaves(hash: Bytes -> Bytes, data: seq<Bytes>)
    requires 1 <= |data| <= 4
    ensures Tree(hash, data).Some? && Built(hash, Tree(hash, data).value, |Padded(data)| / 2)
    ensures Leaves(Tree(hash, data).value) == AllLeaves(LeafNodes(hash, Padded(data)))
  {
    FinishesIff(hash, data);
    var leaves := LeafNodes(hash, Padded(data));
    var k := |Padded(data)| / 2;
    var top := Rounds(hash, leaves, k).value;
    RoundsHalve(hash, leaves, k);
    assert k == 1 || k == 2;
    assert Pow2(1) == 2 && Pow2(2) == 4;
    assert |top| == 1;
    RoundsKeep(hash, leaves, 0, k);
    assert AllLeaves(top) == Leaves(top[0]) + [];
  }

  // The finished tree has depth |Padded| / 2 and as its leaves, in order, the
  // hashes of the input and once more that of the last element of an odd one.
  lemma TreeHolds(hash: Bytes -> Bytes, data: seq<Bytes>)
    requires 1 <= |data| <= 4
    ensures Tree(hash, data).Some? && Built(hash, Tree(hash, data).value, |Padded(data)| / 2)
    ensures var l := Leaves(Tree(hash, data).value);
      && |l| == |data| + |data| % 2
      && (forall i :: 0 <= i < |data| ==> l[i] == hash(data[i]))
      && (|data| % 2 == 1 ==> l[|data|] == hash(data[|data| - 1]))
  {
    TreeLeaves(hash, data);
    hide Tree;
    hide Leaves;
    hide AllLeaves;
    hide Built;
    LeavesOfLeaves(hash, Padded(data));
    var l, p := Leaves(Tree(hash, data).value), Padded(data);
    forall i | 0 <= i < |data|
      ensures l[i] == hash(data[i])
    {
      assert l[i] == hash(p[i]) && p[i] == data[i];
    }
  }

  // ---- What a root says about the data ----

  // The byte strings hashed at the inner nodes.
  function Inputs(t: Node): set<Bytes>
  {
    match t
    case Leaf(_) => {}
    case Inner(l, r, _) => {l.data + r.data} + Inputs(l) + Inputs(r)
  }

  ghost predicate Collision(hash: Bytes -> Bytes, xs: set<Bytes>, ys: set<Bytes>)
  {
    exists x, y :: x in xs && y in ys && x != y && hash(x) == hash(y)
  }

  ghost predicate FixedLength(hash: Bytes -> Bytes)
  {
    forall x :: |hash(x)| == |hash([])|
  }

  lemma CollisionGrows(hash: Bytes -> Bytes, xs: set<Bytes>, ys: set<Bytes>, more: set<Bytes>, also: set<Bytes>)
    requires Collision(hash, xs, ys) && xs <= more && ys <= also
    ensures Collision(hash, more, also)
  {
    var x, y :| x in xs && y in ys && x != y && hash(x) == hash(y);
    assert x in more && y in also;
  }

  lemma SplitEqual(a: Bytes, b: Bytes, c: Bytes, d: Bytes)
    requires a + b == c + d && |a| == |c|
    ensures a == c && b == d
  {
    assert a == (a + b)[..|a|] && c == (c + d)[..|c|];
    assert b == (a + b)[|a|..] && d == (c + d)[|c|..];
  }

  ghost predicate Wide(hash: Bytes -> Bytes, leaves: seq<Bytes>)
  {
    forall i :: 0 <= i < |leaves| ==> |leaves[i]| == |hash([])|
  }

  lemma WideParts(hash: Bytes -> Bytes, t: Node, k: nat)
    requires FixedLength(hash) && Built(hash, t, k) && Wide(hash, Leaves(t))
    ensures |t.data| == |hash([])|
    ensures k > 0 ==> Wide(hash, Leaves(t.left)) && Wide(hash, Leaves(t.right))
  {
    if k == 0 {
      assert Leaves(t)[0] == t.data;
    } else {
      var l, r := Leaves(t.left), Leaves(t.right);
      assert forall i :: 0 <= i < |l| ==> l[i] == Leaves(t)[i];
      assert forall i :: 0 <= i < |r| ==> r[i] == Leaves(t)[|l| + i];
    }
  }

  // Two trees of one depth with equal roots have equal leaves, or building
  // them ran into a hash collision.
  lemma {:induction false} RootBindsLeaves(hash: Bytes -> Bytes, s: Node, t: Node, k: nat)
    requires FixedLength(hash) && Built(hash, s, k) && Built(hash, t, k) && s.data == t.data
    requires Wide(hash, Leaves(s)) && Wide(hash, Leaves(t))
    ensures Leaves(s) == Leaves(t) || Collision(hash, Inputs(s), Inputs(t))
    decreases k
  {
    if k > 0 {
      WideParts(hash, s, k);
      WideParts(hash, t, k);
      WideParts(hash, s.left, k - 1);
      WideParts(hash, t.left, k - 1);
      var x, y := s.left.data + s.right.data, t.left.data + t.right.data;
      if x != y {
        assert x in Inputs(s) && y in Inputs(t);
      } else {
        SplitEqual(s.left.data, s.right.data, t.left.data, t.right.data);
        RootBindsLeaves(hash, s.left, t.left, k - 1);
        RootBindsLeaves(hash, s.right, t.right, k - 1);
        if Collision(hash, Inputs(s.left), Inputs(t.left)) {
          CollisionGrows(hash, Inputs(s.left), Inputs(t.left), Inputs(s), Inputs(t));
        } else if Collision(hash, Inputs(s.right), Inputs(t.right)) {
          CollisionGrows(hash, Inputs(s.right), Inputs(t.right), Inputs(s), Inputs(t));
        }
      }
    }
  }

  // Everything hashed while building the tree of the data.
  ghost function Hashed(hash: Bytes -> Bytes, data: seq<Bytes>): set<Bytes>
  {
    (set i | 0 <= i < |data| :: data[i]) + (if Tree(hash, data).Some? then Inputs(Tree(hash, data).value) else {})
  }

  // Equal roots of two lists of the same length mean equal lists, unless two
  // different strings that were hashed have the same hash.
  lemma RootBindsData(hash: Bytes -> Bytes, a: seq<Bytes>, b: seq<Bytes>)
    requires FixedLength(hash) && |a| == |b| && 1 <= |a| <= 4
    requires Tree(hash, a).Some? && Tree(hash, b).Some? && Tree(hash, a).value.data == Tree(hash, b).value.data
    ensures a == b || Collision(hash, Hashed(hash, a), Hashed(hash, b))
  {
    hide Tree;
    hide Leaves;
    hide Built;
    hide Inputs;
    TreeHolds(hash, a);
    TreeHolds(hash, b);
    var s, t := Tree(hash, a).value, Tree(hash, b).value;
    LeavesAreWide(hash, a);
    LeavesAreWide(hash, b);
    RootBindsLeaves(hash, s, t, |Padded(a)| / 2);
    if Collision(hash, Inputs(s), Inputs(t)) {
      CollisionGrows(hash, Inputs(s), Inputs(t), Hashed(hash, a), Hashed(hash, b));
    } else if a != b {
      var i :| 0 <= i < |a| && a[i] != b[i];
      assert hash(a[i]) == Leaves(s)[i] == Leaves(t)[i] == hash(b[i]);
      assert a[i] in Hashed(hash, a) && b[i] in Hashed(hash, b);
    }
  }

  lemma LeavesAreWide(hash: Bytes -> Bytes, data: seq<Bytes>)
    requires FixedLength(hash) && 1 <= |data| <= 4
    ensures Tree(hash, data).Some? && Wide(hash, Leaves(Tree(hash, data).value))
  {
    hide Tree;
    hide Leaves;
    hide Built;
    TreeHolds(hash, data);
    var l := Leaves(Tree(hash, data).value);
    forall i | 0 <= i < |l|
      ensures |l[i]| == |hash([])|
    {
      assert l[i] == hash(data[if i < |data| then i else |data| - 1]);
    }
  }

  // The length has to be fixed: repeating the last element of an odd list
  // gives the same tree.
  lemma PaddingIsInvisible(hash: Bytes -> Bytes, data: seq<Bytes>)
    requires |data| % 2 == 1
    ensures Tree(hash, data) == Tree(hash, data + [data[|data| - 1]])
  {
  }

  // What one pass makes of the nodes after the first p pairs.
  ghost function Rest(hash: Bytes -> Bytes, nodes: seq<Node>, p: nat): seq<Node>
  {
    if |nodes| % 2 == 0 && 2 * p <= |nodes| then PairUp(hash, nodes[2 * p..]) else []
  }

  lemma RestNext(hash: Bytes -> Bytes, nodes: seq<Node>, p: nat, level: seq<Node>)
    requires |nodes| % 2 == 0 && 2 * p + 1 < |nodes|
    ensures level + Rest(hash, nodes, p)
         == level + [NewInner(hash, nodes[2 * p], nodes[2 * p + 1])] + Rest(hash, nodes, p + 1)
  {
    var tail := nodes[2 * p..];
    assert tail[2..] == nodes[2 * (p + 1)..];
    assert PairUp(hash, tail) == [NewInner(hash, tail[0], tail[1])] + PairUp(hash, tail[2..]);
  }

  lemma RestEnds(hash: Bytes -> Bytes, nodes: seq<Node>)
    requires |nodes| % 2 == 0
    ensures Rest(hash, nodes, 0) == PairUp(hash, nodes) && Rest(hash, nodes, |nodes| / 2) == []
  {
    assert nodes[0..] == nodes;
  }

  // The inner loop of NewMerkleTree; None stands for the index panic.
  method NewLevel(hash: Bytes -> Bytes, nodes: seq<Node>) returns (level: Option<seq<Node>>)
    ensures level.Some? <==> |nodes| % 2 == 0
    ensures level.Some? ==> level.value == PairUp(hash, nodes)
  {
    hide Rest;
    hide PairUp;
    hide NewInner;
    var newLevel: seq<Node> := [];
    var j := 0;
    if |nodes| % 2 == 0 { RestEnds(hash, nodes); }
    while j < |nodes|
      invariant j == 2 * |newLevel| <= |nodes|
      invariant |nodes| % 2 == 0 ==> newLevel + Rest(hash, nodes, |newLevel|) == PairUp(hash, nodes)
      decreases |nodes| - j
    {
      if j + 1 >= |nodes| { return None; }
      if |nodes| % 2 == 0 { RestNext(hash, nodes, |newLevel|, newLevel); }
      newLevel := newLevel + [NewInner(hash, nodes[j], nodes[j + 1])];
      j := j + 2;
    }
    level := Some(newLevel);
  }

  // The loop over the levels.
  method Levels(hash: Bytes -> Bytes, leaves: seq<Node>, rounds: nat) returns (top: Option<seq<Node>>)
    ensures top == Rounds(hash, leaves, rounds)
  {
    var nodes := leaves;
    hide PairUp;
    for i := 0 to rounds
      invariant Rounds(hash, leaves, rounds) == Rounds(hash, nodes, rounds - i)
    {
      RoundsNext(hash, nodes, rounds - i);
      var level := NewLevel(hash, nodes);
      if level == None { return None; }
      nodes := level.value;
    }
    top := Some(nodes);
  }

  method NewMerkleTree(hash: Bytes -> Bytes, input: seq<Bytes>) returns (tree: Option<Node>)
    ensures tree == Tree(hash, input)
    ensures tree.Some? <==> 1 <= |input| <= 4
  {
    FinishesIff(hash, input);
    hide Rounds;
    var data := input;
    if |data| % 2 != 0 {
      data := data + [data[|data| - 1]];
    }
    var nodes: seq<Node> := [];
    for d := 0 to |data|
      invariant nodes == LeafNodes(hash, data[..d])
    {
      nodes := nodes + [NewLeaf(hash, data[d])];
    }
    assert data[..|data|] == data;
    var top := Levels(hash, nodes, |data| / 2);
    if top == None || |top.value| == 0 { return None; }
    tree := Some(top.value[0]);
  }
}
