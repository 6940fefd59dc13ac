// The protocol can reach agreement: from correct membership keys, a run leads
// from nothing to the signal at any session whose threshold the epoch can meet,
// and to the external call if its own view elects its member.
module Progress {
  import opened Options
  import opened Bits
  import opened Bls
  import opened Tlc
  import opened Protocol

  // Session with the given ack state, free to take any step.
  ghost predicate Idle(env: Env, s: Node, view: seq<string>, acks: Acks, outs: seq<Message>)
  {
    && s.view == view != [] && s.leader == LeaderOf(env, view) && s.acks == acks && s.outs == outs
    && !s.crashed && !s.cancelled && s.receiving && s.lock == None && s.waiter == Waiting
  }

  lemma {:induction false} ExecConcat(env: Env, w: World, a: seq<Action>, b: seq<Action>)
    requires Exec(env, w, a).Some?
    ensures Exec(env, w, a + b) == Exec(env, Exec(env, w, a).value, b)
    decreases |a|
  {
    if a == [] {
      assert a + b == b;
    } else {
      assert (a + b)[0] == a[0] && (a + b)[1..] == a[1..] + b;
      ExecConcat(env, Do(env, w, a[0]), a[1..], b);
    }
  }

  lemma ExecOne(env: Env, w: World, a: Action)
    requires Enabled(env, w, a)
    ensures Exec(env, w, [a]) == Some(Do(env, w, a))
  {
    assert [a][1..] == [];
  }

  // Only session i moved; messages and events were only added.
  ghost predicate Local(w: World, w': World, i: Sid)
  {
    && w'.nodes.Keys == w.nodes.Keys && w.pool <= w'.pool && w.log <= w'.log
    && forall j :: j in w.nodes && j != i ==> w'.nodes[j] == w.nodes[j]
  }

  lemma LocalTrans(u: World, v: World, w: World, i: Sid)
    requires Local(u, v, i) && Local(v, w, i)
    ensures Local(u, w, i)
  {
  }

  // Receive a message and let its handler take one step.
  lemma Handle(env: Env, w: World, i: Sid, m: Message) returns (acts: seq<Action>, e: Effect)
    requires i in w.nodes && m in w.pool && m.body == env.topic
    requires !w.nodes[i].crashed && w.nodes[i].receiving && w.nodes[i].lock == None
    ensures acts == [Receive(i, m), Advance(i, |w.nodes[i].handlers|)]
    ensures var s := Taken(w.nodes[i], m);
      && e == AdvanceSpawned(env, i, s, |w.nodes[i].handlers|)
      && Exec(env, w, acts) ==
           Some(World(w.nodes[i := e.node], w.pool + (set x | x in e.sent), w.log + [Received(i, m)] + e.events))
  {
    var k := |w.nodes[i].handlers|;
    var w1 := Do(env, w, Receive(i, m));
    var s := w1.nodes[i];
    assert s.handlers[k] == Handler(m, Spawned);
    assert w1.pool == w.pool;
    e := AdvanceSpawned(env, i, s, k);
    var w2 := Do(env, w1, Advance(i, k));
    acts := [Receive(i, m)] + [Advance(i, k)];
    ExecOne(env, w, Receive(i, m));
    ExecOne(env, w1, Advance(i, k));
    ExecConcat(env, w, [Receive(i, m)], [Advance(i, k)]);
    assert w1.nodes[i := e.node] == w.nodes[i := e.node];
  }

  // ---- The stages of the run ----

  // The lists NewSession accepts: more than the minimum, own identity last.
  ghost predicate Views(env: Env, view: Sid -> seq<string>)
  {
    forall i: Sid :: i.member < env.ep.n ==>
      |view(i)| > MIN_CONSENSUS_NODES && view(i)[|view(i)| - 1] == env.peer(i.member)
  }

  ghost predicate KeysCorrect(env: Env)
  {
    forall j: nat :: j < env.ep.n ==> env.mk(j) == EpochKey(env.ep) * env.ep.g(j)
  }

  // Exactly the listed sessions are open and have done nothing yet.
  ghost predicate Fresh(env: Env, view: Sid -> seq<string>, w: World, ids: seq<Sid>)
  {
    && (forall i :: i in w.nodes <==> i in ids)
    && (forall i :: i in ids ==> Idle(env, w.nodes[i], view(i), NO_ACKS, []))
  }

  ghost predicate Openable(env: Env, ids: seq<Sid>)
  {
    && (forall k :: 0 <= k < |ids| ==> ids[k].member < env.ep.n)
    && (forall k, l :: 0 <= k < l < |ids| ==> ids[k] != ids[l])
  }

  lemma OpenOne(env: Env, view: Sid -> seq<string>, v: World, ids: seq<Sid>, i: Sid) returns (a: Action)
    requires Views(env, view) && i.member < env.ep.n && i !in ids && Fresh(env, view, v, ids)
    ensures Enabled(env, v, a) && Do(env, v, a).pool == v.pool && Fresh(env, view, Do(env, v, a), ids + [i])
  {
    hide LeaderOf;
    a := Create(i, view(i)[..|view(i)| - 1], 0);
    assert view(i) == view(i)[..|view(i)| - 1] + [env.peer(i.member)];
    var w := Do(env, v, a);
    assert w.pool == v.pool;
    forall j | j in ids + [i]
      ensures j in w.nodes && Idle(env, w.nodes[j], view(j), NO_ACKS, [])
    {
      if j != i { assert w.nodes[j] == v.nodes[j]; }
    }
  }

  // The listed sessions are opened.
  lemma {:induction false} OpenAll(env: Env, view: Sid -> seq<string>, ids: seq<Sid>)
    returns (acts: seq<Action>, w: World)
    requires Views(env, view) && Openable(env, ids)
    ensures Exec(env, INIT, acts) == Some(w) && w.pool == {} && Fresh(env, view, w, ids)
    decreases |ids|
  {
    if ids == [] {
      acts, w := [], INIT;
    } else {
      var n := |ids| - 1;
      var i := ids[n];
      assert ids == ids[..n] + [i];
      var before, v := OpenAll(env, view, ids[..n]);
      hide Fresh;
      hide Enabled;
      hide Do;
      var a := OpenOne(env, view, v, ids[..n], i);
      w := Do(env, v, a);
      acts := before + [a];
      ExecOne(env, v, a);
      ExecConcat(env, INIT, before, [a]);
    }
  }

  // The acks of the first k members are in the pool.
  ghost predicate AcksIn(env: Env, w: World, k: nat)
  {
    forall j: nat :: j < k ==> AckOf(env.ep, j, env.topic, env.mk(j)) in w.pool
  }

  // The first session of every member is among the listed ones.
  ghost predicate Everyone(env: Env, ids: seq<Sid>)
  {
    forall j: nat :: j < env.ep.n ==> Sid(j, 0) in ids
  }

  // One member answers the Announce in its first session.
  lemma AnswerOne(env: Env, view: Sid -> seq<string>, v: World, ids: seq<Sid>, k: nat)
    returns (acts: seq<Action>, w: World)
    requires Fresh(env, view, v, ids) && Sid(k, 0) in ids && AnnounceOf(env, 0) in v.pool && AcksIn(env, v, k)
    ensures Exec(env, v, acts) == Some(w)
    ensures Fresh(env, view, w, ids) && AnnounceOf(env, 0) in w.pool && AcksIn(env, w, k + 1)
  {
    hide LeaderOf;
    hide AdvancePrepare;
    var i := Sid(k, 0);
    var e;
    acts, e := Handle(env, v, i, AnnounceOf(env, 0));
    w := Exec(env, v, acts).value;
    assert e.sent == [AckOf(env.ep, k, env.topic, env.mk(k))];
    assert Idle(env, e.node, view(i), NO_ACKS, []);
    assert v.pool <= w.pool && AckOf(env.ep, k, env.topic, env.mk(k)) in w.pool;
  }

  // Every member answers the Announce.
  lemma {:induction false} AnswerAll(env: Env, view: Sid -> seq<string>, w: World, ids: seq<Sid>, k: nat)
    returns (acts: seq<Action>, w': World)
    requires Fresh(env, view, w, ids) && Everyone(env, ids) && AnnounceOf(env, 0) in w.pool && k <= env.ep.n
    ensures Exec(env, w, acts) == Some(w')
    ensures Fresh(env, view, w', ids) && AnnounceOf(env, 0) in w'.pool && AcksIn(env, w', k)
  {
    hide Fresh;
    if k == 0 {
      acts, w' := [], w;
    } else {
      var before, v := AnswerAll(env, view, w, ids, k - 1);
      var two;
      two, w' := AnswerOne(env, view, v, ids, k - 1);
      acts := before + two;
      ExecConcat(env, w, before, two);
    }
  }

  // Sessions opened, Announce sent and answered by all.
  lemma AllAnswered(env: Env, view: Sid -> seq<string>, ids: seq<Sid>) returns (acts: seq<Action>, w: World)
    requires Views(env, view) && Openable(env, ids) && Everyone(env, ids) && env.ep.n > 0
    ensures Exec(env, INIT, acts) == Some(w) && Fresh(env, view, w, ids) && AcksIn(env, w, env.ep.n)
  {
    hide LeaderOf;
    var opening, w1 := OpenAll(env, view, ids);
    var start := Start(Sid(0, 0));
    assert Sid(0, 0) in w1.nodes;
    var w2 := Do(env, w1, start);
    ExecOne(env, w1, start);
    ExecConcat(env, INIT, opening, [start]);
    assert AnnounceOf(env, 0) in [AnnounceOf(env, 0)];
    assert Fresh(env, view, w2, ids);
    var answered;
    answered, w := AnswerAll(env, view, w2, ids, env.ep.n);
    acts := (opening + [start]) + answered;
    ExecConcat(env, INIT, opening + [start], answered);
  }

  // ---- Collecting acks ----

  // Session i stands at what was collected, with all acks in the pool.
  ghost predicate Collecting(env: Env, view: seq<string>, w: World, i: Sid, c: Collected)
  {
    && i in w.nodes && Idle(env, w.nodes[i], view, c.acks, c.outs)
    && AcksIn(env, w, env.ep.n)
    && (forall m :: m in c.outs ==> m in w.pool)
  }

  function Upto(k: nat): (s: seq<nat>)
    ensures |s| == k && forall j :: 0 <= j < k ==> s[j] == j
  {
    seq(k, j requires j >= 0 => j)
  }

  // What the acks of the first k members make of a session of member j.
  function Gain(env: Env, j: nat, t: nat, k: nat): Collected
  {
    Collect(env.ep, j, t, env.topic, env.mk, Upto(k))
  }

  // What one outcome adds to what was collected.
  function Extend(c: Collected, o: Outcome): Collected
  {
    match o
    case Counted(s) => Collected(s, c.outs, c.ok)
    case Quorum(s, m) => Collected(s, c.outs + [m], c.ok)
    case Ignored => c
    case _ => c.(ok := false)
  }

  lemma CollectNext(env: Env, j: nat, t: nat, k: nat)
    ensures Gain(env, j, t, k + 1) == Extend(Gain(env, j, t, k),
      OnPrepare(env.ep, j, t, Gain(env, j, t, k).acks, AckOf(env.ep, k, env.topic, env.mk(k))))
  {
    hide OnPrepare;
    assert Upto(k + 1)[..k] == Upto(k);
  }

  // An honest ack is ignored or counted, never rejected.
  lemma CollectNotBad(env: Env, j: nat, t: nat, k: nat)
    requires k < env.ep.n && t >= 1 && KeysCorrect(env)
    ensures var o := OnPrepare(env.ep, j, t, Gain(env, j, t, k).acks, AckOf(env.ep, k, env.topic, env.mk(k)));
      o.Ignored? || o.Counted? || o.Quorum?
  {
    hide Collect;
    Gathering(env.ep, j, t, env.topic, env.mk, Upto(k));
    PrepareStep(env.ep, j, env.topic, t, Gain(env, j, t, k).acks, AckOf(env.ep, k, env.topic, env.mk(k)));
    AckVerifies(env.ep, k, env.topic, env.mk(k));
  }

  // The step of a Prepare handler whose ack is ignored or counted.
  lemma CountStep(env: Env, view: seq<string>, i: Sid, s: Node, k: nat, c: Collected)
    requires k < |s.handlers| && Idle(env, s, view, c.acks, c.outs)
    requires s.handlers[k].msg.body == env.topic && s.handlers[k].msg.kind == Prepare
    requires var o := OnPrepare(env.ep, i.member, |view| / 2 + 1, c.acks, s.handlers[k].msg);
      o.Ignored? || o.Counted? || o.Quorum?
    ensures var e := AdvanceSpawned(env, i, s, k);
      var d := Extend(c, OnPrepare(env.ep, i.member, |view| / 2 + 1, c.acks, s.handlers[k].msg));
      Idle(env, e.node, view, d.acks, d.outs) && forall m :: m in d.outs ==> m in c.outs || m in e.sent
  {
    hide OnPrepare;
    hide LeaderOf;
  }

  // Session i moved on from c to d.
  lemma Moves(env: Env, view: seq<string>, v: World, w: World, i: Sid, e: Effect, more: seq<Event>,
              c: Collected, d: Collected)
    requires Collecting(env, view, v, i, c)
    requires w == World(v.nodes[i := e.node], v.pool + (set x | x in e.sent), v.log + more)
    requires Idle(env, e.node, view, d.acks, d.outs) && forall m :: m in d.outs ==> m in c.outs || m in e.sent
    ensures Collecting(env, view, w, i, d) && Local(v, w, i)
  {
    hide Idle;
    hide AckOf;
    assert v.pool <= w.pool;
  }

  // Session i processes the ack of member k.
  lemma CollectOne(env: Env, view: seq<string>, v: World, i: Sid, k: nat) returns (acts: seq<Action>, w: World)
    requires k < env.ep.n && KeysCorrect(env)
    requires Collecting(env, view, v, i, Gain(env, i.member, |view| / 2 + 1, k))
    ensures Exec(env, v, acts) == Some(w) && Local(v, w, i)
    ensures Collecting(env, view, w, i, Gain(env, i.member, |view| / 2 + 1, k + 1))
  {
    hide KeysCorrect;
    hide OnPrepare;
    hide LeaderOf;
    hide Multisign;
    hide Gain;
    hide Exec;
    hide AdvanceSpawned;
    var t, m := |view| / 2 + 1, AckOf(env.ep, k, env.topic, env.mk(k));
    var c, d := Gain(env, i.member, t, k), Gain(env, i.member, t, k + 1);
    CollectNext(env, i.member, t, k);
    CollectNotBad(env, i.member, t, k);
    assert m in v.pool;
    var e;
    acts, e := Handle(env, v, i, m);
    w := Exec(env, v, acts).value;
    CountStep(env, view, i, Taken(v.nodes[i], m), |v.nodes[i].handlers|, c);
    var more := [Received(i, m)] + e.events;
    assert v.log + [Received(i, m)] + e.events == v.log + more;
    Moves(env, view, v, w, i, e, more, c, d);
  }

  // Session i processes the acks of the first k members.
  lemma {:induction false} CollectAll(env: Env, view: seq<string>, w: World, i: Sid, k: nat)
    returns (acts: seq<Action>, w': World)
    requires k <= env.ep.n && KeysCorrect(env)
    requires Collecting(env, view, w, i, Gain(env, i.member, |view| / 2 + 1, 0))
    ensures Exec(env, w, acts) == Some(w') && Local(w, w', i)
    ensures Collecting(env, view, w', i, Gain(env, i.member, |view| / 2 + 1, k))
  {
    hide Gain;
    hide Collecting;
    hide KeysCorrect;
    if k == 0 {
      acts, w' := [], w;
    } else {
      var before, v := CollectAll(env, view, w, i, k - 1);
      var two;
      two, w' := CollectOne(env, view, v, i, k - 1);
      acts := before + two;
      LocalTrans(w, v, w', i);
      hide Local;
      ExecConcat(env, w, before, two);
    }
  }

  // The acks of all members bring an idle session to a witnessed Prepared
  // message if there are as many members as its threshold.
  lemma QuorumGathered(env: Env, w: World, i: Sid) returns (acts: seq<Action>, w': World, m: Message)
    requires i in w.nodes && Idle(env, w.nodes[i], w.nodes[i].view, NO_ACKS, []) && AcksIn(env, w, env.ep.n)
    requires KeysCorrect(env) && Threshold(w.nodes[i]) <= env.ep.n
    ensures Exec(env, w, acts) == Some(w') && Local(w, w', i) && i in w'.nodes && m in w'.pool
    ensures Idle(env, w'.nodes[i], w.nodes[i].view, w'.nodes[i].acks, w'.nodes[i].outs)
    ensures m.kind == Prepared && m.body == env.topic && Witnessed(env.ep, Threshold(w.nodes[i]), m)
  {
    var n, t, view := env.ep.n, Threshold(w.nodes[i]), w.nodes[i].view;
    assert Gain(env, i.member, t, 0) == Collected(NO_ACKS, [], true);
    AllMembers(n);
    Completeness(env.ep, i.member, t, env.topic, env.mk, Upto(n), t);
    CollectedKind(env.ep, i.member, t, env.topic, env.mk, Upto(n));
    hide Collect;
    hide Witnessed;
    hide LeaderOf;
    acts, w' := CollectAll(env, view, w, i, n);
    m := Gain(env, i.member, t, n).outs[0];
    assert m in Gain(env, i.member, t, n).outs;
  }

  // A witnessed Prepared leads an idle session to its signal and decision.
  lemma Conclude(env: Env, w: World, i: Sid, m: Message) returns (acts: seq<Action>, w': World)
    requires i in w.nodes && m in w.pool && m.kind == Prepared && m.body == env.topic
    requires Idle(env, w.nodes[i], w.nodes[i].view, w.nodes[i].acks, w.nodes[i].outs)
    requires Witnessed(env.ep, Threshold(w.nodes[i]), m)
    ensures Exec(env, w, acts) == Some(w') && Signalled(i, m) in w'.log
    ensures Local(w, w', i) && w'.nodes[i].view == w.nodes[i].view
    ensures w.nodes[i].leader == env.peer(i.member) ==> Called(i) in w'.log
  {
    hide Witnessed;
    hide LeaderOf;
    var k := |w.nodes[i].handlers|;
    var two, e := Handle(env, w, i, m);
    var w2 := Exec(env, w, two).value;
    assert w2.nodes[i].handlers[k] == Handler(m, Verified);
    var w3 := Do(env, w2, Advance(i, k));
    var w4 := Do(env, w3, Advance(i, k));
    var w5 := Do(env, w4, Decide(i));
    ExecOne(env, w2, Advance(i, k));
    ExecOne(env, w3, Advance(i, k));
    ExecOne(env, w4, Decide(i));
    ExecConcat(env, w, two, [Advance(i, k)]);
    ExecConcat(env, w, two + [Advance(i, k)], [Advance(i, k)]);
    ExecConcat(env, w, two + [Advance(i, k)] + [Advance(i, k)], [Decide(i)]);
    acts, w' := two + [Advance(i, k)] + [Advance(i, k)] + [Decide(i)], w5;
    assert Signalled(i, m) in w4.log;
  }

  // An idle session gathers its own quorum, signals and decides.
  lemma AgreeAt(env: Env, w: World, i: Sid) returns (acts: seq<Action>, w': World)
    requires i in w.nodes && Idle(env, w.nodes[i], w.nodes[i].view, NO_ACKS, []) && AcksIn(env, w, env.ep.n)
    requires KeysCorrect(env) && Threshold(w.nodes[i]) <= env.ep.n
    ensures Exec(env, w, acts) == Some(w') && Local(w, w', i) && w'.nodes[i].view == w.nodes[i].view
    ensures exists m :: Signalled(i, m) in w'.log
    ensures LeaderOf(env, w.nodes[i].view) == env.peer(i.member) ==> Called(i) in w'.log
  {
    hide Witnessed;
    hide LeaderOf;
    var first, v, m := QuorumGathered(env, w, i);
    var second;
    second, w' := Conclude(env, v, i, m);
    acts := first + second;
    ExecConcat(env, w, first, second);
    LocalTrans(w, v, w', i);
  }

  // The first sessions of all members and the given ones, each once.
  function Sessions(n: nat, more: seq<Sid>): (ids: seq<Sid>)
    ensures forall i: Sid :: i in ids <==> i in more || (i.member < n && i.attempt == 0)
    ensures forall k, l :: 0 <= k < l < |ids| ==> ids[k] != ids[l]
  {
    if more == [] then
      var first := seq(n, j requires j >= 0 => Sid(j, 0));
      assert forall i: Sid :: i.member < n && i.attempt == 0 ==> first[i.member] == i;
      first
    else
      var rest := Sessions(n, more[1..]);
      assert more == [more[0]] + more[1..];
      if more[0] in rest then rest else rest + [more[0]]
  }

  // For every epoch whose setup gave correct keys and any views, some run brings
  // any session whose threshold is at most the number of members to agreement,
  // and to the external call if its view elects its member.
  lemma AgreementIsReachable(env: Env, view: Sid -> seq<string>, i: Sid) returns (acts: seq<Action>, w: World)
    requires Views(env, view) && i.member < env.ep.n && KeysCorrect(env) && |view(i)| / 2 + 1 <= env.ep.n
    ensures Exec(env, INIT, acts) == Some(w) && i in w.nodes && w.nodes[i].view == view(i)
    ensures exists m :: Signalled(i, m) in w.log
    ensures view(i) != [] && (LeaderOf(env, view(i)) == env.peer(i.member) ==> Called(i) in w.log)
  {
    hide LeaderOf;
    var first, w1 := AllAnswered(env, view, Sessions(env.ep.n, [i]));
    var second;
    second, w := AgreeAt(env, w1, i);
    acts := first + second;
    ExecConcat(env, INIT, first, second);
  }

  lemma {:induction false} AllMembers(n: nat)
    ensures |Members(Upto(n))| == n
  {
    if n > 0 {
      AllMembers(n - 1);
      assert Upto(n) == Upto(n - 1) + [n - 1];
      assert Members(Upto(n)) == Members(Upto(n - 1)) + {n - 1};
    }
  }

  lemma {:induction false} CollectedKind(ep: Epoch, id: nat, t: nat, body: string, mk: nat -> int, order: seq<nat>)
    ensures forall m :: m in Collect(ep, id, t, body, mk, order).outs ==> m.kind == Prepared && m.body == body
    decreases |order|
  {
    if order != [] { CollectedKind(ep, id, t, body, mk, order[..|order| - 1]); }
  }
}
