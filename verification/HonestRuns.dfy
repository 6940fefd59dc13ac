// Runs in which nobody injects messages: whether a session ever loses its mutex
// to an ack is decided by the membership keys of the setup.
module HonestRuns {
  import opened Options
  import opened Bits
  import opened Bls
  import opened Tlc
  import opened Protocol
  import opened Agreement
  import opened Safety
  import opened Progress
  import Setup

  ghost predicate Honest(acts: seq<Action>)
  {
    forall k :: 0 <= k < |acts| ==> !acts[k].Inject?
  }

  // A Prepare message is the ack of a member made with its membership key, and
  // only Prepared messages carry a mask and a key.
  ghost predicate OwnAck(env: Env, m: Message)
  {
    && m.body == env.topic && !m.kind.Other?
    && (m.kind != Prepared ==> m.mask == 0 && m.pk == 0)
    && (m.kind == Announce ==> m.sig == Signature(0, {}))
    && (m.kind == Prepare ==> 0 <= m.source < env.ep.n && m == AckOf(env.ep, m.source, env.topic, env.mk(m.source)))
  }

  ghost predicate OwnHandlers(env: Env, s: Node)
  {
    forall k :: 0 <= k < |s.handlers| ==> OwnAck(env, s.handlers[k].msg)
  }

  // A message in the pool was sent by a member with a session.
  ghost predicate Sent(env: Env, w: World, m: Message)
  {
    m.source >= 0 && m.source in Opened(w) && OwnAck(env, m)
  }

  ghost predicate AllOwn(env: Env, w: World)
  {
    && (forall m :: m in w.pool ==> Sent(env, w, m))
    && (forall i :: i in w.nodes ==> OwnHandlers(env, w.nodes[i]))
  }

  // A handler sends an ack only in answer to an Announce, with its own key.
  lemma AdvanceSends(env: Env, i: Sid, s: Node, k: nat)
    requires CanAdvance(env, s, k) && i.member < env.ep.n
    ensures forall m :: m in AdvanceHandler(env, i, s, k).sent ==> m.source == i.member && OwnAck(env, m)
  {
    QuorumMessage(env, i, s, k);
    hide OnPrepare;
    hide Multisign;
    hide Witnessed;
  }

  lemma AdvanceKeepsMessages(env: Env, i: Sid, s: Node, k: nat)
    requires CanAdvance(env, s, k) && OwnHandlers(env, s)
    ensures OwnHandlers(env, AdvanceHandler(env, i, s, k).node)
  {
    SameMessages(env, i, s, k);
    hide AdvanceHandler;
    hide OwnAck;
    var t := AdvanceHandler(env, i, s, k).node;
    forall j | 0 <= j < |t.handlers|
      ensures OwnAck(env, t.handlers[j].msg)
    {
      assert OwnAck(env, s.handlers[j].msg);
    }
  }

  lemma OpenedGrows(w: World, i: Sid, e: Effect)
    ensures var w' := World(w.nodes[i := e.node], w.pool + (set m | m in e.sent), w.log + e.events);
      Opened(w) <= Opened(w') && i.member in Opened(w')
  {
    var w' := World(w.nodes[i := e.node], w.pool + (set m | m in e.sent), w.log + e.events);
    assert i in w'.nodes;
    forall j | j in Opened(w)
      ensures j in Opened(w')
    {
      var k :| k in w.nodes && k.member == j;
      assert k in w'.nodes;
    }
  }

  // What a step at session i sends and leaves is its own.
  ghost predicate OwnEffect(env: Env, i: Sid, e: Effect)
  {
    && (forall m :: m in e.sent ==> m.source == i.member && OwnAck(env, m))
    && OwnHandlers(env, e.node)
  }

  lemma AnnounceIsOwn(env: Env, j: nat)
    ensures OwnAck(env, AnnounceOf(env, j)) && AnnounceOf(env, j).source == j
  {
  }

  lemma AdvanceIsOwn(env: Env, w: World, i: Sid, k: nat)
    requires WorldInv(env, w) && AllOwn(env, w) && i in w.nodes && CanAdvance(env, w.nodes[i], k)
    ensures OwnEffect(env, i, AdvanceHandler(env, i, w.nodes[i], k))
  {
    assert NodeInv(env, w.log, i, w.nodes[i]) && OwnHandlers(env, w.nodes[i]);
    AdvanceSends(env, i, w.nodes[i], k);
    AdvanceKeepsMessages(env, i, w.nodes[i], k);
  }

  // The other actions of a session: an Announce, a received message or nothing.
  lemma QuietIsOwn(env: Env, w: World, a: Action)
    requires AllOwn(env, w) && Enabled(env, w, a) && !a.Inject? && !a.Advance?
    ensures OwnEffect(env, a.i, EffectOf(env, w, a))
  {
    hide OwnAck;
    hide LeaderOf;
    hide AnnounceOf;
    if a.Start? { AnnounceIsOwn(env, a.i.member); }
    if a.Receive? { assert Sent(env, w, a.m); }
  }

  lemma EffectIsOwn(env: Env, w: World, a: Action)
    requires WorldInv(env, w) && AllOwn(env, w) && Enabled(env, w, a) && !a.Inject?
    ensures OwnEffect(env, a.i, EffectOf(env, w, a))
  {
    hide WorldInv;
    hide AllOwn;
    hide OwnEffect;
    hide AdvanceHandler;
    if a.Advance? { AdvanceIsOwn(env, w, a.i, a.k); } else { QuietIsOwn(env, w, a); }
  }

  lemma OwnEffectKeeps(env: Env, w: World, i: Sid, e: Effect)
    requires AllOwn(env, w) && OwnEffect(env, i, e)
    ensures AllOwn(env, World(w.nodes[i := e.node], w.pool + (set m | m in e.sent), w.log + e.events))
  {
    OpenedGrows(w, i, e);
    hide Opened;
    hide OwnAck;
    hide OwnHandlers;
  }

  lemma OwnStep(env: Env, w: World, a: Action)
    requires WorldInv(env, w) && AllOwn(env, w) && Enabled(env, w, a) && !a.Inject?
    ensures AllOwn(env, Do(env, w, a))
  {
    EffectIsOwn(env, w, a);
    OwnEffectKeeps(env, w, a.i, EffectOf(env, w, a));
    hide EffectOf;
    hide AllOwn;
    hide WorldInv;
  }

  lemma {:induction false} OwnRun(env: Env, w: World, acts: seq<Action>)
    requires WorldInv(env, w) && AllOwn(env, w) && Honest(acts)
    ensures Exec(env, w, acts).Some? ==> AllOwn(env, Exec(env, w, acts).value)
    decreases |acts|
  {
    if acts != [] && Enabled(env, w, acts[0]) {
      OwnStep(env, w, acts[0]);
      StepInv(env, w, acts[0]);
      hide AllOwn;
      hide WorldInv;
      OwnRun(env, Do(env, w, acts[0]), acts[1..]);
    }
  }

  // Some handler returned with the mutex held.
  ghost predicate Leaks(w: World)
  {
    exists i, k :: i in w.nodes && 0 <= k < |w.nodes[i].handlers| && w.nodes[i].handlers[k].pc == Leaked
  }

  ghost predicate HonestlyReachable(env: Env, w: World)
  {
    exists acts: seq<Action> :: Honest(acts) && Exec(env, INIT, acts) == Some(w)
  }

  // With correct keys every ack that is around verifies.
  lemma OwnAckVerifies(env: Env, m: Message)
    requires KeysCorrect(env) && OwnAck(env, m) && m.kind == Prepare
    ensures AckVerified(env.ep, m)
  {
    AckVerifies(env.ep, m.source, env.topic, env.mk(m.source));
  }

  lemma CorrectKeysNeverLeak(env: Env, w: World)
    requires KeysCorrect(env) && HonestlyReachable(env, w)
    ensures !Leaks(w)
  {
    var acts: seq<Action> :| Honest(acts) && Exec(env, INIT, acts) == Some(w);
    assert Reachable(env, w);
    OwnRun(env, INIT, acts);
    hide Exec;
    hide Reachable;
    hide KeysCorrect;
    hide OwnAck;
    hide AckVerified;
    if i, k :| i in w.nodes && 0 <= k < |w.nodes[i].handlers| && w.nodes[i].handlers[k].pc == Leaked {
      SessionAlways(env, w, i);
      assert OwnHandlers(env, w.nodes[i]);
      OwnAckVerifies(env, w.nodes[i].handlers[k].msg);
    }
  }

  // ---- Crashes ----

  ghost predicate Decodable(acts: seq<Action>)
  {
    forall k :: 0 <= k < |acts| ==> !acts[k].Undecodable?
  }

  ghost predicate Alive(w: World)
  {
    forall i :: i in w.nodes ==> !w.nodes[i].crashed
  }

  lemma AdvanceAlive(env: Env, i: Sid, s: Node, k: nat)
    requires CanAdvance(env, s, k) && OwnHandlers(env, s) && SessionInv(env, i, s)
    ensures !AdvanceHandler(env, i, s, k).node.crashed
  {
    var m := s.handlers[k].msg;
    if Counts(env, s.handlers[k]) {
      assert OwnAck(env, m);
      PrepareOutcome(env.ep, i.member, env.topic, Threshold(s), s.acks, m);
      PrepareFields(env, i, s, k);
      assert AdvanceHandler(env, i, s, k) == AdvancePrepare(env, i, s, k);
    } else {
      OtherFields(env, i, s, k);
    }
    hide AdvanceHandler;
    hide AdvancePrepare;
    hide OnPrepare;
    hide SessionInv;
    hide AckVerified;
    hide AckOf;
  }

  lemma AliveStep(env: Env, w: World, a: Action)
    requires WorldInv(env, w) && AllOwn(env, w) && Alive(w) && Enabled(env, w, a) && !a.Inject? && !a.Undecodable?
    ensures Alive(Do(env, w, a))
  {
    if a.Advance? {
      assert NodeInv(env, w.log, a.i, w.nodes[a.i]);
      AdvanceAlive(env, a.i, w.nodes[a.i], a.k);
    }
    hide AdvanceHandler;
    hide LeaderOf;
    hide WorldInv;
    hide NodeInv;
    hide AllOwn;
  }

  // In a run without injected and undecodable messages no session ever crashes.
  lemma {:induction false} NeverCrashes(env: Env, w: World, acts: seq<Action>)
    requires WorldInv(env, w) && AllOwn(env, w) && Alive(w) && Honest(acts) && Decodable(acts)
    ensures Exec(env, w, acts).Some? ==> Alive(Exec(env, w, acts).value)
    decreases |acts|
  {
    if acts != [] && Enabled(env, w, acts[0]) {
      AliveStep(env, w, acts[0]);
      OwnStep(env, w, acts[0]);
      StepInv(env, w, acts[0]);
      hide AllOwn;
      hide WorldInv;
      hide Alive;
      NeverCrashes(env, Do(env, w, acts[0]), acts[1..]);
    }
  }

  lemma HonestRunsStayAlive(env: Env, acts: seq<Action>)
    requires Honest(acts) && Decodable(acts)
    ensures Exec(env, INIT, acts).Some? ==> Alive(Exec(env, INIT, acts).value)
  {
    NeverCrashes(env, INIT, acts);
  }

  // ---- Wrong keys ----

  // A member opens a session and answers its own Announce.
  lemma AnswersItself(env: Env, j: nat) returns (acts: seq<Action>, w: World)
    requires j < env.ep.n
    ensures Honest(acts) && Exec(env, INIT, acts) == Some(w) && Sid(j, 0) in w.nodes
    ensures var s := w.nodes[Sid(j, 0)];
      Idle(env, s, s.view, NO_ACKS, []) && AckOf(env.ep, j, env.topic, env.mk(j)) in w.pool
  {
    hide LeaderOf;
    hide Multisign;
    var i := Sid(j, 0);
    var open, start := Create(i, seq(MIN_CONSENSUS_NODES, _ => ""), 0), Start(i);
    var w1 := Do(env, INIT, open);
    var w2 := Do(env, w1, start);
    ExecOne(env, INIT, open);
    ExecOne(env, w1, start);
    ExecConcat(env, INIT, [open], [start]);
    assert AnnounceOf(env, j) in [AnnounceOf(env, j)];
    var answer, e := Handle(env, w2, i, AnnounceOf(env, j));
    w := Exec(env, w2, answer).value;
    acts := [open] + [start] + answer;
    ExecConcat(env, INIT, [open] + [start], answer);
    assert AckOf(env.ep, j, env.topic, env.mk(j)) in e.sent;
  }

  // An idle session without acks leaks its mutex on an unverified ack.
  lemma LeaksOn(env: Env, w: World, i: Sid, ack: Message) returns (acts: seq<Action>, w': World)
    requires i in w.nodes && Idle(env, w.nodes[i], w.nodes[i].view, NO_ACKS, []) && ack in w.pool
    requires ack.kind == Prepare && ack.body == env.topic && 0 <= ack.source < env.ep.n && !AckVerified(env.ep, ack)
    ensures Honest(acts) && Exec(env, w, acts) == Some(w') && Leaks(w')
  {
    hide LeaderOf;
    hide AckVerified;
    var k := |w.nodes[i].handlers|;
    var e;
    acts, e := Handle(env, w, i, ack);
    w' := Exec(env, w, acts).value;
    BitOfZero(ack.source);
    assert OnPrepare(env.ep, i.member, Threshold(w.nodes[i]), NO_ACKS, ack) == BadAck;
    assert w'.nodes[i].handlers[k].pc == Leaked;
  }

  // A member with a wrong key sticks its own session when it receives its ack.
  lemma WrongKeyLeaks(env: Env, j: nat) returns (acts: seq<Action>, w: World)
    requires j < env.ep.n && env.mk(j) != EpochKey(env.ep) * env.ep.g(j)
    ensures Honest(acts) && Exec(env, INIT, acts) == Some(w) && Leaks(w)
  {
    var ack := AckOf(env.ep, j, env.topic, env.mk(j));
    AckVerifies(env.ep, j, env.topic, env.mk(j));
    assert !AckVerified(env.ep, ack);
    hide AckVerified;
    hide LeaderOf;
    hide Leaks;
    var first, w1 := AnswersItself(env, j);
    var second;
    second, w := LeaksOn(env, w1, Sid(j, 0), ack);
    acts := first + second;
    ExecConcat(env, INIT, first, second);
  }

  // No honest run ever leaks a mutex exactly when the setup gave every member
  // its correct membership key.
  lemma NeverLeaksIff(env: Env)
    ensures (forall w :: HonestlyReachable(env, w) ==> !Leaks(w)) <==> KeysCorrect(env)
  {
    if KeysCorrect(env) {
      forall w | HonestlyReachable(env, w)
        ensures !Leaks(w)
      {
        CorrectKeysNeverLeak(env, w);
      }
    } else {
      var j: nat :| j < env.ep.n && env.mk(j) != EpochKey(env.ep) * env.ep.g(j);
      var acts, w := WrongKeyLeaks(env, j);
      assert HonestlyReachable(env, w);
    }
  }

  // From the setup to the locks: when every member's setup has finished, no
  // honest run leaks a mutex exactly when for every member the errors and the
  // repetitions of the parts it received cancel out.
  lemma SetupDecidesLeaks(env: Env, runs: nat -> seq<Setup.Delivery>)
    requires forall i: nat :: i < env.ep.n ==> Finished(env, runs(i), i)
    ensures (forall w :: HonestlyReachable(env, w) ==> !Leaks(w)) <==>
      forall i: nat :: i < env.ep.n ==> Setup.TotalError(env.ep, i, runs(i)) + Setup.Repeats(env.ep, i, runs(i)) == 0
  {
    NeverLeaksIff(env);
    hide HonestlyReachable;
    hide Leaks;
    forall i: nat | i < env.ep.n
      ensures env.mk(i) == EpochKey(env.ep) * env.ep.g(i)
         <==> Setup.TotalError(env.ep, i, runs(i)) + Setup.Repeats(env.ep, i, runs(i)) == 0
    {
      assert Finished(env, runs(i), i);
      Setup.FinishedKey(env.ep, i, runs(i));
    }
  }

  // Member i holds the key of a setup that finished with these deliveries.
  ghost predicate Finished(env: Env, ds: seq<Setup.Delivery>, i: nat)
  {
    && (forall k :: 0 <= k < |ds| ==> ds[k].source < env.ep.n)
    && Setup.Run(Setup.Initial(env.ep.n), ds) == Setup.State(0, env.mk(i))
  }
}
