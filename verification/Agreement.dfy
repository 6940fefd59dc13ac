// What every run of the protocol keeps: the session invariant, attribution of
// signatures, agreement only on a signed quorum, at most one external call,
// and the lock discipline.
module Agreement {
  import opened Options
  import opened Bits
  import opened Bls
  import opened Tlc
  import opened Protocol

  // ---- The invariant of one node ----

  ghost predicate Holds(pc: Pc)
  {
    pc == Sending || pc == Leaked
  }

  ghost predicate HandlerInv(env: Env, s: Node, k: nat)
    requires k < |s.handlers|
  {
    var h := s.handlers[k];
    && (Holds(h.pc) <==> s.lock == Some(k))
    && (h.pc == Verified || h.pc == Sending ==>
          h.msg.kind == Prepared && h.msg.body == env.topic && Witnessed(env.ep, Threshold(s), h.msg))
    && (h.pc == Leaked ==>
          && h.msg.kind == Prepare && h.msg.body == env.topic
          && 0 <= h.msg.source < env.ep.n && !AckVerified(env.ep, h.msg))
  }

  ghost predicate LockInv(env: Env, s: Node)
  {
    && (s.lock.Some? ==> s.lock.value < |s.handlers|)
    && forall k: nat :: k < |s.handlers| ==> HandlerInv(env, s, k)
  }

  ghost predicate AgreedInv(s: Node)
  {
    && s.signals <= 1
    && (s.signals == 1 <==> s.waiter == Agreed || s.waiter == Acted)
    && (s.signals == 1 ==> s.cancelled)
  }

  ghost predicate OutsInv(env: Env, i: Sid, s: Node)
  {
    && |s.outs| <= 1
    && (|s.outs| == 1 <==> s.acks.count == Threshold(s))
    && (|s.outs| == 1 ==> s.outs[0] == Message(i.member, Prepared, env.topic, s.acks.sig, s.acks.mask, s.acks.pk))
  }

  ghost predicate SessionInv(env: Env, i: Sid, s: Node)
  {
    && AcksInv(env.ep, env.topic, Threshold(s), s.acks)
    && OutsInv(env, i, s)
    && LockInv(env, s)
    && AgreedInv(s)
    && |s.view| > MIN_CONSENSUS_NODES && s.leader == LeaderOf(env, s.view)
  }

  // Handler k moves on; the mutex stays with the others unless k takes or frees it.
  lemma Moved(env: Env, s: Node, k: nat, t: Node)
    requires LockInv(env, s) && k < |s.handlers|
    requires |t.handlers| == |s.handlers| && t.view == s.view
    requires forall j :: 0 <= j < |s.handlers| && j != k ==> t.handlers[j] == s.handlers[j]
    requires t.lock == s.lock || (s.lock == None && t.lock == Some(k)) || (s.lock == Some(k) && t.lock == None)
    requires HandlerInv(env, t, k)
    ensures LockInv(env, t)
  {
    forall j: nat | j < |t.handlers|
      ensures HandlerInv(env, t, j)
    {
      assert HandlerInv(env, s, j);
    }
  }

  // A handler about to count an ack.
  ghost predicate Counts(env: Env, h: Handler)
  {
    h.pc == Spawned && h.msg.body == env.topic && h.msg.kind == Prepare
  }

  // What the critical section of a Prepare handler changes in its node.
  lemma PrepareFields(env: Env, i: Sid, s: Node, k: nat)
    requires k < |s.handlers|
    ensures var t := AdvancePrepare(env, i, s, k).node;
      var o := OnPrepare(env.ep, i.member, Threshold(s), s.acks, s.handlers[k].msg);
      && t.view == s.view && t.leader == s.leader
      && t.waiter == s.waiter && t.signals == s.signals && t.cancelled == s.cancelled
      && t.crashed == (s.crashed || o.Crashed?)
      && t.acks == (if o.Counted? || o.Quorum? || o.SelfCheckFailed? then o.acks else s.acks)
      && t.outs == (if o.Quorum? then s.outs + [o.out] else s.outs)
      && t.lock == (if o.BadAck? || o.SelfCheckFailed? then Some(k) else s.lock)
      && t.handlers == (if o.Crashed? then s.handlers
                        else var pc := if o.BadAck? || o.SelfCheckFailed? then Leaked else Finished;
                             s.handlers[k := Handler(s.handlers[k].msg, pc)])
  {
    hide OnPrepare;
    hide Threshold;
  }

  lemma HandlerOf(env: Env, s: Node, k: nat)
    requires LockInv(env, s) && k < |s.handlers|
    ensures HandlerInv(env, s, k)
  {
  }

  // A Prepare handler that ends without a failed self-check keeps the lock
  // discipline: it leaks the mutex only on an ack that does not verify.
  lemma PrepareKeepsLock(env: Env, i: Sid, s: Node, k: nat)
    requires LockInv(env, s) && CanAdvance(env, s, k) && Counts(env, s.handlers[k])
    requires !OnPrepare(env.ep, i.member, Threshold(s), s.acks, s.handlers[k].msg).SelfCheckFailed?
    ensures LockInv(env, AdvancePrepare(env, i, s, k).node)
  {
    hide LockInv;
    hide Witnessed;
    hide VerifyMultisig;
    var t := AdvancePrepare(env, i, s, k).node;
    PrepareFields(env, i, s, k);
    hide AdvancePrepare;
    HandlerOf(env, s, k);
    assert HandlerInv(env, t, k);
    Moved(env, s, k, t);
  }

  lemma PrepareKeepsSession(env: Env, i: Sid, s: Node, k: nat)
    requires SessionInv(env, i, s) && CanAdvance(env, s, k)
    requires Counts(env, s.handlers[k])
    ensures SessionInv(env, i, AdvancePrepare(env, i, s, k).node)
  {
    PrepareStep(env.ep, i.member, env.topic, Threshold(s), s.acks, s.handlers[k].msg);
    PrepareKeepsLock(env, i, s, k);
    PrepareFields(env, i, s, k);
    QuorumMessage(env, i, s, k);
    hide AdvancePrepare;
    hide OnPrepare;
    hide LockInv;
    hide AcksInv;
    hide Witnessed;
    hide LeaderOf;
    CountBound(env, s);
  }

  lemma CountBound(env: Env, s: Node)
    requires AcksInv(env.ep, env.topic, Threshold(s), s.acks)
    ensures s.acks.count <= Threshold(s)
  {
  }

  // The broadcast is made of the session's fields, by a session that had
  // no quorum before.
  lemma QuorumMessage(env: Env, i: Sid, s: Node, k: nat)
    requires k < |s.handlers|
    ensures var o := OnPrepare(env.ep, i.member, Threshold(s), s.acks, s.handlers[k].msg);
      && (o.Quorum? ==>
          o.out == Message(i.member, Prepared, s.handlers[k].msg.body, o.acks.sig, o.acks.mask, o.acks.pk))
      && (o.Quorum? || o.Counted? ==> s.acks.count < Threshold(s))
  {
  }

  // What any other handler step changes.
  lemma OtherFields(env: Env, i: Sid, s: Node, k: nat)
    requires CanAdvance(env, s, k) && !Counts(env, s.handlers[k])
    ensures var t, pc, m := AdvanceHandler(env, i, s, k).node, s.handlers[k].pc, s.handlers[k].msg;
      && t.view == s.view && t.leader == s.leader && t.acks == s.acks && t.outs == s.outs && t.crashed == s.crashed
      && (pc == Sending ==> s.waiter == Waiting && t.waiter == Agreed && t.signals == s.signals + 1 && t.cancelled)
      && (pc != Sending ==> t.waiter == s.waiter && t.signals == s.signals && t.cancelled == s.cancelled)
      && t.lock == (if pc == Sending then None else if pc == Verified && !s.cancelled then Some(k) else s.lock)
      && |t.handlers| == |s.handlers| && t.handlers[k].msg == s.handlers[k].msg
      && t.handlers[k].pc == (if pc == Verified && !s.cancelled then Sending
                              else if pc == Spawned && m.body == env.topic && m.kind == Prepared
                                && Witnessed(env.ep, Threshold(s), m) then Verified else Finished)
      && forall j :: 0 <= j < |s.handlers| && j != k ==> t.handlers[j] == s.handlers[j]
  {
    hide AdvancePrepare;
    hide Witnessed;
    hide Threshold;
  }

  lemma OtherKeepsLock(env: Env, i: Sid, s: Node, k: nat)
    requires LockInv(env, s) && CanAdvance(env, s, k) && !Counts(env, s.handlers[k])
    ensures LockInv(env, AdvanceHandler(env, i, s, k).node)
  {
    OtherFields(env, i, s, k);
    hide AdvanceHandler;
    hide Witnessed;
    hide LockInv;
    var t := AdvanceHandler(env, i, s, k).node;
    HandlerOf(env, s, k);
    assert HandlerInv(env, t, k);
    Moved(env, s, k, t);
  }

  lemma OtherKeepsSession(env: Env, i: Sid, s: Node, k: nat)
    requires SessionInv(env, i, s) && CanAdvance(env, s, k) && !Counts(env, s.handlers[k])
    ensures SessionInv(env, i, AdvanceHandler(env, i, s, k).node)
  {
    OtherFields(env, i, s, k);
    OtherKeepsLock(env, i, s, k);
    hide AdvanceHandler;
    hide CanAdvance;
    hide AcksInv;
    hide LockInv;
    hide LeaderOf;
  }

  lemma AdvanceKeepsSession(env: Env, i: Sid, s: Node, k: nat)
    requires SessionInv(env, i, s) && CanAdvance(env, s, k)
    ensures SessionInv(env, i, AdvanceHandler(env, i, s, k).node)
  {
    hide SessionInv;
    if Counts(env, s.handlers[k]) { PrepareKeepsSession(env, i, s, k); } else { OtherKeepsSession(env, i, s, k); }
  }

  lemma ReceiveKeepsSession(env: Env, i: Sid, s: Node, m: Message)
    requires SessionInv(env, i, s)
    ensures SessionInv(env, i, Taken(s, m))
  {
    var s' := Taken(s, m);
    forall j: nat | j < |s'.handlers|
      ensures HandlerInv(env, s', j)
    {
      if j < |s.handlers| { assert HandlerInv(env, s, j); }
    }
  }

  // A change of the waiter or the context does not touch the handlers.
  lemma SameHandlers(env: Env, s: Node, t: Node)
    requires LockInv(env, s)
    requires t.handlers == s.handlers && t.lock == s.lock && t.view == s.view
    ensures LockInv(env, t)
  {
    forall j: nat | j < |t.handlers|
      ensures HandlerInv(env, t, j)
    {
      assert HandlerInv(env, s, j);
    }
  }

  lemma ActionKeepsSession(env: Env, w: World, a: Action)
    requires !a.Inject? && Enabled(env, w, a)
    requires !a.Create? ==> SessionInv(env, a.i, w.nodes[a.i])
    ensures SessionInv(env, a.i, EffectOf(env, w, a).node)
  {
    var s' := EffectOf(env, w, a).node;
    match a
    case Create(i, listed, known) => NoAcksInv(env.ep, env.topic, Threshold(s'));
    case Start(i) =>
    case Receive(i, m) => ReceiveKeepsSession(env, i, w.nodes[i], m);
    case Advance(i, k) => AdvanceKeepsSession(env, i, w.nodes[i], k);
    case Decide(i) => SameHandlers(env, w.nodes[i], s');
    case GiveUp(i) => SameHandlers(env, w.nodes[i], s');
    case Cancel(i) => SameHandlers(env, w.nodes[i], s');
    case Undecodable(i) => SameHandlers(env, w.nodes[i], s');
  }

  // ---- The invariant of the world ----

  // A handler works on a message that was received and whose signature is backed.
  ghost predicate Delivered(env: Env, log: seq<Event>, i: Sid, h: Handler)
  {
    Received(i, h.msg) in log && Backed(env, log, h.msg.sig)
  }

  ghost predicate NodeInv(env: Env, log: seq<Event>, i: Sid, s: Node)
  {
    && i.member < env.ep.n
    && SessionInv(env, i, s)
    && Backed(env, log, s.acks.sig)
    && (forall k :: 0 <= k < |s.handlers| ==> Delivered(env, log, i, s.handlers[k]))
    && (Called(i) in log ==> s.waiter == Acted && s.leader == env.peer(i.member))
    && (forall m :: Signalled(i, m) in log ==> s.signals == 1 && Witnessed(env.ep, Threshold(s), m))
    && (s.signals == 1 ==> AgreedIn(log, i))
  }

  ghost predicate AgreedIn(log: seq<Event>, i: Sid)
  {
    exists m :: Signalled(i, m) in log
  }

  lemma AgreedGrows(log: seq<Event>, more: seq<Event>, i: Sid)
    requires AgreedIn(log, i)
    ensures AgreedIn(log + more, i)
  {
    var m :| Signalled(i, m) in log;
    assert Signalled(i, m) in log + more;
  }

  // Signed comes after the Announce it answers.
  ghost predicate Answers(log: seq<Event>, t: nat, j: nat, body: string)
  {
    exists r :: 0 <= r < t && r < |log| && log[r].Received? && log[r].node.member == j
      && log[r].msg.kind == Announce && log[r].msg.body == body
  }

  ghost predicate SignedBefore(env: Env, log: seq<Event>, t: nat, j: nat)
  {
    exists s :: 0 <= s < t && s < |log| && log[s] == Signed(j, env.topic)
  }

  ghost predicate EventOk(env: Env, log: seq<Event>, t: nat)
    requires t < |log|
  {
    match log[t]
    case Signed(j, body) => body == env.topic && Answers(log, t, j, body)
    case Signalled(i, m) =>
      m.body == env.topic && forall j: nat :: Bit(m.mask, j) == 1 ==> j in env.corrupt || SignedBefore(env, log, t, j)
    case Called(i) => forall r :: 0 <= r < t ==> log[r] != Called(i)
    case Received(_, _) => true
  }

  ghost predicate LogInv(env: Env, log: seq<Event>)
  {
    forall t: nat :: t < |log| ==> EventOk(env, log, t)
  }

  ghost predicate WorldInv(env: Env, w: World)
  {
    && LogInv(env, w.log)
    && (forall i :: i in w.nodes ==> NodeInv(env, w.log, i, w.nodes[i]))
    && (forall m :: m in w.pool ==> Backed(env, w.log, m.sig))
    && (forall e :: e in w.log ==> Known(w, e))
  }

  // The members that have opened a session.
  ghost function Opened(w: World): set<nat>
  {
    set i | i in w.nodes :: i.member
  }

  ghost predicate Known(w: World, e: Event)
  {
    if e.Signed? then e.member in Opened(w) else e.node in w.nodes
  }

  lemma BackedGrows(env: Env, log: seq<Event>, more: seq<Event>, sig: Signature)
    requires Backed(env, log, sig)
    ensures Backed(env, log + more, sig)
  {
  }

  lemma EventStays(env: Env, log: seq<Event>, more: seq<Event>, t: nat)
    requires t < |log| && EventOk(env, log, t)
    ensures EventOk(env, log + more, t)
  {
    var log' := log + more;
    match log[t]
    case Signed(j, body) =>
      var r :| 0 <= r < t && r < |log| && log[r].Received? && log[r].node.member == j
        && log[r].msg.kind == Announce && log[r].msg.body == body;
      assert log'[r] == log[r];
    case Signalled(i, m) =>
      forall j: nat | Bit(m.mask, j) == 1
        ensures j in env.corrupt || SignedBefore(env, log', t, j)
      {
        if j !in env.corrupt {
          var s :| 0 <= s < t && s < |log| && log[s] == Signed(j, env.topic);
          assert log'[s] == Signed(j, env.topic);
        }
      }
    case Called(i) =>
    case Received(_, _) =>
  }

  // Logging events of node i leaves the other nodes' invariants alone.
  lemma OtherNodeStays(env: Env, log: seq<Event>, more: seq<Event>, j: Sid, s: Node)
    requires NodeInv(env, log, j, s)
    requires forall e :: e in more && !e.Signed? ==> e.node != j
    ensures NodeInv(env, log + more, j, s)
  {
    BackedGrows(env, log, more, s.acks.sig);
    if s.signals == 1 { AgreedGrows(log, more, j); }
    forall k | 0 <= k < |s.handlers|
      ensures Delivered(env, log + more, j, s.handlers[k])
    {
      assert Delivered(env, log, j, s.handlers[k]);
      BackedGrows(env, log, more, s.handlers[k].msg.sig);
    }
  }

  ghost predicate By(ev: Event, i: Sid)
  {
    if ev.Signed? then ev.member == i.member else ev.node == i
  }

  // The shape of a step at node i: at most one event, which is justified.
  ghost predicate StepOk(env: Env, w: World, i: Sid, e: Effect)
  {
    && |e.events| <= 1
    && (forall ev :: ev in e.events ==> By(ev, i))
    && LogInv(env, w.log + e.events)
    && NodeInv(env, w.log + e.events, i, e.node)
    && (forall m :: m in e.sent ==> Backed(env, w.log + e.events, m.sig))
  }

  lemma StepKeepsWorld(env: Env, w: World, i: Sid, e: Effect)
    requires WorldInv(env, w) && StepOk(env, w, i, e)
    ensures WorldInv(env, World(w.nodes[i := e.node], w.pool + (set m | m in e.sent), w.log + e.events))
  {
    var nodes' := w.nodes[i := e.node];
    var log' := w.log + e.events;
    forall j | j in nodes'
      ensures NodeInv(env, log', j, nodes'[j])
    {
      if j != i { OtherNodeStays(env, w.log, e.events, j, w.nodes[j]); }
    }
    forall m | m in w.pool
      ensures Backed(env, log', m.sig)
    {
      BackedGrows(env, w.log, e.events, m.sig);
    }
    KnownGrows(w, i, e);
  }

  lemma KnownGrows(w: World, i: Sid, e: Effect)
    requires forall ev :: ev in w.log ==> Known(w, ev)
    requires forall ev :: ev in e.events ==> By(ev, i)
    ensures var w' := World(w.nodes[i := e.node], w.pool + (set m | m in e.sent), w.log + e.events);
      forall ev :: ev in w'.log ==> Known(w', ev)
  {
    var w' := World(w.nodes[i := e.node], w.pool + (set m | m in e.sent), w.log + e.events);
    assert i in w'.nodes && i.member in Opened(w');
    forall j | j in Opened(w)
      ensures j in Opened(w')
    {
      var k :| k in w.nodes && k.member == j;
      assert k in w'.nodes;
    }
    forall ev | ev in w'.log
      ensures Known(w', ev)
    {
      assert ev in w.log ==> Known(w, ev);
    }
  }

  lemma AppendOk(env: Env, log: seq<Event>, ev: Event)
    requires LogInv(env, log) && EventOk(env, log + [ev], |log|)
    ensures LogInv(env, log + [ev])
  {
    forall t: nat | t < |log + [ev]|
      ensures EventOk(env, log + [ev], t)
    {
      if t < |log| { EventStays(env, log, [ev], t); }
    }
  }

  // The signature that handler k leaves in the ack state is backed.
  lemma AdvancedAcksBacked(env: Env, log: seq<Event>, i: Sid, s: Node, k: nat)
    requires NodeInv(env, log, i, s) && CanAdvance(env, s, k)
    ensures Backed(env, log, AdvanceHandler(env, i, s, k).node.acks.sig)
    ensures forall m :: m in AdvanceHandler(env, i, s, k).sent && m.kind == Prepared ==> Backed(env, log, m.sig)
  {
    assert Delivered(env, log, i, s.handlers[k]);
  }

  // Events logged by a handler step.
  lemma AdvanceEventOk(env: Env, w: World, i: Sid, k: nat)
    requires WorldInv(env, w) && i in w.nodes && CanAdvance(env, w.nodes[i], k)
    ensures LogInv(env, w.log + AdvanceHandler(env, i, w.nodes[i], k).events)
  {
    var s := w.nodes[i];
    var e := AdvanceHandler(env, i, s, k);
    var m := s.handlers[k].msg;
    assert NodeInv(env, w.log, i, s) && HandlerInv(env, s, k);
    assert Delivered(env, w.log, i, s.handlers[k]);
    if e.events == [] {
      assert w.log + [] == w.log;
    } else {
      var log' := w.log + e.events;
      if s.handlers[k].pc == Spawned {
        var r :| 0 <= r < |w.log| && w.log[r] == Received(i, m);
        assert log'[r] == Received(i, m);
        assert Answers(log', |w.log|, i.member, m.body);
        AppendOk(env, w.log, Signed(i.member, m.body));
      } else {
        forall j: nat | Bit(m.mask, j) == 1
          ensures j in env.corrupt || SignedBefore(env, log', |w.log|, j)
        {
          OnesComplete(m.mask, j);
          assert (j, env.topic) in m.sig.signers;
          if j !in env.corrupt {
            assert Signed(j, env.topic) in w.log;
            var q :| 0 <= q < |w.log| && w.log[q] == Signed(j, env.topic);
            assert log'[q] == Signed(j, env.topic);
          }
        }
        AppendOk(env, w.log, Signalled(i, m));
      }
    }
  }

  // The handlers of a node keep their messages over a handler step.
  lemma SameMessages(env: Env, i: Sid, s: Node, k: nat)
    requires CanAdvance(env, s, k)
    ensures var t := AdvanceHandler(env, i, s, k).node;
      |t.handlers| == |s.handlers| && forall j :: 0 <= j < |s.handlers| ==> t.handlers[j].msg == s.handlers[j].msg
  {
    var t := AdvanceHandler(env, i, s, k).node;
    if Counts(env, s.handlers[k]) { PrepareFields(env, i, s, k); } else { OtherFields(env, i, s, k); }
    assert Counts(env, s.handlers[k]) ==> t == AdvancePrepare(env, i, s, k).node;
    hide AdvanceHandler;
    hide AdvancePrepare;
    hide OnPrepare;
    hide Witnessed;
  }

  lemma AdvanceDelivered(env: Env, log: seq<Event>, i: Sid, s: Node, k: nat)
    requires NodeInv(env, log, i, s) && CanAdvance(env, s, k)
    ensures var e := AdvanceHandler(env, i, s, k);
      forall j :: 0 <= j < |e.node.handlers| ==> Delivered(env, log + e.events, i, e.node.handlers[j])
  {
    hide SessionInv;
    hide Backed;
    hide AdvanceHandler;
    hide CanAdvance;
    var e := AdvanceHandler(env, i, s, k);
    SameMessages(env, i, s, k);
    forall j | 0 <= j < |e.node.handlers|
      ensures Delivered(env, log + e.events, i, e.node.handlers[j])
    {
      assert Delivered(env, log, i, s.handlers[j]);
      BackedGrows(env, log, e.events, s.handlers[j].msg.sig);
    }
  }

  lemma AdvanceSentBacked(env: Env, log: seq<Event>, i: Sid, s: Node, k: nat)
    requires NodeInv(env, log, i, s) && CanAdvance(env, s, k)
    ensures var e := AdvanceHandler(env, i, s, k);
      && Backed(env, log + e.events, e.node.acks.sig)
      && forall m :: m in e.sent ==> Backed(env, log + e.events, m.sig)
  {
    var e := AdvanceHandler(env, i, s, k);
    AdvancedAcksBacked(env, log, i, s, k);
    BackedGrows(env, log, e.events, e.node.acks.sig);
    forall m | m in e.sent
      ensures Backed(env, log + e.events, m.sig)
    {
      if m.kind == Prepared {
        BackedGrows(env, log, e.events, m.sig);
      } else {
        assert Signed(i.member, s.handlers[k].msg.body) in log + e.events;
      }
    }
  }

  // A handler step logs only its signature or its signal.
  lemma AdvanceEvents(env: Env, i: Sid, s: Node, k: nat)
    requires CanAdvance(env, s, k)
    ensures var h := s.handlers[k];
      AdvanceHandler(env, i, s, k).events ==
        if h.pc == Sending then [Signalled(i, h.msg)]
        else if h.pc == Spawned && h.msg.body == env.topic && h.msg.kind == Announce then [Signed(i.member, h.msg.body)]
        else []
  {
    hide OnPrepare;
    hide Witnessed;
  }

  lemma AdvanceSignals(env: Env, log: seq<Event>, i: Sid, s: Node, k: nat)
    requires NodeInv(env, log, i, s) && CanAdvance(env, s, k)
    ensures var e := AdvanceHandler(env, i, s, k);
      && |e.events| <= 1 && (forall ev :: ev in e.events ==> By(ev, i) && !ev.Called?)
      && (Called(i) in log ==> e.node.waiter == Acted)
      && e.node.leader == s.leader
      && (forall m :: Signalled(i, m) in log + e.events ==>
          e.node.signals == 1 && Witnessed(env.ep, Threshold(e.node), m))
      && (e.node.signals == 1 ==> AgreedIn(log + e.events, i))
  {
    HandlerOf(env, s, k);
    AdvanceEvents(env, i, s, k);
    if Counts(env, s.handlers[k]) { PrepareFields(env, i, s, k); } else { OtherFields(env, i, s, k); }
    assert Counts(env, s.handlers[k]) ==> AdvanceHandler(env, i, s, k) == AdvancePrepare(env, i, s, k);
    var events := AdvanceHandler(env, i, s, k).events;
    if s.signals == 1 { AgreedGrows(log, events, i); }
    if s.handlers[k].pc == Sending { assert Signalled(i, s.handlers[k].msg) in log + events; }
    hide AdvanceHandler;
    hide AdvancePrepare;
    hide OnPrepare;
    hide Witnessed;
    hide Backed;
    hide AcksInv;
    hide LockInv;
  }

  lemma AdvanceOk(env: Env, w: World, i: Sid, k: nat)
    requires WorldInv(env, w) && i in w.nodes && CanAdvance(env, w.nodes[i], k)
    ensures StepOk(env, w, i, AdvanceHandler(env, i, w.nodes[i], k))
  {
    var s := w.nodes[i];
    assert NodeInv(env, w.log, i, s);
    AdvanceKeepsSession(env, i, s, k);
    AdvanceSentBacked(env, w.log, i, s, k);
    AdvanceDelivered(env, w.log, i, s, k);
    AdvanceSignals(env, w.log, i, s, k);
    AdvanceEventOk(env, w, i, k);
  }

  lemma ReceiveOk(env: Env, w: World, i: Sid, m: Message)
    requires WorldInv(env, w) && Enabled(env, w, Receive(i, m))
    ensures StepOk(env, w, i, EffectOf(env, w, Receive(i, m)))
  {
    var s := w.nodes[i];
    var e := EffectOf(env, w, Receive(i, m));
    assert NodeInv(env, w.log, i, s);
    ReceiveKeepsSession(env, i, s, m);
    AppendOk(env, w.log, Received(i, m));
    if s.signals == 1 { AgreedGrows(w.log, e.events, i); }
    BackedGrows(env, w.log, e.events, s.acks.sig);
    forall j | 0 <= j < |e.node.handlers|
      ensures Delivered(env, w.log + e.events, i, e.node.handlers[j])
    {
      if j < |s.handlers| {
        assert Delivered(env, w.log, i, s.handlers[j]);
        BackedGrows(env, w.log, e.events, s.handlers[j].msg.sig);
      } else {
        BackedGrows(env, w.log, e.events, m.sig);
      }
    }
  }

  // More events leave what handlers work on justified.
  lemma DeliveredGrows(env: Env, log: seq<Event>, more: seq<Event>, i: Sid, s: Node)
    requires forall j :: 0 <= j < |s.handlers| ==> Delivered(env, log, i, s.handlers[j])
    ensures forall j :: 0 <= j < |s.handlers| ==> Delivered(env, log + more, i, s.handlers[j])
  {
    hide Backed;
    forall j | 0 <= j < |s.handlers|
      ensures Delivered(env, log + more, i, s.handlers[j])
    {
      assert Delivered(env, log, i, s.handlers[j]);
      BackedGrows(env, log, more, s.handlers[j].msg.sig);
    }
  }

  lemma DecidedNode(env: Env, log: seq<Event>, i: Sid, s: Node, events: seq<Event>)
    requires NodeInv(env, log, i, s) && s.waiter == Agreed && SessionInv(env, i, s.(waiter := Acted))
    requires events == if s.leader == env.peer(i.member) then [Called(i)] else []
    ensures NodeInv(env, log + events, i, s.(waiter := Acted))
  {
    BackedGrows(env, log, events, s.acks.sig);
    DeliveredGrows(env, log, events, i, s);
    assert s.signals == 1;
    AgreedGrows(log, events, i);
    hide Backed;
    hide Delivered;
    hide AgreedIn;
    hide SessionInv;
    hide Witnessed;
  }

  // The call is the first one of its session.
  lemma DecidedLog(env: Env, log: seq<Event>, i: Sid, s: Node, events: seq<Event>)
    requires LogInv(env, log) && NodeInv(env, log, i, s) && s.waiter == Agreed
    requires events == if s.leader == env.peer(i.member) then [Called(i)] else []
    ensures LogInv(env, log + events)
  {
    if events == [] {
      assert log + events == log;
    } else {
      assert Called(i) !in log;
      hide NodeInv;
      hide LogInv;
      assert EventOk(env, log + [Called(i)], |log|);
      AppendOk(env, log, Called(i));
    }
  }

  lemma DecideOk(env: Env, w: World, i: Sid)
    requires WorldInv(env, w) && Enabled(env, w, Decide(i))
    ensures StepOk(env, w, i, EffectOf(env, w, Decide(i)))
  {
    var s := w.nodes[i];
    assert NodeInv(env, w.log, i, s);
    assert SessionInv(env, i, s);
    ActionKeepsSession(env, w, Decide(i));
    var e := EffectOf(env, w, Decide(i));
    assert e.node == s.(waiter := Acted);
    hide NodeInv;
    hide SessionInv;
    hide LogInv;
    DecidedNode(env, w.log, i, s, e.events);
    DecidedLog(env, w.log, i, s, e.events);
  }

  lemma QuietOk(env: Env, w: World, a: Action)
    requires WorldInv(env, w) && Enabled(env, w, a)
    requires a.Create? || a.Start? || a.GiveUp? || a.Cancel? || a.Undecodable?
    ensures StepOk(env, w, a.i, EffectOf(env, w, a))
  {
    var e := EffectOf(env, w, a);
    assert w.log + e.events == w.log;
    if !a.Create? { assert NodeInv(env, w.log, a.i, w.nodes[a.i]); }
    ActionKeepsSession(env, w, a);
  }

  // Every enabled action keeps the invariant of the world.
  lemma StepInv(env: Env, w: World, a: Action)
    requires WorldInv(env, w) && Enabled(env, w, a)
    ensures WorldInv(env, Do(env, w, a))
  {
    if !a.Inject? {
      match a {
        case Receive(i, m) => ReceiveOk(env, w, i, m);
        case Advance(i, k) => AdvanceOk(env, w, i, k);
        case Decide(i) => DecideOk(env, w, i);
        case _ => QuietOk(env, w, a);
      }
      StepKeepsWorld(env, w, a.i, EffectOf(env, w, a));
    }
  }

  lemma {:induction false} RunInv(env: Env, w: World, acts: seq<Action>)
    requires WorldInv(env, w)
    ensures Exec(env, w, acts).Some? ==> WorldInv(env, Exec(env, w, acts).value)
    decreases |acts|
  {
    if acts != [] && Enabled(env, w, acts[0]) {
      StepInv(env, w, acts[0]);
      RunInv(env, Do(env, w, acts[0]), acts[1..]);
    }
  }
}
