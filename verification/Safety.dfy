// The theorems about whole runs of the protocol.
module Safety {
  import opened Options
  import opened Bits
  import opened Bls
  import opened Tlc
  import opened Protocol
  import opened Agreement
  import Leader

  // A state that some run from the initial one reaches.
  ghost predicate Reachable(env: Env, w: World)
  {
    exists acts: seq<Action> :: Exec(env, INIT, acts) == Some(w)
  }

  lemma ReachableInv(env: Env, w: World)
    requires Reachable(env, w)
    ensures WorldInv(env, w)
  {
    var acts: seq<Action> :| Exec(env, INIT, acts) == Some(w);
    RunInv(env, INIT, acts);
  }

  // ---- The session invariant ----

  // In every reachable state of every node: the count is the number of bits in
  // the mask and never above the threshold, both aggregates are the sums over
  // the mask, a Prepared message went out exactly when the threshold was
  // reached, once and with that many members; the mutex is held exactly by a
  // handler that is signalling or has leaked it, and the only handlers that
  // returned with the mutex held are those of unverified acks.
  lemma SessionAlways(env: Env, w: World, i: Sid)
    requires Reachable(env, w) && i in w.nodes
    ensures var s := w.nodes[i];
      && s.acks.count == |Ones(s.acks.mask)| <= Threshold(s)
      && s.acks.pk == SumOnes(env.ep.sk, s.acks.mask, 0)
      && s.acks.sig.value == SumOnes(AckValue(env.ep, env.topic), s.acks.mask, 0)
      && |s.outs| == (if s.acks.count == Threshold(s) then 1 else 0)
      && (s.outs != [] ==> |Ones(s.outs[0].mask)| == Threshold(s) && Witnessed(env.ep, Threshold(s), s.outs[0]))
      && s.signals <= 1
      && (forall k: nat :: k < |s.handlers| ==> (s.lock == Some(k) <==> Holds(s.handlers[k].pc)))
      && forall k :: 0 <= k < |s.handlers| && s.handlers[k].pc == Leaked ==>
           var m := s.handlers[k].msg; m.kind == Prepare && 0 <= m.source < env.ep.n && !AckVerified(env.ep, m)
  {
    ReachableInv(env, w);
    var s := w.nodes[i];
    assert NodeInv(env, w.log, i, s);
    CountIsCardinality(s.acks.mask);
    forall k: nat | k < |s.handlers|
      ensures s.lock == Some(k) <==> s.handlers[k].pc == Sending || s.handlers[k].pc == Leaked
    {
      assert HandlerInv(env, s, k);
    }
    forall k | 0 <= k < |s.handlers| && s.handlers[k].pc == Leaked
      ensures var m := s.handlers[k].msg; m.kind == Prepare && 0 <= m.source < env.ep.n && !AckVerified(env.ep, m)
    {
      assert HandlerInv(env, s, k);
    }
  }

  // ---- Agreement rests on a signed quorum ----

  // Member j signed the topic before position t of the log, after an Announce for it.
  ghost predicate SignedAfterAnnounce(env: Env, log: seq<Event>, t: nat, j: nat)
  {
    exists q, r :: 0 <= r < q < t && q < |log| && log[q] == Signed(j, env.topic)
      && log[r].Received? && log[r].node.member == j && log[r].msg.kind == Announce && log[r].msg.body == env.topic
  }

  // Whenever a session signals agreement, at least its own threshold of
  // distinct members, and at least four, had signed the topic after receiving an Announce for it
  // (or are corrupt).
  lemma AgreementNeedsQuorum(env: Env, w: World, t: nat)
    requires Reachable(env, w) && t < |w.log| && w.log[t].Signalled?
    ensures var i, m := w.log[t].node, w.log[t].msg;
      && i in w.nodes
      && |Ones(m.mask)| >= Threshold(w.nodes[i]) >= 4
      && forall j :: j in Ones(m.mask) ==> j in env.corrupt || SignedAfterAnnounce(env, w.log, t, j)
  {
    ReachableInv(env, w);
    var i, m := w.log[t].node, w.log[t].msg;
    assert w.log[t] in w.log;
    assert NodeInv(env, w.log, i, w.nodes[i]);
    CountIsCardinality(m.mask);
    assert EventOk(env, w.log, t);
    forall j | j in Ones(m.mask) && j !in env.corrupt
      ensures SignedAfterAnnounce(env, w.log, t, j)
    {
      var q :| 0 <= q < t && q < |w.log| && w.log[q] == Signed(j, env.topic);
      assert EventOk(env, w.log, q);
      var r :| 0 <= r < q && r < |w.log| && w.log[r].Received? && w.log[r].node.member == j
        && w.log[r].msg.kind == Announce && w.log[r].msg.body == env.topic;
    }
  }

  // If only members are corrupt, a session that agreed had a threshold that the
  // epoch can meet.
  lemma AgreedFits(env: Env, w: World, i: Sid)
    requires Reachable(env, w) && i in w.nodes && AgreedIn(w.log, i)
    requires forall c :: c in env.corrupt ==> c < env.ep.n
    ensures Threshold(w.nodes[i]) <= env.ep.n
  {
    ReachableInv(env, w);
    var m :| Signalled(i, m) in w.log;
    var t :| 0 <= t < |w.log| && w.log[t] == Signalled(i, m);
    AgreementNeedsQuorum(env, w, t);
    forall j | j in Ones(m.mask)
      ensures j in Below(env.ep.n)
    {
      if j !in env.corrupt {
        assert SignedAfterAnnounce(env, w.log, t, j);
        assert Signed(j, env.topic) in w.log;
        assert Known(w, Signed(j, env.topic));
        var k :| k in w.nodes && k.member == j;
        assert NodeInv(env, w.log, k, w.nodes[k]);
      }
    }
    SubsetSize(Ones(m.mask), Below(env.ep.n));
  }

  // ---- Quorum intersection ----

  lemma {:induction false} CommonMember(a: set<nat>, b: set<nat>, all: set<nat>)
    requires a <= all && b <= all && |a| + |b| > |all|
    ensures a * b != {}
  {
    if a * b == {} {
      assert |a + b| == |a| + |b|;
      SubsetSize(a + b, all);
    }
  }

  ghost function Below(n: nat): (s: set<nat>)
    ensures forall i: nat :: i in s <==> i < n
    ensures |s| == n
  {
    if n == 0 then {} else Below(n - 1) + {n - 1}
  }

  // A threshold taken from a view of p participants makes every two quorums
  // among n members meet exactly when n is at most twice the threshold minus
  // one, in particular when n == p.
  lemma QuorumsMeetIff(n: nat, p: nat)
    ensures (forall a: set<nat>, b: set<nat> ::
              a <= Below(n) && b <= Below(n) && |a| >= p / 2 + 1 && |b| >= p / 2 + 1 ==> a * b != {})
       <==> n < 2 * (p / 2 + 1)
  {
    var t := p / 2 + 1;
    if n < 2 * t {
      forall a: set<nat>, b: set<nat> | a <= Below(n) && b <= Below(n) && |a| >= t && |b| >= t
        ensures a * b != {}
      {
        CommonMember(a, b, Below(n));
      }
    } else {
      var a, b := Below(t), Below(n) - Below(t);
      assert a <= Below(n);
      assert |b| == n - t;
      assert a * b == {};
    }
  }

  // In every run: the masks of two agreements have at least as many members in
  // common as the two thresholds exceed the members that opened a session or
  // are corrupt, and everyone in them signed or is corrupt.
  lemma MasksOverlap(env: Env, w: World, t1: nat, t2: nat)
    requires Reachable(env, w)
    requires t1 < |w.log| && w.log[t1].Signalled? && t2 < |w.log| && w.log[t2].Signalled?
    ensures var a, b := Ones(w.log[t1].msg.mask), Ones(w.log[t2].msg.mask);
      && w.log[t1].node in w.nodes && w.log[t2].node in w.nodes
      && Threshold(w.nodes[w.log[t1].node]) + Threshold(w.nodes[w.log[t2].node]) <= |a * b| + |Opened(w) + env.corrupt|
      && forall j :: j in a + b ==> j in env.corrupt || Signed(j, env.topic) in w.log
  {
    ReachableInv(env, w);
    AgreementNeedsQuorum(env, w, t1);
    AgreementNeedsQuorum(env, w, t2);
    var a, b := Ones(w.log[t1].msg.mask), Ones(w.log[t2].msg.mask);
    forall j | j in a + b
      ensures j in Opened(w) + env.corrupt && (j in env.corrupt || Signed(j, env.topic) in w.log)
    {
      if j !in env.corrupt {
        assert SignedAfterAnnounce(env, w.log, if j in a then t1 else t2, j);
        assert Signed(j, env.topic) in w.log;
        assert Known(w, Signed(j, env.topic));
      }
    }
    SubsetSize(a + b, Opened(w) + env.corrupt);
    assert |a + b| + |a * b| == |a| + |b|;
  }

  // Thresholds that together exceed those members force a common member.
  lemma AgreementsShareMember(env: Env, w: World, t1: nat, t2: nat)
    requires Reachable(env, w)
    requires t1 < |w.log| && w.log[t1].Signalled? && t2 < |w.log| && w.log[t2].Signalled?
    requires w.log[t1].node in w.nodes && w.log[t2].node in w.nodes
    requires Threshold(w.nodes[w.log[t1].node]) + Threshold(w.nodes[w.log[t2].node]) > |Opened(w) + env.corrupt|
    ensures exists j ::
      && j in Ones(w.log[t1].msg.mask) && j in Ones(w.log[t2].msg.mask)
      && (j in env.corrupt || Signed(j, env.topic) in w.log)
  {
    MasksOverlap(env, w, t1, t2);
    var both := Ones(w.log[t1].msg.mask) * Ones(w.log[t2].msg.mask);
    assert both != {};
    var j :| j in both;
  }

  // Exceeding them by more than the number of corrupt members forces a common
  // honest member, who signed.
  lemma AgreementsShareHonestSigner(env: Env, w: World, t1: nat, t2: nat)
    requires Reachable(env, w)
    requires t1 < |w.log| && w.log[t1].Signalled? && t2 < |w.log| && w.log[t2].Signalled?
    requires w.log[t1].node in w.nodes && w.log[t2].node in w.nodes
    requires Threshold(w.nodes[w.log[t1].node]) + Threshold(w.nodes[w.log[t2].node])
           > |Opened(w) + env.corrupt| + |env.corrupt|
    ensures exists j ::
      && j in Ones(w.log[t1].msg.mask) && j in Ones(w.log[t2].msg.mask)
      && j !in env.corrupt && Signed(j, env.topic) in w.log
  {
    MasksOverlap(env, w, t1, t2);
    var both := Ones(w.log[t1].msg.mask) * Ones(w.log[t2].msg.mask);
    if both <= env.corrupt { SubsetSize(both, env.corrupt); }
    var j :| j in both && j !in env.corrupt;
  }

  // In particular two agreements among honest members whose sessions all
  // counted every participant share a member who signed.
  lemma AgreementsShareSigner(env: Env, w: World, t1: nat, t2: nat)
    requires Reachable(env, w) && env.corrupt == {}
    requires forall i :: i in w.nodes ==> |w.nodes[i].view| >= |Opened(w)|
    requires t1 < |w.log| && w.log[t1].Signalled? && t2 < |w.log| && w.log[t2].Signalled?
    ensures exists j :: j in Ones(w.log[t1].msg.mask) && j in Ones(w.log[t2].msg.mask) && Signed(j, env.topic) in w.log
  {
    MasksOverlap(env, w, t1, t2);
    assert Opened(w) + env.corrupt == Opened(w);
    AgreementsShareHonestSigner(env, w, t1, t2);
  }

  // ---- At most one external call ----

  // A call is made by a session whose own view elects its member, after it
  // agreed, and once by each.
  lemma CalledByElected(env: Env, w: World, t: nat)
    requires Reachable(env, w) && t < |w.log| && w.log[t].Called?
    ensures var i := w.log[t].node;
      && i.member < env.ep.n && i in w.nodes && w.nodes[i].view != []
      && LeaderOf(env, w.nodes[i].view) == env.peer(i.member)
      && AgreedIn(w.log, i)
      && forall r :: 0 <= r < t ==> w.log[r] != Called(i)
  {
    hide LockInv;
    hide AcksInv;
    hide Backed;
    hide LeaderOf;
    ReachableInv(env, w);
    assert w.log[t] in w.log;
    assert NodeInv(env, w.log, w.log[t].node, w.nodes[w.log[t].node]);
    assert EventOk(env, w.log, t);
  }

  // All sessions saw the same participants, whatever the order and repetition,
  // and the least hash belongs to one of them.
  ghost predicate SameElection(env: Env, w: World)
  {
    && (forall i, j :: i in w.nodes && j in w.nodes && env.peer(i.member) == env.peer(j.member) ==>
        i.member == j.member)
    && (forall i, j :: i in w.nodes && j in w.nodes ==> Leader.SamePeers(w.nodes[i].view, w.nodes[j].view))
    && (forall i :: i in w.nodes && w.nodes[i].view != [] ==> Leader.Unambiguous(env.hash, env.topic, w.nodes[i].view))
  }

  // Then all calls come from sessions of one member.
  lemma OneCaller(env: Env, w: World, t1: nat, t2: nat)
    requires Reachable(env, w) && SameElection(env, w)
    requires t1 < |w.log| && w.log[t1].Called? && t2 < |w.log| && w.log[t2].Called?
    ensures w.log[t1].node.member == w.log[t2].node.member
  {
    hide Reachable;
    CalledByElected(env, w, t1);
    CalledByElected(env, w, t2);
    var s, u := w.nodes[w.log[t1].node], w.nodes[w.log[t2].node];
    if env.topic != [] {
      Leader.LeaderIsLeast(env.hash, env.topic, s.view);
      Leader.Stable(env.hash, env.topic, s.view, u.view);
    }
    assert env.peer(w.log[t1].node.member) == env.peer(w.log[t2].node.member);
  }

  ghost function Calls(log: seq<Event>): set<nat>
  {
    set t: nat | t < |log| && log[t].Called?
  }

  ghost function Callers(log: seq<Event>): set<Sid>
  {
    set t: nat | t < |log| && log[t].Called? :: log[t].node
  }

  // No session calls twice.
  ghost predicate CallsOnce(log: seq<Event>)
  {
    forall r, t :: 0 <= r < t < |log| && log[t].Called? ==> log[r] != log[t]
  }

  lemma {:induction false} CountCallers(log: seq<Event>)
    requires CallsOnce(log)
    ensures |Calls(log)| == |Callers(log)|
  {
    if log == [] {
      assert Calls(log) == {} && Callers(log) == {};
    } else {
      CallsSnoc(log);
      CallersSnoc(log);
      NewCaller(log);
      hide Calls;
      hide Callers;
      hide CallsOnce;
      CountCallers(log[..|log| - 1]);
    }
  }

  lemma NewCaller(log: seq<Event>)
    requires log != [] && CallsOnce(log)
    ensures CallsOnce(log[..|log| - 1]) && |log| - 1 !in Calls(log[..|log| - 1])
    ensures log[|log| - 1].Called? ==> log[|log| - 1].node !in Callers(log[..|log| - 1])
  {
  }

  lemma CallsSnoc(log: seq<Event>)
    requires log != []
    ensures var n := |log| - 1; Calls(log) == Calls(log[..n]) + if log[n].Called? then {n} else {}
  {
  }

  lemma CallersSnoc(log: seq<Event>)
    requires log != []
    ensures var e := log[|log| - 1];
      Callers(log) == Callers(log[..|log| - 1]) + if e.Called? then {e.node} else {}
  {
    var n := |log| - 1;
    var init, e := log[..n], log[n];
    forall i
      ensures i in Callers(log) <==> i in Callers(init) || (e.Called? && e.node == i)
    {
      if i in Callers(log) {
        var t: nat :| t < |log| && log[t].Called? && log[t].node == i;
        if t < n { assert init[t] == log[t]; }
      }
      if i in Callers(init) {
        var t: nat :| t < n && init[t].Called? && init[t].node == i;
        assert log[t] == init[t];
      }
      if e.Called? && e.node == i { assert log[n].node == i; }
    }
  }

  // The sessions a member opened.
  ghost function SessionsOf(w: World, m: nat): set<Sid>
  {
    set i | i in w.nodes && i.member == m
  }

  // With the same participants everywhere, a run makes at most as many calls to
  // the external chain as the elected member opened sessions.
  lemma CallsBounded(env: Env, w: World, t: nat)
    requires Reachable(env, w) && SameElection(env, w) && t < |w.log| && w.log[t].Called?
    ensures |Calls(w.log)| <= |SessionsOf(w, w.log[t].node.member)|
  {
    hide Reachable;
    hide SameElection;
    assert CallsOnce(w.log) by {
      forall x, y | 0 <= x < y < |w.log| && w.log[y].Called?
        ensures w.log[x] != w.log[y]
      {
        CalledByElected(env, w, y);
      }
    }
    CountCallers(w.log);
    forall i | i in Callers(w.log)
      ensures i in SessionsOf(w, w.log[t].node.member)
    {
      var x: nat :| x < |w.log| && w.log[x].Called? && w.log[x].node == i;
      CalledByElected(env, w, x);
      OneCaller(env, w, x, t);
    }
    SubsetSize(Callers(w.log), SessionsOf(w, w.log[t].node.member));
  }

  // In particular at most one call is made if that member opened one session.
  lemma AtMostOneCall(env: Env, w: World, t1: nat, t2: nat)
    requires Reachable(env, w) && SameElection(env, w)
    requires t1 < |w.log| && w.log[t1].Called? && t2 < |w.log| && w.log[t2].Called?
    requires forall i, j :: i in w.nodes && j in w.nodes && i.member == j.member == w.log[t1].node.member ==> i == j
    ensures t1 == t2
  {
    hide Reachable;
    hide SameElection;
    OneCaller(env, w, t1, t2);
    CalledByElected(env, w, t1);
    CalledByElected(env, w, t2);
    assert w.log[t1] == w.log[t2];
  }

  // ---- Frozen after the quorum ----

  ghost predicate Full(w: World, i: Sid)
  {
    i in w.nodes && w.nodes[i].acks.count >= Threshold(w.nodes[i])
  }

  lemma FullStep(env: Env, w: World, a: Action, i: Sid)
    requires Full(w, i) && Enabled(env, w, a)
    ensures Full(Do(env, w, a), i)
    ensures Do(env, w, a).nodes[i].acks == w.nodes[i].acks && Do(env, w, a).nodes[i].outs == w.nodes[i].outs
  {
  }

  // Once a session has its quorum, no continuation of the run changes the
  // count, the mask, the aggregates or what it has broadcast.
  lemma {:induction false} FrozenOnceFull(env: Env, w: World, acts: seq<Action>, i: Sid)
    requires Full(w, i) && Exec(env, w, acts).Some?
    ensures var w' := Exec(env, w, acts).value;
      i in w'.nodes && w'.nodes[i].acks == w.nodes[i].acks && w'.nodes[i].outs == w.nodes[i].outs
    decreases |acts|
  {
    if acts != [] {
      FullStep(env, w, acts[0], i);
      FrozenOnceFull(env, Do(env, w, acts[0]), acts[1..], i);
    }
  }

  // ---- Lock discipline ----

  // The mutex of node i is held by a handler that has returned, or by one that
  // signals agreement to a waiter that has given up.
  ghost predicate Stuck(w: World, i: Sid)
  {
    i in w.nodes && StuckNode(w.nodes[i])
  }

  ghost predicate StuckNode(s: Node)
  {
    s.lock.Some? && s.lock.value < |s.handlers| &&
    (s.handlers[s.lock.value].pc == Leaked || (s.handlers[s.lock.value].pc == Sending && s.waiter == GaveUp))
  }

  ghost predicate Unmoved(s: Node, t: Node)
  {
    t.acks == s.acks && t.outs == s.outs && t.signals == s.signals && t.lock == s.lock
  }

  lemma StuckAdvance(env: Env, i: Sid, s: Node, k: nat)
    requires LockInv(env, s) && StuckNode(s) && CanAdvance(env, s, k)
    ensures StuckNode(AdvanceHandler(env, i, s, k).node) && Unmoved(s, AdvanceHandler(env, i, s, k).node)
  {
    hide AdvancePrepare;
    hide Witnessed;
    assert HandlerInv(env, s, k);
  }

  lemma StuckStep(env: Env, w: World, a: Action, i: Sid)
    requires WorldInv(env, w) && Stuck(w, i) && Enabled(env, w, a)
    ensures Stuck(Do(env, w, a), i) && Unmoved(w.nodes[i], Do(env, w, a).nodes[i])
  {
    hide AdvanceHandler;
    hide CanAdvance;
    assert NodeInv(env, w.log, i, w.nodes[i]);
    if a.Advance? && a.i == i { StuckAdvance(env, i, w.nodes[i], a.k); }
  }

  // The mutex is then held for good: no continuation counts an ack,
  // broadcasts a Prepared or signals agreement at that node.
  lemma {:induction false} StuckForever(env: Env, w: World, acts: seq<Action>, i: Sid)
    requires WorldInv(env, w) && Stuck(w, i) && Exec(env, w, acts).Some?
    ensures var w' := Exec(env, w, acts).value;
      && Stuck(w', i)
      && w'.nodes[i].acks == w.nodes[i].acks && w'.nodes[i].outs == w.nodes[i].outs
      && w'.nodes[i].signals == w.nodes[i].signals
    decreases |acts|
  {
    if acts != [] {
      StuckStep(env, w, acts[0], i);
      StepInv(env, w, acts[0]);
      StuckForever(env, Do(env, w, acts[0]), acts[1..], i);
    }
  }

  // The step of a Prepare handler leaves the mutex held exactly when the ack of
  // a new member inside the epoch, arriving before the quorum, does not verify.
  lemma PrepareLeaksIff(env: Env, w: World, i: Sid, k: nat)
    requires Reachable(env, w) && i in w.nodes && CanAdvance(env, w.nodes[i], k)
    requires Counts(env, w.nodes[i].handlers[k])
    ensures var s, m := w.nodes[i], w.nodes[i].handlers[k].msg;
      Stuck(Do(env, w, Advance(i, k)), i) <==>
        && s.acks.count < Threshold(s) && 0 <= m.source < env.ep.n
        && Bit(s.acks.mask, m.source) == 0 && !AckVerified(env.ep, m)
  {
    ReachableInv(env, w);
    var s, m := w.nodes[i], w.nodes[i].handlers[k].msg;
    assert NodeInv(env, w.log, i, s);
    assert Do(env, w, Advance(i, k)).nodes[i] == AdvancePrepare(env, i, s, k).node;
    PrepareStep(env.ep, i.member, env.topic, Threshold(s), s.acks, m);
    PrepareFields(env, i, s, k);
    hide AdvancePrepare;
    hide NodeInv;
    hide WorldInv;
    hide VerifyMultisig;
    hide AcksInv;
    hide Witnessed;
  }

  // It crashes the session exactly when it comes before the quorum in the name
  // of nobody in the epoch; a repeated ack never does.
  lemma PrepareCrashesIff(env: Env, w: World, i: Sid, k: nat)
    requires Reachable(env, w) && i in w.nodes && CanAdvance(env, w.nodes[i], k)
    requires Counts(env, w.nodes[i].handlers[k])
    ensures var s, m := w.nodes[i], w.nodes[i].handlers[k].msg;
      Do(env, w, Advance(i, k)).nodes[i].crashed <==> s.acks.count < Threshold(s) && !(0 <= m.source < env.ep.n)
  {
    ReachableInv(env, w);
    var s, m := w.nodes[i], w.nodes[i].handlers[k].msg;
    assert NodeInv(env, w.log, i, s);
    assert Do(env, w, Advance(i, k)).nodes[i] == AdvancePrepare(env, i, s, k).node;
    PrepareOutcome(env.ep, i.member, env.topic, Threshold(s), s.acks, m);
    PrepareFields(env, i, s, k);
    hide AdvancePrepare;
    hide NodeInv;
    hide WorldInv;
    hide AcksInv;
    hide OnPrepare;
    hide AckVerified;
  }

  // Sessions crash for no other reason: only a message that does not decode and
  // such an ack crash a session.
  lemma CrashesIff(env: Env, w: World, a: Action, i: Sid)
    requires Reachable(env, w) && Enabled(env, w, a) && i in w.nodes && !w.nodes[i].crashed
    ensures Do(env, w, a).nodes[i].crashed <==>
      || a == Undecodable(i)
      || (a.Advance? && a.i == i && Counts(env, w.nodes[i].handlers[a.k])
          && w.nodes[i].acks.count < Threshold(w.nodes[i])
          && !(0 <= w.nodes[i].handlers[a.k].msg.source < env.ep.n))
  {
    if a.Advance? && a.i == i {
      if Counts(env, w.nodes[i].handlers[a.k]) {
        PrepareCrashesIff(env, w, i, a.k);
      } else {
        OtherFields(env, i, w.nodes[i], a.k);
      }
    }
    hide AdvanceHandler;
    hide LeaderOf;
    hide Reachable;
  }

  // The step of a verified Prepared handler blocks the session exactly when the
  // waiter has given up and the session was not cancelled.
  lemma PreparedBlocksIff(env: Env, w: World, i: Sid, k: nat)
    requires Reachable(env, w) && i in w.nodes && CanAdvance(env, w.nodes[i], k)
    requires w.nodes[i].handlers[k].pc == Verified
    ensures Stuck(Do(env, w, Advance(i, k)), i) <==> !w.nodes[i].cancelled && w.nodes[i].waiter == GaveUp
  {
  }

  // Giving up blocks a session that is not blocked yet exactly when a handler
  // is signalling.
  lemma GiveUpBlocksIff(env: Env, w: World, i: Sid)
    requires Reachable(env, w) && Enabled(env, w, GiveUp(i)) && !Stuck(w, i)
    ensures Stuck(Do(env, w, GiveUp(i)), i)
       <==> exists k: nat :: k < |w.nodes[i].handlers| && w.nodes[i].handlers[k].pc == Sending
  {
    ReachableInv(env, w);
    var s := w.nodes[i];
    assert NodeInv(env, w.log, i, s);
    assert Do(env, w, GiveUp(i)).nodes[i] == s.(waiter := GaveUp);
    if k: nat :| k < |s.handlers| && s.handlers[k].pc == Sending { assert HandlerInv(env, s, k); }
  }

  lemma OtherNotStuck(env: Env, i: Sid, s: Node, k: nat)
    requires LockInv(env, s) && CanAdvance(env, s, k) && !StuckNode(s)
    requires !Counts(env, s.handlers[k]) && s.handlers[k].pc != Verified
    ensures !StuckNode(AdvanceHandler(env, i, s, k).node)
  {
    OtherFields(env, i, s, k);
    HandlerOf(env, s, k);
    hide AdvanceHandler;
    hide LockInv;
  }

  // Nothing else blocks a session: no action elsewhere, and at the node only
  // giving up and a step of a Prepare or verified Prepared handler.
  lemma OnlyTheseBlock(env: Env, w: World, a: Action, i: Sid)
    requires Reachable(env, w) && Enabled(env, w, a) && !Stuck(w, i) && Stuck(Do(env, w, a), i)
    ensures (a.GiveUp? || a.Advance?) && a.i == i && i in w.nodes
    ensures a.Advance? ==> (Counts(env, w.nodes[i].handlers[a.k]) || w.nodes[i].handlers[a.k].pc == Verified)
  {
    ReachableInv(env, w);
    if i in w.nodes {
      assert NodeInv(env, w.log, i, w.nodes[i]);
      if a.Advance? && a.i == i && !Counts(env, w.nodes[i].handlers[a.k]) && w.nodes[i].handlers[a.k].pc != Verified {
        OtherNotStuck(env, i, w.nodes[i], a.k);
      }
    }
    hide AdvanceHandler;
    hide NodeInv;
    hide WorldInv;
  }

  // A message that is not an ack for the topic is read without the mutex: an
  // Announce is answered, a Prepared is checked, anything else is dropped, and
  // nothing else of the session changes.
  lemma ReadWithoutMutex(env: Env, w: World, i: Sid, m: Message)
    requires i in w.nodes && !w.nodes[i].crashed && w.nodes[i].receiving && m in w.pool
    requires m.body != env.topic || m.kind != Prepare
    ensures var acts := [Receive(i, m), Advance(i, |w.nodes[i].handlers|)];
      var mine := m.body == env.topic;
      && Exec(env, w, acts).Some? && i in Exec(env, w, acts).value.nodes
      && var w' := Exec(env, w, acts).value;
      && var s, t := w.nodes[i], w'.nodes[i];
      && Unmoved(s, t) && !t.crashed && t.waiter == s.waiter && t.cancelled == s.cancelled
      && t.handlers == s.handlers + [Handler(m,
           if mine && m.kind == Prepared && Witnessed(env.ep, Threshold(s), m) then Verified else Finished)]
      && w'.pool == (if mine && m.kind == Announce
                     then w.pool + {AckOf(env.ep, i.member, env.topic, env.mk(i.member))} else w.pool)
  {
    hide Witnessed;
    hide Multisign;
    var s := w.nodes[i];
    var k := |s.handlers|;
    var w1 := Do(env, w, Receive(i, m));
    assert w1.nodes[i].handlers[k] == Handler(m, Spawned);
    assert w1.pool == w.pool;
    assert Enabled(env, w1, Advance(i, k));
    var acts := [Receive(i, m), Advance(i, k)];
    assert acts[1..] == [Advance(i, k)] && acts[1..][1..] == [];
    assert Exec(env, w1, acts[1..]) == Some(Do(env, w1, Advance(i, k)));
    var e := AdvanceSpawned(env, i, w1.nodes[i], k);
    assert (set x | x in e.sent) == if m.body == env.topic && m.kind == Announce
      then {AckOf(env.ep, i.member, env.topic, env.mk(i.member))} else {};
    assert e.node.handlers == s.handlers + [e.node.handlers[k]];
  }

  // Announce needs no mutex: a stuck session that still receives answers it.
  lemma StuckStillAnswers(env: Env, w: World, i: Sid, m: Message)
    requires Stuck(w, i) && !w.nodes[i].crashed && w.nodes[i].receiving
    requires m in w.pool && m.kind == Announce && m.body == env.topic
    ensures var acts := [Receive(i, m), Advance(i, |w.nodes[i].handlers|)];
      Exec(env, w, acts).Some? && AckOf(env.ep, i.member, env.topic, env.mk(i.member)) in Exec(env, w, acts).value.pool
  {
    var k := |w.nodes[i].handlers|;
    var w1 := Do(env, w, Receive(i, m));
    assert Enabled(env, w1, Advance(i, k));
    var acts := [Receive(i, m), Advance(i, k)];
    assert acts[1..] == [Advance(i, k)] && acts[1..][1..] == [];
    assert Exec(env, w1, acts[1..]) == Some(Do(env, w1, Advance(i, k)));
  }

  // ---- Crashed and cancelled sessions ----

  // A crashed session takes no further part in any continuation.
  lemma {:induction false} CrashedForever(env: Env, w: World, acts: seq<Action>, i: Sid)
    requires i in w.nodes && w.nodes[i].crashed && Exec(env, w, acts).Some?
    ensures var w' := Exec(env, w, acts).value;
      && i in w'.nodes && w'.nodes[i].crashed && w'.nodes[i].handlers == w.nodes[i].handlers
      && Unmoved(w.nodes[i], w'.nodes[i])
    decreases |acts|
  {
    if acts != [] {
      CrashedStep(env, w, acts[0], i);
      hide Do;
      hide Enabled;
      CrashedForever(env, Do(env, w, acts[0]), acts[1..], i);
    }
  }

  // It sends and does nothing.
  lemma CrashedStep(env: Env, w: World, a: Action, i: Sid)
    requires i in w.nodes && w.nodes[i].crashed && Enabled(env, w, a)
    ensures var w' := Do(env, w, a);
      && i in w'.nodes && w'.nodes[i].crashed && w'.nodes[i].handlers == w.nodes[i].handlers
      && Unmoved(w.nodes[i], w'.nodes[i])
      && (!a.Inject? && a.i == i ==> w'.pool == w.pool && w'.log == w.log)
  {
    hide AdvanceHandler;
  }

  // The messages a session has received.
  function Receipts(log: seq<Event>, i: Sid): nat
  {
    if log == [] then 0
    else
      var e := log[|log| - 1];
      Receipts(log[..|log| - 1], i) + if e.Received? && e.node == i then 1 else 0
  }

  // The messages the receive loop may still take: one if it is waiting while the
  // session is cancelled.
  function Due(s: Node): nat
  {
    if s.receiving then 1 else 0
  }

  lemma ReceiptsAppend(log: seq<Event>, more: seq<Event>, i: Sid)
    requires |more| <= 1
    ensures Receipts(log + more, i) ==
      Receipts(log, i) + if |more| == 1 && more[0].Received? && more[0].node == i then 1 else 0
  {
    if |more| == 1 {
      assert (log + more)[..|log|] == log;
    } else {
      assert log + more == log;
    }
  }

  lemma CancelledStep(env: Env, w: World, a: Action, i: Sid)
    requires i in w.nodes && w.nodes[i].cancelled && Enabled(env, w, a)
    ensures var w' := Do(env, w, a);
      && i in w'.nodes && w'.nodes[i].cancelled
      && Receipts(w'.log, i) + Due(w'.nodes[i]) <= Receipts(w.log, i) + Due(w.nodes[i])
  {
    if !a.Inject? {
      if a.Advance? {
        AdvanceEvents(env, a.i, w.nodes[a.i], a.k);
        AdvanceListens(env, a.i, w.nodes[a.i], a.k);
      }
      hide AdvanceHandler;
      ReceiptsAppend(w.log, EffectOf(env, w, a).events, i);
      hide Receipts;
    }
  }

  lemma AdvanceListens(env: Env, i: Sid, s: Node, k: nat)
    requires CanAdvance(env, s, k)
    ensures var t := AdvanceHandler(env, i, s, k).node;
      t.receiving == s.receiving && (s.cancelled ==> t.cancelled)
  {
    hide OnPrepare;
    hide Witnessed;
  }

  lemma {:induction false} CancelledRun(env: Env, w: World, acts: seq<Action>, i: Sid)
    requires i in w.nodes && w.nodes[i].cancelled && Exec(env, w, acts).Some?
    ensures Receipts(Exec(env, w, acts).value.log, i) <= Receipts(w.log, i) + Due(w.nodes[i])
    decreases |acts|
  {
    if acts != [] {
      CancelledStep(env, w, acts[0], i);
      hide Do;
      hide Enabled;
      hide Receipts;
      CancelledRun(env, Do(env, w, acts[0]), acts[1..], i);
    }
  }

  // After a session has signalled agreement it receives at most one more message
  // in any continuation.
  lemma QuietAfterSignal(env: Env, w: World, acts: seq<Action>, i: Sid)
    requires Reachable(env, w) && i in w.nodes && AgreedIn(w.log, i) && Exec(env, w, acts).Some?
    ensures Receipts(Exec(env, w, acts).value.log, i) <= Receipts(w.log, i) + 1
  {
    hide Receipts;
    ReachableInv(env, w);
    assert NodeInv(env, w.log, i, w.nodes[i]);
    var m :| Signalled(i, m) in w.log;
    CancelledRun(env, w, acts, i);
  }

  // The session is cancelled and no handler is signalling.
  ghost predicate Closing(s: Node)
  {
    s.cancelled && forall k :: 0 <= k < |s.handlers| ==> s.handlers[k].pc != Sending
  }

  lemma ClosingAdvance(env: Env, i: Sid, s: Node, k: nat)
    requires CanAdvance(env, s, k) && Closing(s)
    ensures var t := AdvanceHandler(env, i, s, k).node; Closing(t) && t.signals == s.signals
  {
    if Counts(env, s.handlers[k]) { PrepareFields(env, i, s, k); } else { OtherFields(env, i, s, k); }
    assert Counts(env, s.handlers[k]) ==> AdvanceHandler(env, i, s, k) == AdvancePrepare(env, i, s, k);
    hide AdvanceHandler;
    hide AdvancePrepare;
    hide OnPrepare;
    hide Witnessed;
  }

  lemma ClosingStep(env: Env, w: World, a: Action, i: Sid)
    requires i in w.nodes && Closing(w.nodes[i]) && Enabled(env, w, a)
    ensures var w' := Do(env, w, a);
      i in w'.nodes && Closing(w'.nodes[i]) && w'.nodes[i].signals == w.nodes[i].signals
  {
    if a.Advance? && a.i == i { ClosingAdvance(env, i, w.nodes[i], a.k); }
    hide AdvanceHandler;
    hide LeaderOf;
  }

  lemma {:induction false} ClosingRun(env: Env, w: World, acts: seq<Action>, i: Sid)
    requires i in w.nodes && Closing(w.nodes[i]) && Exec(env, w, acts).Some?
    ensures var w' := Exec(env, w, acts).value; i in w'.nodes && w'.nodes[i].signals == w.nodes[i].signals
    decreases |acts|
  {
    if acts != [] {
      ClosingStep(env, w, acts[0], i);
      hide Do;
      hide Enabled;
      hide Closing;
      ClosingRun(env, Do(env, w, acts[0]), acts[1..], i);
    }
  }

  // Cancelling a session that is not just signalling ends it: no continuation
  // signals agreement there, and it receives at most one more message.
  lemma CancelEnds(env: Env, w: World, acts: seq<Action>, i: Sid)
    requires i in w.nodes && forall k :: 0 <= k < |w.nodes[i].handlers| ==> w.nodes[i].handlers[k].pc != Sending
    requires Exec(env, w, [Cancel(i)] + acts).Some?
    ensures var w' := Exec(env, w, [Cancel(i)] + acts).value;
      && i in w'.nodes && w'.nodes[i].signals == w.nodes[i].signals
      && Receipts(w'.log, i) <= Receipts(w.log, i) + 1
  {
    hide Receipts;
    var w1 := Do(env, w, Cancel(i));
    assert ([Cancel(i)] + acts)[1..] == acts;
    assert w1.log == w.log && w1.nodes[i].signals == w.nodes[i].signals && Closing(w1.nodes[i]);
    ClosingRun(env, w1, acts, i);
    CancelledRun(env, w1, acts, i);
  }
}
