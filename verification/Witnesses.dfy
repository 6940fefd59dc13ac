// Runs that show what the conditions of the safety theorems are needed for:
// sessions do get stuck, and differing views do lead to two calls.
module Witnesses {
  import opened Options
  import opened Bits
  import opened Bls
  import opened Tlc
  import opened Protocol
  import opened Agreement
  import opened Safety
  import opened Progress
  import Leader

  // ---- Stuck sessions ----

  // An ack in the name of member j that nobody signed.
  function Unsigned(env: Env, j: nat, value: int): Message
  {
    Message(j, Prepare, env.topic, Signature(value, {}), 0, 0)
  }

  lemma UnsignedFails(env: Env, j: nat, value: int)
    ensures !AckVerified(env.ep, Unsigned(env, j, value))
  {
    OnesComplete(Single(j), j);
  }

  // In every environment, whoever sends it: one unsigned ack sticks a new session.
  lemma UnsignedAckSticks(env: Env, i: Sid, listed: seq<string>, j: nat, value: int)
    returns (acts: seq<Action>, w: World)
    requires i.member < env.ep.n && j < env.ep.n && |listed| >= MIN_CONSENSUS_NODES
    ensures Exec(env, INIT, acts) == Some(w) && Stuck(w, i)
  {
    hide AckVerified;
    hide LeaderOf;
    var m := Unsigned(env, j, value);
    var w1 := Do(env, INIT, Create(i, listed, 0));
    var w2 := Do(env, w1, Inject(m));
    UnsignedFails(env, j, value);
    BitOfZero(j);
    var two, e := Handle(env, w2, i, m);
    ExecOne(env, INIT, Create(i, listed, 0));
    ExecOne(env, w1, Inject(m));
    ExecConcat(env, INIT, [Create(i, listed, 0)], [Inject(m)]);
    ExecConcat(env, INIT, [Create(i, listed, 0)] + [Inject(m)], two);
    acts := [Create(i, listed, 0)] + [Inject(m)] + two;
    w := Exec(env, w2, two).value;
    assert e.node.handlers[0].pc == Leaked;
  }

  // An idle session gives up and then verifies a Prepared.
  lemma GivesUpAndSticks(env: Env, w0: World, i: Sid, m: Message) returns (acts: seq<Action>, w: World)
    requires i in w0.nodes && m in w0.pool && m.kind == Prepared && m.body == env.topic
    requires Idle(env, w0.nodes[i], w0.nodes[i].view, w0.nodes[i].acks, w0.nodes[i].outs)
    requires Witnessed(env.ep, Threshold(w0.nodes[i]), m)
    ensures Exec(env, w0, acts) == Some(w) && Stuck(w, i)
  {
    hide Witnessed;
    hide LeaderOf;
    var w1 := Do(env, w0, GiveUp(i));
    ExecOne(env, w0, GiveUp(i));
    var k := |w1.nodes[i].handlers|;
    var two, e := Handle(env, w1, i, m);
    var w2 := Exec(env, w1, two).value;
    ExecConcat(env, w0, [GiveUp(i)], two);
    assert w2.nodes[i].handlers[k] == Handler(m, Verified);
    w := Do(env, w2, Advance(i, k));
    ExecOne(env, w2, Advance(i, k));
    acts := [GiveUp(i)] + two + [Advance(i, k)];
    ExecConcat(env, w0, [GiveUp(i)] + two, [Advance(i, k)]);
  }

  // In every epoch with correct keys: a Prepared that is verified after the
  // waiter has given up sticks any session that could agree.
  lemma LatePreparedSticks(env: Env, view: Sid -> seq<string>, i: Sid) returns (acts: seq<Action>, w: World)
    requires Views(env, view) && i.member < env.ep.n && KeysCorrect(env) && |view(i)| / 2 + 1 <= env.ep.n
    ensures Exec(env, INIT, acts) == Some(w) && Stuck(w, i)
  {
    hide Witnessed;
    hide LeaderOf;
    hide KeysCorrect;
    var first, w1 := AllAnswered(env, view, Sessions(env.ep.n, [i]));
    var second, w2, m := QuorumGathered(env, w1, i);
    ExecConcat(env, INIT, first, second);
    var third;
    third, w := GivesUpAndSticks(env, w2, i, m);
    acts := first + second + third;
    ExecConcat(env, INIT, first + second, third);
  }

  // ---- When agreement can be reached ----

  // Some run opens session i with the given view and signals agreement there.
  ghost predicate CanAgree(env: Env, view: Sid -> seq<string>, i: Sid)
  {
    exists w :: Reachable(env, w) && i in w.nodes && w.nodes[i].view == view(i) && AgreedIn(w.log, i)
  }

  // A session can agree exactly when its threshold, taken from its own view, is
  // at most the number of members.
  lemma AgreementReachableIff(env: Env, view: Sid -> seq<string>, i: Sid)
    requires Views(env, view) && i.member < env.ep.n && KeysCorrect(env)
    requires forall c :: c in env.corrupt ==> c < env.ep.n
    ensures CanAgree(env, view, i) <==> |view(i)| / 2 + 1 <= env.ep.n
  {
    hide LeaderOf;
    if |view(i)| / 2 + 1 <= env.ep.n {
      var acts, w := AgreementIsReachable(env, view, i);
      assert Reachable(env, w) && AgreedIn(w.log, i);
    } else if CanAgree(env, view, i) {
      var w :| Reachable(env, w) && i in w.nodes && w.nodes[i].view == view(i) && AgreedIn(w.log, i);
      AgreedFits(env, w, i);
    }
  }

  // ---- Two calls ----

  ghost predicate HasViews(w: World, view: Sid -> seq<string>)
  {
    forall i :: i in w.nodes ==> w.nodes[i].view == view(i)
  }

  // The session's own view elects its member, with a threshold that can be met.
  ghost predicate Electable(env: Env, view: Sid -> seq<string>, i: Sid)
  {
    && i.member < env.ep.n && view(i) != [] && LeaderOf(env, view(i)) == env.peer(i.member)
    && |view(i)| / 2 + 1 <= env.ep.n
  }

  ghost predicate CallsTwice(w: World)
  {
    exists t1, t2 :: 0 <= t1 < t2 < |w.log| && w.log[t1].Called? && w.log[t2].Called?
  }

  // Session i makes the call while j has done nothing yet and all acks are there.
  lemma FirstCalls(env: Env, view: Sid -> seq<string>, i: Sid, j: Sid) returns (acts: seq<Action>, w: World)
    requires Views(env, view) && KeysCorrect(env) && Electable(env, view, i) && j.member < env.ep.n && i != j
    ensures Exec(env, INIT, acts) == Some(w) && HasViews(w, view) && Called(i) in w.log && AcksIn(env, w, env.ep.n)
    ensures j in w.nodes && Idle(env, w.nodes[j], view(j), NO_ACKS, [])
    ensures forall k :: k in w.nodes ==> k == i || k == j || (k.member < env.ep.n && k.attempt == 0)
  {
    hide LeaderOf;
    hide KeysCorrect;
    var first, w1 := AllAnswered(env, view, Sessions(env.ep.n, [i, j]));
    var second;
    second, w := AgreeAt(env, w1, i);
    acts := first + second;
    ExecConcat(env, INIT, first, second);
    hide Exec;
    assert w.nodes[j] == w1.nodes[j];
    hide AckOf;
  }

  // Two sessions that each elect their own member can both make the call.
  lemma TwoElectedCallTwice(env: Env, view: Sid -> seq<string>, i: Sid, j: Sid) returns (w: World)
    requires Views(env, view) && KeysCorrect(env)
    requires Electable(env, view, i) && Electable(env, view, j) && i != j
    ensures Reachable(env, w) && HasViews(w, view) && CallsTwice(w)
    ensures forall k :: k in w.nodes ==> k == i || k == j || (k.member < env.ep.n && k.attempt == 0)
  {
    hide LeaderOf;
    hide KeysCorrect;
    hide AcksIn;
    var first, w1 := FirstCalls(env, view, i, j);
    var second;
    second, w := AgreeAt(env, w1, j);
    ExecConcat(env, INIT, first, second);
    assert Reachable(env, w);
    hide Exec;
    hide Reachable;
    var x :| 0 <= x < |w1.log| && w1.log[x] == Called(i);
    var y :| 0 <= y < |w.log| && w.log[y] == Called(j);
    assert w.log[x] == Called(i);
    BothCalled(w, x, y);
    hide CallsTwice;
  }

  lemma BothCalled(w: World, x: nat, y: nat)
    requires x < |w.log| && y < |w.log| && x != y && w.log[x].Called? && w.log[y].Called?
    ensures CallsTwice(w)
  {
    var a, b := if x < y then x else y, if x < y then y else x;
    assert w.log[a].Called? && w.log[b].Called?;
  }

  // Two calls in a run come from two such sessions.
  lemma CallersAreElected(env: Env, view: Sid -> seq<string>, w: World) returns (i: Sid, j: Sid)
    requires Reachable(env, w) && HasViews(w, view) && CallsTwice(w)
    requires forall c :: c in env.corrupt ==> c < env.ep.n
    ensures Electable(env, view, i) && Electable(env, view, j) && i != j && i in w.nodes && j in w.nodes
  {
    hide LeaderOf;
    hide Reachable;
    var t1, t2 :| 0 <= t1 < t2 < |w.log| && w.log[t1].Called? && w.log[t2].Called?;
    CalledByElected(env, w, t1);
    CalledByElected(env, w, t2);
    i, j := w.log[t1].node, w.log[t2].node;
    AgreedFits(env, w, i);
    AgreedFits(env, w, j);
    assert w.log[t1] == Called(i) && w.log[t1] != Called(j);
  }

  // For any views and any sessions that may be opened, with at least one for
  // each member: no run makes two calls exactly when at most one of these
  // sessions has a view that elects its own member and a threshold that can be
  // met.
  lemma OneCallIff(env: Env, view: Sid -> seq<string>, ids: set<Sid>)
    requires Views(env, view) && KeysCorrect(env) && forall c :: c in env.corrupt ==> c < env.ep.n
    requires forall j: nat :: j < env.ep.n ==> Sid(j, 0) in ids
    ensures (forall w :: Reachable(env, w) && HasViews(w, view) && w.nodes.Keys <= ids ==> !CallsTwice(w))
       <==> (forall i, j :: i in ids && j in ids && Electable(env, view, i) && Electable(env, view, j) ==> i == j)
  {
    hide LeaderOf;
    hide Reachable;
    hide KeysCorrect;
    hide Electable;
    hide CallsTwice;
    if i, j :| i in ids && j in ids && Electable(env, view, i) && Electable(env, view, j) && i != j {
      var w := TwoElectedCallTwice(env, view, i, j);
      forall k | k in w.nodes
        ensures k in ids
      {
        assert k == i || k == j || k == Sid(k.member, 0);
      }
    } else {
      forall w | Reachable(env, w) && HasViews(w, view) && w.nodes.Keys <= ids
        ensures !CallsTwice(w)
      {
        if CallsTwice(w) { var i, j := CallersAreElected(env, view, w); }
      }
    }
  }

  // ---- Seven members of whom two have not seen each other ----

  function Letter(j: nat): string
  {
    if j == 0 then "a" else if j == 1 then "b" else if j == 2 then "c" else if j == 3 then "d"
    else if j == 4 then "e" else if j == 5 then "f" else "g"
  }

  // The hash is the identity, so no two peers share one.
  function Seven(): Env
  {
    var ep := Epoch(7, (j: nat) => j + 1, (_: nat) => 1, (j: nat) => j + 2, (_: string) => 3);
    Env(ep, (j: nat) => EpochKey(ep) * ep.g(j), "t", {}, (j: nat) => Letter(j), (s: string) => s)
  }

  // Six different members each, the own one last: only member 1 lists member 1,
  // and member 1 does not list member 0.
  function SixOfSeven(i: Sid): seq<string>
  {
    match i.member
    case 0 => ["c", "d", "e", "f", "g", "a"]
    case 1 => ["c", "d", "e", "f", "g", "b"]
    case 2 => ["a", "d", "e", "f", "g", "c"]
    case 3 => ["a", "c", "e", "f", "g", "d"]
    case 4 => ["a", "c", "d", "f", "g", "e"]
    case 5 => ["a", "c", "d", "e", "g", "f"]
    case _ => ["a", "c", "d", "e", "f", "g"]
  }

  // A peer that is least itself is the leader when the hash is the identity.
  lemma LeastIsLeader(topic: string, pids: seq<string>, p: string)
    requires topic != [] && p in pids && forall q :: q in pids ==> Leader.Leq(topic + p, topic + q)
    ensures Leader.Leader((s: string) => s, topic, pids) == p
  {
    var hash := (s: string) => s;
    var l := Leader.Leader(hash, topic, pids);
    Leader.LeaderIsLeast(hash, topic, pids);
    Leader.LeqAntisymmetric(hash(topic + l), hash(topic + p));
    assert (topic + l)[|topic|..] == l && (topic + p)[|topic|..] == p;
  }

  lemma SevenViews()
    ensures Views(Seven(), SixOfSeven) && KeysCorrect(Seven())
    ensures forall i: Sid :: |SixOfSeven(i)| == 6
    ensures forall i: Sid, k, l :: 0 <= k < l < 6 ==> SixOfSeven(i)[k] != SixOfSeven(i)[l]
  {
    hide EpochKey;
  }

  lemma FirstElected()
    ensures Electable(Seven(), SixOfSeven, Sid(0, 0))
  {
    hide EpochKey;
    var view := SixOfSeven(Sid(0, 0));
    assert forall q :: q in view ==> Leader.Leq("t" + "a", "t" + q);
    LeastIsLeader("t", view, "a");
  }

  lemma SecondElected()
    ensures Electable(Seven(), SixOfSeven, Sid(1, 0))
  {
    hide EpochKey;
    var view := SixOfSeven(Sid(1, 0));
    assert forall q :: q in view ==> Leader.Leq("t" + "b", "t" + q);
    LeastIsLeader("t", view, "b");
  }

  // Members 0 and 1 both elect themselves, so a run of the seven calls twice.
  lemma TwoLeadersOfSeven() returns (w: World)
    ensures Reachable(Seven(), w) && HasViews(w, SixOfSeven) && CallsTwice(w)
  {
    hide Seven;
    hide SixOfSeven;
    hide Electable;
    hide Reachable;
    hide HasViews;
    SevenViews();
    FirstElected();
    SecondElected();
    w := TwoElectedCallTwice(Seven(), SixOfSeven, Sid(0, 0), Sid(1, 0));
  }
}
