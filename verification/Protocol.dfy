// All nodes of one topic together: sessions with concurrent message handlers,
// a mutex each, and a network that may lose, repeat, reorder and inject
// messages (consensus/session/tlc.go, node/bridge/node.go).
module Protocol {
  import opened Options
  import opened Bits
  import opened Bls
  import opened Tlc
  import Leader

  // `mk(i)` is the membership key member i got from its setup, `peer(i)` its
  // peer identity; the members in `corrupt` may sign anything at any time.
  datatype Env = Env(
    ep: Epoch, mk: nat -> int, topic: string, corrupt: set<nat>, peer: nat -> string, hash: string -> string)

  // Where a message handler (one goroutine per message) stands.  A Sending
  // handler holds the mutex and blocks on the agreement channel; a Leaked one
  // has returned while holding the mutex.
  datatype Pc = Spawned | Verified | Sending | Finished | Leaked
  datatype Handler = Handler(msg: Message, pc: Pc)

  // The goroutine that waits for agreement in StartProtocolByOracleRequest.
  datatype Waiter = Waiting | Agreed | Acted | GaveUp

  datatype Node = Node(
    view: seq<string>,       // topic participants at session creation, own identity last
    leader: string,          // elected at session creation
    acks: Acks,
    lock: Option<nat>,       // the handler holding the mutex
    cancelled: bool,
    receiving: bool,         // the receive loop waits for a message
    waiter: Waiter,
    handlers: seq<Handler>,
    crashed: bool,
    outs: seq<Message>,      // Prepared messages broadcast
    signals: nat)            // agreements signalled

  // A session of a member; a member may open several for one topic.
  datatype Sid = Sid(member: nat, attempt: nat)

  datatype Event =
    | Received(node: Sid, msg: Message)
    | Signed(member: nat, body: string)
    | Signalled(node: Sid, msg: Message)
    | Called(node: Sid)

  datatype World = World(nodes: map<Sid, Node>, pool: set<Message>, log: seq<Event>)

  datatype Action =
    | Create(i: Sid, listed: seq<string>, known: nat)
    | Start(i: Sid)
    | Receive(i: Sid, m: Message)
    | Undecodable(i: Sid)
    | Advance(i: Sid, k: nat)
    | Decide(i: Sid)
    | GiveUp(i: Sid)
    | Cancel(i: Sid)
    | Inject(m: Message)

  const MIN_CONSENSUS_NODES: nat := 5

  // Both thresholds of NewSession: the least majority of the participants.
  function Threshold(s: Node): (t: nat)
    ensures 2 * (t - 1) <= |s.view| < 2 * t
  {
    |s.view| / 2 + 1
  }

  // Enough participants, the node itself included: more than the minimum and
  // more than half of the peers known at the rendezvous, plus one.
  predicate Adequate(listed: seq<string>, known: nat)
    ensures Adequate(listed, known) <==> |listed| >= 5 && 2 * (|listed| + 1) >= known + 3
  {
    |listed| + 1 > MIN_CONSENSUS_NODES && |listed| + 1 > known / 2 + 1
  }

  // RelayerLeaderNode with its error discarded.
  function Elected(hash: string -> string, topic: string, view: seq<string>): string
    requires view != []
  {
    if topic == [] then "" else Leader.Leader(hash, topic, view)
  }

  function LeaderOf(env: Env, view: seq<string>): string
    requires view != []
  {
    Elected(env.hash, env.topic, view)
  }

  function AnnounceOf(env: Env, j: nat): Message
  {
    Message(j, Announce, env.topic, ZERO_SIGNATURE, 0, 0)
  }

  // ---- One handler step ----

  datatype Effect = Effect(node: Node, sent: seq<Message>, events: seq<Event>)

  predicate CanAdvance(env: Env, s: Node, k: nat)
  {
    && !s.crashed
    && k < |s.handlers|
    && match s.handlers[k].pc
       case Spawned => s.handlers[k].msg.body == env.topic && s.handlers[k].msg.kind == Prepare ==> s.lock == None
       case Verified => s.lock == None
       case Sending => s.waiter == Waiting
       case Finished => false
       case Leaked => false
  }

  function At(s: Node, k: nat, pc: Pc): Node
    requires k < |s.handlers|
  {
    s.(handlers := s.handlers[k := Handler(s.handlers[k].msg, pc)])
  }

  function AdvancePrepare(env: Env, i: Sid, s: Node, k: nat): Effect
    requires k < |s.handlers|
  {
    match OnPrepare(env.ep, i.member, Threshold(s), s.acks, s.handlers[k].msg)
    case Ignored => Effect(At(s, k, Finished), [], [])
    case Crashed => Effect(s.(crashed := true), [], [])
    case BadAck => Effect(At(s, k, Leaked).(lock := Some(k)), [], [])
    case Counted(a) => Effect(At(s, k, Finished).(acks := a), [], [])
    case Quorum(a, m) => Effect(At(s, k, Finished).(acks := a, outs := s.outs + [m]), [m], [])
    case SelfCheckFailed(a) => Effect(At(s, k, Leaked).(acks := a, lock := Some(k)), [], [])
  }

  function AdvanceSpawned(env: Env, i: Sid, s: Node, k: nat): Effect
    requires k < |s.handlers|
  {
    var m := s.handlers[k].msg;
    if m.body != env.topic then Effect(At(s, k, Finished), [], [])
    else match m.kind
      case Prepared =>
        Effect(At(s, k, if Witnessed(env.ep, Threshold(s), m) then Verified else Finished), [], [])
      case Other(_) => Effect(At(s, k, Finished), [], [])
      case Prepare => AdvancePrepare(env, i, s, k)
      case Announce =>
        Effect(At(s, k, Finished), [AckOf(env.ep, i.member, m.body, env.mk(i.member))], [Signed(i.member, m.body)])
  }

  function AdvanceHandler(env: Env, i: Sid, s: Node, k: nat): Effect
    requires CanAdvance(env, s, k)
  {
    match s.handlers[k].pc
    case Spawned => AdvanceSpawned(env, i, s, k)
    case Verified =>
      if s.cancelled then Effect(At(s, k, Finished), [], [])
      else Effect(At(s, k, Sending).(lock := Some(k)), [], [])
    case Sending =>
      Effect(At(s, k, Finished).(lock := None, cancelled := true, waiter := Agreed, signals := s.signals + 1),
             [], [Signalled(i, s.handlers[k].msg)])
  }

  // ---- One step of the world ----

  // Every contribution in the signature was made by a corrupt member or is logged.
  ghost predicate Backed(env: Env, log: seq<Event>, sig: Signature)
  {
    forall c :: c in sig.signers ==> c.0 in env.corrupt || Signed(c.0, c.1) in log
  }

  ghost predicate Enabled(env: Env, w: World, a: Action)
  {
    match a
    case Create(i, listed, known) =>
      i.member < env.ep.n && i !in w.nodes && Adequate(listed, known)
    case Start(i) => i in w.nodes && !w.nodes[i].crashed
    case Receive(i, m) => i in w.nodes && !w.nodes[i].crashed && w.nodes[i].receiving && m in w.pool
    case Undecodable(i) => i in w.nodes && !w.nodes[i].crashed && w.nodes[i].receiving
    case Advance(i, k) => i in w.nodes && CanAdvance(env, w.nodes[i], k)
    case Decide(i) => i in w.nodes && !w.nodes[i].crashed && w.nodes[i].waiter == Agreed
    case GiveUp(i) => i in w.nodes && w.nodes[i].waiter == Waiting
    case Cancel(i) => i in w.nodes
    case Inject(m) => Backed(env, w.log, m.sig)
  }

  // The receive loop starts a handler and goes on unless the session was
  // cancelled; a message may still come in while it is being cancelled.
  function Taken(s: Node, m: Message): Node
  {
    s.(handlers := s.handlers + [Handler(m, Spawned)], receiving := !s.cancelled)
  }

  function EffectOf(env: Env, w: World, a: Action): Effect
    requires !a.Inject?
    requires a.Create? || a.i in w.nodes
    requires a.Advance? ==> CanAdvance(env, w.nodes[a.i], a.k)
  {
    match a
    case Create(i, listed, known) =>
      var view := listed + [env.peer(i.member)];
      Effect(Node(view, LeaderOf(env, view), NO_ACKS, None, false, true, Waiting, [], false, [], 0), [], [])
    case Start(i) => Effect(w.nodes[i], [AnnounceOf(env, i.member)], [])
    case Receive(i, m) =>
      Effect(Taken(w.nodes[i], m), [], [Received(i, m)])
    case Undecodable(i) => Effect(w.nodes[i].(crashed := true), [], [])
    case Advance(i, k) => AdvanceHandler(env, i, w.nodes[i], k)
    case Decide(i) =>
      Effect(w.nodes[i].(waiter := Acted), [],
             if w.nodes[i].leader == env.peer(i.member) then [Called(i)] else [])
    case GiveUp(i) => Effect(w.nodes[i].(waiter := GaveUp), [], [])
    case Cancel(i) => Effect(w.nodes[i].(cancelled := true), [], [])
  }

  ghost function Do(env: Env, w: World, a: Action): World
    requires Enabled(env, w, a)
  {
    if a.Inject? then w.(pool := w.pool + {a.m})
    else
      var e := EffectOf(env, w, a);
      World(w.nodes[a.i := e.node], w.pool + (set m | m in e.sent), w.log + e.events)
  }

  ghost function Exec(env: Env, w: World, acts: seq<Action>): Option<World>
    decreases |acts|
  {
    if acts == [] then Some(w)
    else if Enabled(env, w, acts[0]) then Exec(env, Do(env, w, acts[0]), acts[1..])
    else None
  }

  const INIT := World(map[], {}, [])

  // ---- Opening a session ----

  // One look at the topic: its peers and the number known at the rendezvous.
  datatype Poll = Poll(listed: seq<string>, known: nat)

  datatype Opening = Opening(view: seq<string>, threshold: nat, leader: string)

  // The polling loop of NewSession, over the polls made before the deadline.
  method NewSession(hash: string -> string, topic: string, self: string, polls: seq<Poll>) returns (s: Option<Opening>)
    ensures s.None? <==> forall k :: 0 <= k < |polls| ==> !Adequate(polls[k].listed, polls[k].known)
    ensures s.Some? ==> exists k ::
      && 0 <= k < |polls| && Adequate(polls[k].listed, polls[k].known) && s.value.view == polls[k].listed + [self]
      && forall j :: 0 <= j < k ==> !Adequate(polls[j].listed, polls[j].known)
    ensures s.Some? ==> 2 * (s.value.threshold - 1) <= |s.value.view| < 2 * s.value.threshold
    ensures s.Some? ==> s.value.view != [] && s.value.leader == Elected(hash, topic, s.value.view)
    ensures s.Some? && topic == [] ==> s.value.leader == ""
    ensures s.Some? && topic != [] ==> s.value.leader in s.value.view && forall p :: p in s.value.view ==>
      Leader.LexLeq(hash(topic + s.value.leader), hash(topic + p))
  {
    for k := 0 to |polls|
      invariant forall j :: 0 <= j < k ==> !Adequate(polls[j].listed, polls[j].known)
    {
      if Adequate(polls[k].listed, polls[k].known) {
        var view := polls[k].listed + [self];
        var leader := Leader.RelayerLeaderNode(hash, topic, view);
        return Some(Opening(view, |view| / 2 + 1, if leader.Some? then leader.value else ""));
      }
    }
    s := None;
  }
}
