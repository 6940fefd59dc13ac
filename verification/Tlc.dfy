// One node's session of the Announce / Prepare / Prepared protocol
// (consensus/session/tlc.go): verification of acks and of threshold
// witnesses, and the critical section that counts acks.
module Tlc {
  import opened Bits
  import opened Bls
  import Setup

  // Another type code is carried along and ignored.
  datatype Kind = Announce | Prepare | Prepared | Other(code: int)

  datatype Message = Message(source: int, kind: Kind, body: string, sig: Signature, mask: nat, pk: int)

  // The four session fields that the mutex protects.
  datatype Acks = Acks(count: nat, mask: nat, sig: Signature, pk: int)

  const NO_ACKS := Acks(0, 0, ZERO_SIGNATURE, 0)

  // verifyThresholdWitnesses
  predicate Witnessed(ep: Epoch, threshold: nat, m: Message)
  {
    BitCount(m.mask) >= threshold && VerifyMultisig(ep, m.pk, m.body, m.mask, m.sig)
  }

  // verifyAckSignature; the caller has a source inside PublicKeys.
  predicate AckVerified(ep: Epoch, m: Message)
    requires m.source >= 0
  {
    VerifyMultisig(ep, ep.sk(m.source), m.body, Single(m.source), m.sig)
  }

  // How the critical section of a Prepare handler ends.  In the cases BadAck
  // and SelfCheckFailed the source returns without unlocking; Crashed is an
  // index outside PublicKeys (or a negative bit index).
  datatype Outcome =
    | Ignored
    | Crashed
    | BadAck
    | Counted(acks: Acks)
    | Quorum(acks: Acks, out: Message)
    | SelfCheckFailed(acks: Acks)

  function Counting(ep: Epoch, s: Acks, m: Message): Acks
    requires m.source >= 0
  {
    SetBitSign(s.mask, m.source, 1);
    Acks(s.count + 1, SetBit(s.mask, m.source, 1), Aggregate(s.sig, m.sig), s.pk + ep.sk(m.source))
  }

  function OnPrepare(ep: Epoch, id: nat, threshold: nat, s: Acks, m: Message): Outcome
  {
    if s.count >= threshold then Ignored
    else if m.source < 0 then Crashed
    else if Bit(s.mask, m.source) != 0 then Ignored
    else if m.source >= ep.n then Crashed
    else if !AckVerified(ep, m) then BadAck
    else
      var s' := Counting(ep, s, m);
      if s'.count >= threshold then
        var out := Message(id, Prepared, m.body, s'.sig, s'.mask, s'.pk);
        if Witnessed(ep, threshold, out) then Quorum(s', out) else SelfCheckFailed(s')
      else Counted(s')
  }

  // The ack value that verification accepts from member j.
  function AckValue(ep: Epoch, body: string): nat -> int
  {
    (j: nat) => ep.sk(j) * ep.h(body) + EpochKey(ep) * ep.g(j)
  }

  // The session invariant.
  ghost predicate AcksInv(ep: Epoch, body: string, threshold: nat, s: Acks)
  {
    && s.count == BitCount(s.mask) <= threshold
    && s.pk == SumOnes(ep.sk, s.mask, 0)
    && s.sig.value == SumOnes(AckValue(ep, body), s.mask, 0)
    && VerifyMultisig(ep, s.pk, body, s.mask, s.sig)
    && forall i: nat :: Bit(s.mask, i) == 1 ==> i < ep.n
  }

  lemma NoAcksInv(ep: Epoch, body: string, threshold: nat)
    ensures AcksInv(ep, body, threshold, NO_ACKS)
  {
    forall i: nat
      ensures Bit(0, i) == 0
    {
      BitOfZero(i);
    }
  }

  // Counting one verified ack of a new source keeps the invariant.
  lemma CountingKeepsInv(ep: Epoch, body: string, threshold: nat, s: Acks, m: Message)
    requires AcksInv(ep, body, threshold, s) && s.count < threshold
    requires 0 <= m.source < ep.n && Bit(s.mask, m.source) == 0 && m.body == body && AckVerified(ep, m)
    ensures AcksInv(ep, body, threshold, Counting(ep, s, m))
  {
    var i: nat := m.source;
    var s' := Counting(ep, s, m);
    AggregateVerifies(ep, s.pk, body, s.mask, s.sig, i, m.sig);
    SetFreshBit(ep.sk, s.mask, i, 0);
    SetFreshBit(AckValue(ep, body), s.mask, i, 0);
    SingleSum(ep.g, i);
    forall j: nat | Bit(s'.mask, j) == 1
      ensures j < ep.n
    {
      SetBitWrites(s.mask, i, 1, j);
    }
  }

  // Every outcome of the critical section keeps the invariant; the self-check
  // before broadcasting cannot fail; the broadcast carries exactly `threshold`
  // members and happens exactly when the threshold is reached.
  lemma PrepareStep(ep: Epoch, id: nat, body: string, threshold: nat, s: Acks, m: Message)
    requires AcksInv(ep, body, threshold, s) && m.body == body
    ensures var o := OnPrepare(ep, id, threshold, s, m);
      && !o.SelfCheckFailed?
      && (o.Counted? ==> AcksInv(ep, body, threshold, o.acks) && o.acks.count < threshold)
      && (o.Quorum? ==>
          && AcksInv(ep, body, threshold, o.acks) && o.acks.count == threshold
          && o.out.kind == Prepared && o.out.body == body && o.out.mask == o.acks.mask
          && o.out.sig == o.acks.sig && BitCount(o.out.mask) == threshold && Witnessed(ep, threshold, o.out))
      && (o.Counted? || o.Quorum? ==>
          && m.source >= 0 && (m.source as nat) !in Ones(s.mask)
          && Ones(o.acks.mask) == Ones(s.mask) + {m.source as nat})
  {
    var o := OnPrepare(ep, id, threshold, s, m);
    if o.Counted? || o.Quorum? || o.SelfCheckFailed? {
      var i: nat := m.source;
      BitIsBinary(s.mask, i);
      CountingKeepsInv(ep, body, threshold, s, m);
      forall j: nat
        ensures j in Ones(Counting(ep, s, m).mask) <==> j in Ones(s.mask) || j == i
      {
        OnesComplete(Counting(ep, s, m).mask, j);
        OnesComplete(s.mask, j);
        SetBitWrites(s.mask, i, 1, j);
      }
    }
  }

  // Which outcome the critical section has: a new member's verified ack counts
  // and the one that fills the threshold is broadcast; a known sender or a full
  // session is ignored; only a sender outside the epoch crashes.
  lemma PrepareOutcome(ep: Epoch, id: nat, body: string, threshold: nat, s: Acks, m: Message)
    requires AcksInv(ep, body, threshold, s) && m.body == body
    ensures var o := OnPrepare(ep, id, threshold, s, m);
      var known := m.source >= 0 && (m.source as nat) in Ones(s.mask);
      var inside := 0 <= m.source < ep.n;
      && (o.Ignored? <==> s.count >= threshold || known)
      && (o.Crashed? <==> s.count < threshold && !inside)
      && (o.BadAck? <==> s.count < threshold && inside && !known && !AckVerified(ep, m))
      && (o.Counted? <==> s.count + 1 < threshold && inside && !known && AckVerified(ep, m))
      && (o.Quorum? <==> s.count + 1 == threshold && inside && !known && AckVerified(ep, m))
  {
    PrepareStep(ep, id, body, threshold, s, m);
    if m.source >= 0 {
      OnesComplete(s.mask, m.source);
      BitIsBinary(s.mask, m.source);
    }
    hide AckVerified;
    hide Witnessed;
    hide VerifyMultisig;
    hide Counting;
  }

  // ---- The session object ----

  class Session {
    const ep: Epoch
    const id: nat
    const thresholdAck: nat
    var acks: nat
    var sigMask: nat
    var partSignature: Signature
    var partPublicKey: int

    ghost function State(): Acks
      reads this
    {
      Acks(acks, sigMask, partSignature, partPublicKey)
    }

    constructor (ep: Epoch, id: nat, thresholdAck: nat)
      ensures this.ep == ep && this.id == id && this.thresholdAck == thresholdAck
      ensures State() == NO_ACKS
    {
      this.ep, this.id, this.thresholdAck := ep, id, thresholdAck;
      acks, sigMask, partSignature, partPublicKey := 0, 0, ZERO_SIGNATURE, 0;
    }

    method VerifyThresholdWitnesses(msg: Message) returns (ok: bool)
      ensures ok <==> |Ones(msg.mask)| >= thresholdAck && VerifyMultisig(ep, msg.pk, msg.body, msg.mask, msg.sig)
      ensures ok <==> Witnessed(ep, thresholdAck, msg)
    {
      var pop := Popcount(msg.mask);
      if pop < thresholdAck { return false; }
      ok := VerifyMultisig(ep, msg.pk, msg.body, msg.mask, msg.sig);
    }

    // The Prepare case of WaitForProtocolMsg, from Lock to the end.  `unlocked`
    // tells whether the mutex was released.
    method HandlePrepare(msg: Message) returns (unlocked: bool, crashed: bool, out: seq<Message>)
      modifies this
      ensures match OnPrepare(ep, id, thresholdAck, old(State()), msg)
        case Ignored => State() == old(State()) && unlocked && !crashed && out == []
        case Crashed => State() == old(State()) && !unlocked && crashed && out == []
        case BadAck => State() == old(State()) && !unlocked && !crashed && out == []
        case Counted(s) => State() == s && unlocked && !crashed && out == []
        case Quorum(s, m) => State() == s && unlocked && !crashed && out == [m]
        case SelfCheckFailed(s) => State() == s && !unlocked && !crashed && out == []
    {
      unlocked, crashed, out := false, false, [];
      if acks >= thresholdAck { return true, false, []; }
      if msg.source < 0 { return false, true, []; }
      if Bit(sigMask, msg.source) != 0 { return true, false, []; }
      if msg.source >= ep.n { return false, true, []; }
      if !AckVerified(ep, msg) { return; }
      SetBitSign(sigMask, msg.source, 1);
      sigMask := SetBit(sigMask, msg.source, 1);
      acks := acks + 1;
      partSignature := Aggregate(partSignature, msg.sig);
      partPublicKey := partPublicKey + ep.sk(msg.source);
      if acks >= thresholdAck {
        var outmsg := Message(id, Prepared, msg.body, partSignature, sigMask, partPublicKey);
        var ok := VerifyThresholdWitnesses(outmsg);
        if !ok { return; }
        out := [outmsg];
      }
      unlocked := true;
    }
  }

  // ---- Completeness ----

  // The ack that member j broadcasts when it answers an Announce.
  function AckOf(ep: Epoch, j: nat, body: string, mk: int): Message
  {
    Message(j, Prepare, body, Multisign(ep, j, body, mk), 0, 0)
  }

  // `ok` as long as every ack was counted or ignored: no crash, no lost mutex.
  datatype Collected = Collected(acks: Acks, outs: seq<Message>, ok: bool)

  // A fresh session processing acks of the given members one after the other.
  function Collect(ep: Epoch, id: nat, threshold: nat, body: string, mk: nat -> int, order: seq<nat>): Collected
  {
    if order == [] then Collected(NO_ACKS, [], true)
    else
      var prev := Collect(ep, id, threshold, body, mk, order[..|order| - 1]);
      var j := order[|order| - 1];
      match OnPrepare(ep, id, threshold, prev.acks, AckOf(ep, j, body, mk(j)))
        case Counted(s) => Collected(s, prev.outs, prev.ok)
        case Quorum(s, m) => Collected(s, prev.outs + [m], prev.ok)
        case Ignored => prev
        case _ => prev.(ok := false)
  }

  ghost function Members(order: seq<nat>): set<nat>
  {
    set j | j in order
  }

  ghost predicate Gathered(ep: Epoch, threshold: nat, body: string, order: seq<nat>, c: Collected)
  {
    && c.ok && AcksInv(ep, body, threshold, c.acks)
    && Ones(c.acks.mask) <= Members(order)
    && (c.acks.count < threshold ==> Ones(c.acks.mask) == Members(order) && c.outs == [])
    && (c.acks.count == threshold ==>
        |c.outs| == 1 && Witnessed(ep, threshold, c.outs[0]) && c.outs[0].mask == c.acks.mask)
  }

  lemma {:induction false} Gathering(ep: Epoch, id: nat, threshold: nat, body: string, mk: nat -> int, order: seq<nat>)
    requires threshold >= 1
    requires forall k :: 0 <= k < |order| ==> order[k] < ep.n && mk(order[k]) == EpochKey(ep) * ep.g(order[k])
    ensures Gathered(ep, threshold, body, order, Collect(ep, id, threshold, body, mk, order))
    decreases |order|
  {
    if order == [] {
      NoAcksInv(ep, body, threshold);
      assert Ones(0) == {};
    } else {
      var init := order[..|order| - 1];
      var j := order[|order| - 1];
      Gathering(ep, id, threshold, body, mk, init);
      var prev := Collect(ep, id, threshold, body, mk, init);
      var ack := AckOf(ep, j, body, mk(j));
      AckVerifies(ep, j, body, mk(j));
      assert AckVerified(ep, ack);
      PrepareStep(ep, id, body, threshold, prev.acks, ack);
      PrepareOutcome(ep, id, body, threshold, prev.acks, ack);
      assert order == init + [j];
      assert Members(order) == Members(init) + {j};
      OnesComplete(prev.acks.mask, j);
      BitIsBinary(prev.acks.mask, j);
    }
  }

  // With correct membership keys, whatever the order and repetition of the
  // acks, a session gathers min(threshold, number of distinct members) of them
  // without a crash or a lost mutex, and broadcasts exactly once, as soon as the
  // threshold is met; the
  // broadcast passes at exactly the sessions whose threshold is not larger.
  lemma Completeness(ep: Epoch, id: nat, threshold: nat, body: string, mk: nat -> int, order: seq<nat>, other: nat)
    requires threshold >= 1
    requires forall k :: 0 <= k < |order| ==> order[k] < ep.n && mk(order[k]) == EpochKey(ep) * ep.g(order[k])
    ensures var c := Collect(ep, id, threshold, body, mk, order);
      var distinct := |Members(order)|;
      && c.ok && c.acks.count == (if distinct < threshold then distinct else threshold)
      && |c.outs| == (if distinct < threshold then 0 else 1)
      && (c.outs != [] ==> (Witnessed(ep, other, c.outs[0]) <==> other <= threshold))
  {
    Gathering(ep, id, threshold, body, mk, order);
    var c := Collect(ep, id, threshold, body, mk, order);
    CountIsCardinality(c.acks.mask);
    SubsetSize(Ones(c.acks.mask), Members(order));
  }

  lemma {:induction false} SubsetSize<T>(a: set<T>, b: set<T>)
    requires a <= b
    ensures |a| <= |b|
  {
    if a != {} {
      var x :| x in a;
      SubsetSize(a - {x}, b - {x});
    }
  }

  // From setup to quorum: when every member's setup run finished with exactly
  // one valid part from each member, the acks made with the resulting
  // membership keys bring any session to its quorum.
  lemma SetupToQuorum(ep: Epoch, runs: nat -> seq<Setup.Delivery>, id: nat, threshold: nat, body: string,
                      order: seq<nat>)
    requires threshold >= 1
    requires forall i: nat :: i < ep.n ==>
      && Setup.OncePerSource(runs(i)) && Setup.Run(Setup.Initial(ep.n), runs(i)).mask == 0
      && forall k :: 0 <= k < |runs(i)| ==>
           runs(i)[k].source < ep.n && runs(i)[k].part == KeyPart(ep, runs(i)[k].source, i)
    requires forall k :: 0 <= k < |order| ==> order[k] < ep.n
    ensures var c := Collect(ep, id, threshold, body, (i: nat) => Setup.Run(Setup.Initial(ep.n), runs(i)).key, order);
      && c.ok && c.acks.count == (if |Members(order)| < threshold then |Members(order)| else threshold)
      && |c.outs| == (if |Members(order)| < threshold then 0 else 1)
  {
    var mk := (i: nat) => Setup.Run(Setup.Initial(ep.n), runs(i)).key;
    forall i: nat | i < ep.n
      ensures mk(i) == EpochKey(ep) * ep.g(i)
    {
      Setup.NoErrors(ep, i, runs(i));
      Setup.NoRepeats(ep, i, runs(i));
      Setup.FinishedKey(ep, i, runs(i));
    }
    Completeness(ep, id, threshold, body, mk, order, threshold);
  }
}
