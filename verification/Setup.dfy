// Epoch setup (node/bridge/node.go, BlsSetup): every member sends each other
// member one part of its membership key; the receiver adds up the parts and
// clears the sender's bit in a mask of missing members until the mask is zero.
module Setup {
  import opened Bits
  import opened Bls

  datatype State = State(mask: int, key: int)
  datatype Delivery = Delivery(source: nat, part: int)

  // The argument of big.NewInt: `(1 << np) - 1` evaluated in int64.
  function InitialMask(np: nat): int
  {
    Int64((if np < 64 then Int64(Pow2(np)) else 0) - 1)
  }

  function Initial(np: nat): State
  {
    State(InitialMask(np), 0)
  }

  // One BlsSetupParts message: the part is aggregated whether or not it
  // verified, and however often its source has been seen.
  function Deliver(s: State, d: Delivery): State
  {
    State(SetBit(s.mask, d.source, 0), s.key + d.part)
  }

  function Run(s: State, ds: seq<Delivery>): State
    decreases |ds|
  {
    if ds == [] then s else Run(Deliver(s, ds[0]), ds[1..])
  }

  lemma {:induction false} Pow2Monotone(a: nat, b: nat)
    requires a <= b
    ensures Pow2(a) <= Pow2(b)
  {
    if a < b { Pow2Monotone(a, b - 1); }
  }

  lemma Int64Wraps()
    ensures Int64(0x8000_0000_0000_0000) == -0x8000_0000_0000_0000
    ensures Int64(-0x8000_0000_0000_0001) == 0x7fff_ffff_ffff_ffff
  {
  }

  // The initial mask is the full one up to 63 members and all ones beyond.
  lemma InitialMaskValue(np: nat)
    ensures InitialMask(np) == if np <= 63 then Pow2(np) - 1 else -1
  {
    Pow2Of64();
    Int64Wraps();
    if np < 63 {
      Pow2Monotone(np, 62);
      assert Pow2(63) == 2 * Pow2(62);
      Int64InRange(Pow2(np));
      Int64InRange(Pow2(np) - 1);
    } else if np > 63 {
      Int64InRange(-1);
    }
    hide Int64;
    hide Pow2;
  }

  lemma {:induction false} FullMaskBits(np: nat, i: nat)
    ensures Bit(Pow2(np) - 1, i) == if i < np then 1 else 0
  {
    if np == 0 {
      BitOfZero(i);
    } else if i > 0 {
      assert (Pow2(np) - 1) / 2 == Pow2(np - 1) - 1;
      FullMaskBits(np - 1, i - 1);
    }
  }

  ghost predicate Heard(ds: seq<Delivery>, i: nat)
  {
    exists k :: 0 <= k < |ds| && ds[k].source == i
  }

  lemma HeardCons(ds: seq<Delivery>, i: nat)
    requires ds != []
    ensures Heard(ds, i) <==> ds[0].source == i || Heard(ds[1..], i)
  {
    if Heard(ds, i) {
      var k :| 0 <= k < |ds| && ds[k].source == i;
      if k > 0 { assert ds[1..][k - 1].source == i; }
    }
    if Heard(ds[1..], i) {
      var k :| 0 <= k < |ds[1..]| && ds[1..][k].source == i;
      assert ds[k + 1].source == i;
    }
  }

  // A processed source has its bit cleared; every other bit is untouched.
  lemma {:induction false} RunBits(s: State, ds: seq<Delivery>, i: nat)
    ensures Bit(Run(s, ds).mask, i) == if Heard(ds, i) then 0 else Bit(s.mask, i)
    ensures Run(s, ds).mask >= 0 <==> s.mask >= 0
    decreases |ds|
  {
    if ds != [] {
      var d := ds[0];
      SetBitSign(s.mask, d.source, 0);
      SetBitWrites(s.mask, d.source, 0, i);
      RunBits(Deliver(s, d), ds[1..], i);
      HeardCons(ds, i);
    }
  }

  // In every reachable state bit i is set exactly when member i has not been
  // heard; from 64 members on that holds of every bit position.
  lemma MaskTracksMissing(np: nat, ds: seq<Delivery>, i: nat)
    ensures Bit(Run(Initial(np), ds).mask, i) == 1 <==> (i < np || np >= 64) && !Heard(ds, i)
  {
    InitialMaskValue(np);
    RunBits(Initial(np), ds, i);
    if np <= 63 { FullMaskBits(np, i); } else { AllOnes(i); }
  }

  lemma {:induction false} AllOnes(i: nat)
    ensures Bit(-1, i) == 1
  {
    if i > 0 { AllOnes(i - 1); }
  }

  // The setup loop can finish exactly when np <= 63 and every member was heard.
  lemma CompletesIff(np: nat, ds: seq<Delivery>)
    ensures Run(Initial(np), ds).mask == 0 <==> np <= 63 && forall i: nat :: i < np ==> Heard(ds, i)
  {
    InitialMaskValue(np);
    var m := Run(Initial(np), ds).mask;
    RunBits(Initial(np), ds, 0);
    if np <= 63 {
      if m == 0 {
        forall i: nat | i < np
          ensures Heard(ds, i)
        {
          MaskTracksMissing(np, ds, i);
          BitOfZero(i);
        }
      }
      if forall i: nat :: i < np ==> Heard(ds, i) {
        forall i: nat
          ensures Bit(m, i) == Bit(0, i)
        {
          MaskTracksMissing(np, ds, i);
          BitOfZero(i);
          BitIsBinary(m, i);
        }
        BitsDetermine(m, 0);
      }
    }
  }

  // ---- Order independence ----

  // Half and parity of a mask with bit i cleared.
  lemma ClearedParts(x: int, i: nat)
    ensures SetBit(x, i, 0) / 2 == if i == 0 then x / 2 else SetBit(x / 2, i - 1, 0)
    ensures SetBit(x, i, 0) % 2 == if i == 0 then 0 else x % 2
  {
    if i > 0 { SetBitParts(x, i, 0); }
  }

  lemma Halves(x: int, y: int)
    requires x / 2 == y / 2 && x % 2 == y % 2
    ensures x == y
  {
  }

  lemma {:induction false} ClearCommutes(x: int, i: nat, j: nat)
    ensures SetBit(SetBit(x, i, 0), j, 0) == SetBit(SetBit(x, j, 0), i, 0)
    decreases i
  {
    hide SetBit;
    var y, z := SetBit(x, i, 0), SetBit(x, j, 0);
    ClearedParts(x, i);
    ClearedParts(x, j);
    ClearedParts(y, j);
    ClearedParts(z, i);
    if i > 0 && j > 0 { ClearCommutes(x / 2, i - 1, j - 1); }
    Halves(SetBit(y, j, 0), SetBit(z, i, 0));
  }

  lemma {:induction false} MoveToFront(s: State, ds: seq<Delivery>, k: nat)
    requires k < |ds|
    ensures Run(s, ds) == Run(Deliver(s, ds[k]), ds[..k] + ds[k + 1..])
    decreases k
  {
    if k == 0 {
      assert ds[..0] + ds[1..] == ds[1..];
    } else {
      var rest := ds[1..];
      MoveToFront(Deliver(s, ds[0]), rest, k - 1);
      ClearCommutes(s.mask, ds[0].source, ds[k].source);
      var moved := ds[..k] + ds[k + 1..];
      assert rest[k - 1] == ds[k];
      assert moved[0] == ds[0] && moved[1..] == rest[..k - 1] + rest[k..];
      assert Deliver(Deliver(s, ds[0]), ds[k]) == Deliver(Deliver(s, ds[k]), ds[0]);
    }
  }

  // The outcome depends only on which parts arrived how often.
  lemma {:induction false} OrderIndependent(s: State, ds: seq<Delivery>, es: seq<Delivery>)
    requires multiset(ds) == multiset(es)
    ensures Run(s, ds) == Run(s, es)
    decreases |ds|
  {
    if ds == [] {
      assert |multiset(es)| == 0;
    } else {
      assert ds[0] in multiset(es);
      var k :| 0 <= k < |es| && es[k] == ds[0];
      MoveToFront(s, es, k);
      var fs := es[..k] + es[k + 1..];
      assert es == es[..k] + [es[k]] + es[k + 1..];
      assert ds == [ds[0]] + ds[1..];
      assert multiset(ds) == multiset{ds[0]} + multiset(ds[1..]);
      assert multiset(es) == multiset{ds[0]} + multiset(fs);
      assert multiset(ds[1..]) == multiset(ds) - multiset{ds[0]};
      OrderIndependent(Deliver(s, ds[0]), ds[1..], fs);
    }
  }

  // ---- The membership key ----

  function PartsFor(ep: Epoch, id: nat): nat -> int
  {
    (j: nat) => KeyPart(ep, j, id)
  }

  function Total(ds: seq<Delivery>): int
  {
    if ds == [] then 0 else ds[0].part + Total(ds[1..])
  }

  // What the parts deviate from the parts VerifyMembershipKeyPart accepts.
  function TotalError(ep: Epoch, id: nat, ds: seq<Delivery>): int
  {
    if ds == [] then 0
    else ds[0].part - KeyPart(ep, ds[0].source, id) + TotalError(ep, id, ds[1..])
  }

  lemma {:induction false} KeyIsTotal(s: State, ds: seq<Delivery>)
    ensures Run(s, ds).key == s.key + Total(ds)
    decreases |ds|
  {
    if ds != [] { KeyIsTotal(Deliver(s, ds[0]), ds[1..]); }
  }

  // Every delivery of a source after its first adds the source's part again.
  ghost function Repeats(ep: Epoch, id: nat, ds: seq<Delivery>): int
  {
    if ds == [] then 0
    else (if Heard(ds[1..], ds[0].source) then KeyPart(ep, ds[0].source, id) else 0) + Repeats(ep, id, ds[1..])
  }

  // The total is the sum over the mask of the sources heard, plus the errors
  // and the repetitions.
  lemma {:induction false} TotalOverSources(ep: Epoch, id: nat, ds: seq<Delivery>, heard: nat)
    requires forall i: nat :: Bit(heard, i) == if Heard(ds, i) then 1 else 0
    ensures Total(ds) == SumOnes(PartsFor(ep, id), heard, 0) + TotalError(ep, id, ds) + Repeats(ep, id, ds)
    decreases |ds|
  {
    var f := PartsFor(ep, id);
    if ds == [] {
      forall i: nat
        ensures Bit(heard, i) == Bit(0, i)
      {
        BitOfZero(i);
      }
      BitsDetermine(heard, 0);
    } else {
      var j := ds[0].source;
      HeardCons(ds, j);
      if Heard(ds[1..], j) {
        forall i: nat
          ensures Heard(ds[1..], i) <==> Heard(ds, i)
        {
          HeardCons(ds, i);
        }
        TotalOverSources(ep, id, ds[1..], heard);
      } else {
        var rest := SetBit(heard, j, 0);
        SetBitSign(heard, j, 0);
        forall i: nat
          ensures Bit(rest, i) == if Heard(ds[1..], i) then 1 else 0
        {
          SetBitWrites(heard, j, 0, i);
          HeardCons(ds, i);
        }
        TotalOverSources(ep, id, ds[1..], rest);
        assert SetBit(rest, j, 1) == heard by { Restore(heard, j); }
        SetFreshBit(f, rest, j, 0);
      }
    }
  }

  lemma {:induction false} Restore(x: int, i: nat)
    requires Bit(x, i) == 1
    ensures SetBit(SetBit(x, i, 0), i, 1) == x
    decreases i
  {
    if i > 0 { Restore(x / 2, i - 1); }
  }

  lemma {:induction false} FullSum(ep: Epoch, id: nat, k: nat)
    ensures SumOnes(PartsFor(ep, id), Pow2(k) - 1, 0) == PartSum(ep, id, k)
  {
    if k > 0 {
      hide SumOnes;
      hide SetBit;
      hide Bit;
      hide Pow2;
      hide KeyPart;
      var x: nat := Pow2(k - 1) - 1;
      assert PartSum(ep, id, k) == PartSum(ep, id, k - 1) + KeyPart(ep, k - 1, id);
      assert PartsFor(ep, id)(0 + (k - 1)) == KeyPart(ep, k - 1, id);
      FullSum(ep, id, k - 1);
      FullMaskBits(k - 1, k - 1);
      FillNext(k - 1);
      hide PartSum;
      SetFreshSum(PartsFor(ep, id), x, k - 1, 0);
    }
  }

  lemma {:induction false} FillNext(k: nat)
    ensures SetBit(Pow2(k) - 1, k, 1) == Pow2(k + 1) - 1
  {
    if k > 0 {
      assert (Pow2(k) - 1) / 2 == Pow2(k - 1) - 1;
      FillNext(k - 1);
    }
  }

  // A finished setup yields the correct membership key plus the errors and the
  // repetitions of the parts, so the key is correct exactly when these cancel
  // out: no part is held back because it fails verification or came before.
  lemma FinishedKey(ep: Epoch, id: nat, ds: seq<Delivery>)
    requires forall k :: 0 <= k < |ds| ==> ds[k].source < ep.n
    requires Run(Initial(ep.n), ds).mask == 0
    ensures Run(Initial(ep.n), ds).key == EpochKey(ep) * ep.g(id) + TotalError(ep, id, ds) + Repeats(ep, id, ds)
    ensures Run(Initial(ep.n), ds).key == EpochKey(ep) * ep.g(id) <==> TotalError(ep, id, ds) + Repeats(ep, id, ds) == 0
  {
    CompletesIff(ep.n, ds);
    forall i: nat
      ensures Bit(Pow2(ep.n) - 1, i) == if Heard(ds, i) then 1 else 0
    {
      FullMaskBits(ep.n, i);
    }
    TotalOverSources(ep, id, ds, Pow2(ep.n) - 1);
    FullSum(ep, id, ep.n);
    PartsMakeKey(ep, id, ep.n);
    KeyIsTotal(Initial(ep.n), ds);
  }

  lemma {:induction false} NoErrors(ep: Epoch, id: nat, ds: seq<Delivery>)
    requires forall k :: 0 <= k < |ds| ==> ds[k].part == KeyPart(ep, ds[k].source, id)
    ensures TotalError(ep, id, ds) == 0
  {
    if ds != [] { NoErrors(ep, id, ds[1..]); }
  }

  ghost predicate OncePerSource(ds: seq<Delivery>)
  {
    forall k, l :: 0 <= k < l < |ds| ==> ds[k].source != ds[l].source
  }

  lemma {:induction false} NoRepeats(ep: Epoch, id: nat, ds: seq<Delivery>)
    requires OncePerSource(ds)
    ensures Repeats(ep, id, ds) == 0
  {
    if ds != [] {
      NoRepeats(ep, id, ds[1..]);
      forall l | 1 <= l < |ds|
        ensures ds[l].source != ds[0].source
      {
      }
    }
  }

  // ---- The receive loop ----

  // A message as its handler sees it; Skipped does not decode or has another type.
  datatype Message = Skipped | Phase | Parts(source: int, parts: seq<int>)

  // The handler of member `id` finds its part and the key of the source; if not
  // the index is out of range and the node panics.
  predicate Addressed(ep: Epoch, id: nat, m: Message)
  {
    m.Parts? ==> id < |m.parts| && 0 <= m.source < ep.n
  }

  predicate AllAddressed(ep: Epoch, id: nat, ms: seq<Message>)
  {
    forall k :: 0 <= k < |ms| ==> Addressed(ep, id, ms[k])
  }

  // The deliveries that a series of messages makes to member `id`.
  function Deliveries(ep: Epoch, id: nat, ms: seq<Message>): seq<Delivery>
    requires AllAddressed(ep, id, ms)
  {
    if ms == [] then []
    else
      var init := Deliveries(ep, id, ms[..|ms| - 1]);
      var last := ms[|ms| - 1];
      if last.Parts? then init + [Delivery(last.source, last.parts[id])] else init
  }

  lemma {:induction false} RunSnoc(s: State, ds: seq<Delivery>, d: Delivery)
    ensures Run(s, ds + [d]) == Deliver(Run(s, ds), d)
    decreases |ds|
  {
    if ds != [] {
      assert (ds + [d])[0] == ds[0] && (ds + [d])[1..] == ds[1..] + [d];
      RunSnoc(Deliver(s, ds[0]), ds[1..], d);
    } else {
      assert ([] + [d])[1..] == [];
    }
  }

  // The state after a series of messages was handled.
  function After(ep: Epoch, id: nat, ms: seq<Message>): State
    requires AllAddressed(ep, id, ms)
  {
    Run(Initial(ep.n), Deliveries(ep, id, ms))
  }

  // The parts a member broadcasts: for every member the key scalar, weighted and
  // on that member's index.
  ghost predicate IsReply(ep: Epoch, id: nat, m: Message)
  {
    && m.Parts? && m.source == id && |m.parts| == ep.n
    && forall i: nat :: i < ep.n ==> m.parts[i] == ep.anti(id) * ep.sk(id) * ep.g(i)
  }

  method OwnParts(ep: Epoch, id: nat) returns (m: Message)
    ensures IsReply(ep, id, m)
  {
    var parts: seq<int> := [];
    for i := 0 to ep.n
      invariant |parts| == i && forall k: nat :: k < i ==> parts[k] == ep.anti(id) * ep.sk(id) * ep.g(k)
    {
      parts := parts + [KeyPart(ep, id, i)];
    }
    m := Parts(id, parts);
  }

  lemma AfterNext(ep: Epoch, id: nat, inbox: seq<Message>, k: nat)
    requires k < |inbox| && AllAddressed(ep, id, inbox[..k]) && Addressed(ep, id, inbox[k])
    ensures AllAddressed(ep, id, inbox[..k + 1])
    ensures After(ep, id, inbox[..k + 1]) ==
      if inbox[k].Parts? then Deliver(After(ep, id, inbox[..k]), Delivery(inbox[k].source, inbox[k].parts[id]))
      else After(ep, id, inbox[..k])
  {
    assert inbox[..k + 1][..k] == inbox[..k];
    if inbox[k].Parts? {
      RunSnoc(Initial(ep.n), Deliveries(ep, id, inbox[..k]), Delivery(inbox[k].source, inbox[k].parts[id]));
    }
  }

  // Once no member is missing, no message changes that.
  lemma StaysDone(ep: Epoch, id: nat, inbox: seq<Message>, k: nat)
    requires k < |inbox| && AllAddressed(ep, id, inbox[..k]) && Addressed(ep, id, inbox[k])
    requires After(ep, id, inbox[..k]).mask == 0
    ensures AllAddressed(ep, id, inbox[..k + 1]) && After(ep, id, inbox[..k + 1]).mask == 0
  {
    AfterNext(ep, id, inbox, k);
    if inbox[k].Parts? {
      var j: nat := inbox[k].source;
      SetBitSign(0, j, 0);
      forall i: nat
        ensures Bit(SetBit(0, j, 0), i) == Bit(0, i)
      {
        SetBitWrites(0, j, 0, i);
        BitOfZero(i);
      }
      BitsDetermine(SetBit(0, j, 0), 0);
    }
  }

  // The prefix of the inbox up to k has been handled and left members missing.
  ghost predicate Unfinished(ep: Epoch, id: nat, inbox: seq<Message>, k: nat)
  {
    k <= |inbox| && AllAddressed(ep, id, inbox[..k]) && After(ep, id, inbox[..k]).mask != 0
  }

  // BlsSetup: answer Phase messages with this member's parts, absorb Parts
  // messages, and stop receiving when no member is missing.  The inbox is in
  // the order in which the handlers get the mutex; `late` of them were already
  // started when the last member was heard and still finish before the function
  // returns the key.
  method BlsSetup(ep: Epoch, id: nat, inbox: seq<Message>, late: nat)
    returns (key: int, mask: int, used: nat, replies: seq<Message>, crashed: bool)
    requires id < ep.n
    ensures used <= |inbox| && AllAddressed(ep, id, inbox[..used]) && State(mask, key) == After(ep, id, inbox[..used])
    ensures forall k :: 0 <= k < used && inbox[k].Parts? ==> id < |inbox[k].parts| && 0 <= inbox[k].source < ep.n
    ensures crashed ==> used < |inbox| && inbox[used].Parts?
    ensures crashed ==> id >= |inbox[used].parts| || inbox[used].source < 0 || inbox[used].source >= ep.n
    ensures !crashed && used < |inbox| ==> mask == 0 && late <= used && !Unfinished(ep, id, inbox, used - late)
    ensures forall k: nat :: k + late < used ==> Unfinished(ep, id, inbox, k)
    ensures crashed ==> forall k: nat :: k + late <= used ==> Unfinished(ep, id, inbox, k)
    ensures |replies| == multiset(inbox[..used])[Phase]
    ensures forall r :: r in replies ==> r.Parts? && r.source == id && |r.parts| == ep.n
    ensures forall r :: r in replies ==> forall i: nat :: i < ep.n ==> r.parts[i] == ep.anti(id) * ep.sk(id) * ep.g(i)
  {
    mask, key, used, replies, crashed := InitialMask(ep.n), 0, 0, [], false;
    ReachedFirst(ep, id, inbox);
    assert Phases(inbox, 0) == 0;
    hide SetBit;
    hide InitialMask;
    hide IsReply;
    hide Reached;
    hide Phases;
    var extra := 0;
    while used < |inbox| && (mask != 0 || extra < late)
      invariant extra <= late && !crashed
      invariant Reached(ep, id, inbox, used, extra, State(mask, key))
      invariant used <= |inbox| && |replies| == Phases(inbox, used)
      invariant forall r :: r in replies ==> IsReply(ep, id, r)
      decreases |inbox| - used
    {
      if !Addressed(ep, id, inbox[used]) {
        crashed := true;
        break;
      }
      ReachedNext(ep, id, inbox, used, extra, State(mask, key));
      if mask == 0 { extra := extra + 1; }
      PhaseCount(inbox, used);
      if inbox[used].Phase? {
        var own := OwnParts(ep, id);
        replies := replies + [own];
      } else if inbox[used].Parts? {
        key := key + inbox[used].parts[id];
        mask := SetBit(mask, inbox[used].source, 0);
      }
      used := used + 1;
    }
    ReachedMeans(ep, id, inbox, used, extra, State(mask, key));
    PhasesAre(inbox, used);
    forall r | r in replies
      ensures r.Parts? && r.source == id && |r.parts| == ep.n
      ensures forall i: nat :: i < ep.n ==> r.parts[i] == ep.anti(id) * ep.sk(id) * ep.g(i)
    {
      ReplyParts(ep, id, r);
    }
  }

  // The number of Phase messages among the first k.
  ghost function Phases(inbox: seq<Message>, k: nat): nat
    requires k <= |inbox|
  {
    multiset(inbox[..k])[Phase]
  }

  lemma PhaseCount(inbox: seq<Message>, k: nat)
    requires k < |inbox|
    ensures Phases(inbox, k + 1) == Phases(inbox, k) + if inbox[k].Phase? then 1 else 0
  {
    assert inbox[..k + 1] == inbox[..k] + [inbox[k]];
  }

  lemma PhasesAre(inbox: seq<Message>, k: nat)
    requires k <= |inbox|
    ensures Phases(inbox, k) == multiset(inbox[..k])[Phase]
  {
  }

  // The first `used` messages led to s; the last `extra` of them came when no
  // member was missing any more.
  ghost predicate Reached(ep: Epoch, id: nat, inbox: seq<Message>, used: nat, extra: nat, s: State)
  {
    && extra <= used <= |inbox| && AllAddressed(ep, id, inbox[..used]) && s == After(ep, id, inbox[..used])
    && (s.mask != 0 ==> extra == 0 && forall k: nat :: k <= used ==> Unfinished(ep, id, inbox, k))
    && (s.mask == 0 ==> !Unfinished(ep, id, inbox, used - extra))
    && (s.mask == 0 ==> forall k: nat :: k < used - extra ==> Unfinished(ep, id, inbox, k))
  }

  lemma ReachedFirst(ep: Epoch, id: nat, inbox: seq<Message>)
    requires ep.n > 0
    ensures Reached(ep, id, inbox, 0, 0, Initial(ep.n))
  {
    MissingAtFirst(ep.n);
    assert inbox[..0] == [];
  }

  lemma ReachedNext(ep: Epoch, id: nat, inbox: seq<Message>, used: nat, extra: nat, s: State)
    requires Reached(ep, id, inbox, used, extra, s) && used < |inbox| && Addressed(ep, id, inbox[used])
    ensures var m := inbox[used];
      Reached(ep, id, inbox, used + 1, extra + (if s.mask == 0 then 1 else 0),
              if m.Parts? then Deliver(s, Delivery(m.source, m.parts[id])) else s)
  {
    AfterNext(ep, id, inbox, used);
    if s.mask == 0 { StaysDone(ep, id, inbox, used); }
    hide After;
    hide Deliver;
    hide AllAddressed;
  }

  lemma ReachedMeans(ep: Epoch, id: nat, inbox: seq<Message>, used: nat, extra: nat, s: State)
    requires Reached(ep, id, inbox, used, extra, s)
    ensures extra <= used <= |inbox| && AllAddressed(ep, id, inbox[..used]) && s == After(ep, id, inbox[..used])
    ensures forall k :: 0 <= k < used && inbox[k].Parts? ==> id < |inbox[k].parts| && 0 <= inbox[k].source < ep.n
    ensures s.mask != 0 ==> extra == 0 && forall k: nat :: k <= used ==> Unfinished(ep, id, inbox, k)
    ensures s.mask == 0 ==> !Unfinished(ep, id, inbox, used - extra)
    ensures forall k: nat :: k < used - extra ==> Unfinished(ep, id, inbox, k)
  {
    UsedAddressed(ep, id, inbox, used);
  }

  lemma ReplyParts(ep: Epoch, id: nat, r: Message)
    requires IsReply(ep, id, r)
    ensures r.Parts? && r.source == id && |r.parts| == ep.n
    ensures forall i: nat :: i < ep.n ==> r.parts[i] == ep.anti(id) * ep.sk(id) * ep.g(i)
  {
  }

  lemma UsedAddressed(ep: Epoch, id: nat, inbox: seq<Message>, used: nat)
    requires used <= |inbox| && AllAddressed(ep, id, inbox[..used])
    ensures forall k :: 0 <= k < used && inbox[k].Parts? ==> id < |inbox[k].parts| && 0 <= inbox[k].source < ep.n
  {
    forall k | 0 <= k < used && inbox[k].Parts?
      ensures id < |inbox[k].parts| && 0 <= inbox[k].source < ep.n
    {
      assert Addressed(ep, id, inbox[..used][k]);
    }
  }

  lemma MissingAtFirst(np: nat)
    requires np > 0
    ensures InitialMask(np) != 0
  {
    InitialMaskValue(np);
    Pow2Monotone(1, np);
  }

  // ---- The exchange ----

  // Every Parts message is the reply of its source and no source sent two.
  ghost predicate Replies(ep: Epoch, ms: seq<Message>)
  {
    && (forall k :: 0 <= k < |ms| && ms[k].Parts? ==> 0 <= ms[k].source < ep.n && IsReply(ep, ms[k].source, ms[k]))
    && (forall k, l :: 0 <= k < l < |ms| && ms[k].Parts? && ms[l].Parts? ==> ms[k].source != ms[l].source)
  }

  ghost predicate RepliedIn(ms: seq<Message>, j: nat)
  {
    exists k :: 0 <= k < |ms| && ms[k].Parts? && ms[k].source == j
  }

  lemma RepliesAddressed(ep: Epoch, id: nat, ms: seq<Message>)
    requires Replies(ep, ms) && id < ep.n
    ensures AllAddressed(ep, id, ms)
  {
  }

  lemma RepliedSnoc(ms: seq<Message>, j: nat)
    requires ms != []
    ensures var last := ms[|ms| - 1];
      RepliedIn(ms, j) <==> RepliedIn(ms[..|ms| - 1], j) || (last.Parts? && last.source == j)
  {
    var n := |ms| - 1;
    if k :| 0 <= k < |ms| && ms[k].Parts? && ms[k].source == j {
      if k < n { assert ms[..n][k] == ms[k]; }
    }
    if k :| 0 <= k < n && ms[..n][k].Parts? && ms[..n][k].source == j { assert ms[k] == ms[..n][k]; }
  }

  // Deliveries of replies are valid parts, one per source.
  ghost predicate Delivering(ep: Epoch, id: nat, ms: seq<Message>, ds: seq<Delivery>)
  {
    && OncePerSource(ds)
    && (forall k :: 0 <= k < |ds| ==> ds[k].source < ep.n && ds[k].part == KeyPart(ep, ds[k].source, id))
    && (forall j: nat :: Heard(ds, j) <==> RepliedIn(ms, j))
  }

  lemma {:induction false} RepliesDeliver(ep: Epoch, id: nat, ms: seq<Message>)
    requires Replies(ep, ms) && id < ep.n
    ensures AllAddressed(ep, id, ms) && Delivering(ep, id, ms, Deliveries(ep, id, ms))
    decreases |ms|
  {
    RepliesAddressed(ep, id, ms);
    if ms != [] {
      var n := |ms| - 1;
      var init, last := ms[..n], ms[n];
      assert forall k :: 0 <= k < n ==> init[k] == ms[k];
      RepliesDeliver(ep, id, init);
      forall j: nat
        ensures RepliedIn(ms, j) <==> RepliedIn(init, j) || (last.Parts? && last.source == j)
      {
        RepliedSnoc(ms, j);
      }
      if last.Parts? {
        assert IsReply(ep, last.source, last);
        assert !RepliedIn(init, last.source);
        DeliveringNext(ep, id, init, ms, Deliveries(ep, id, init), last.source, last.parts[id]);
      }
    }
  }

  lemma DeliveringNext(ep: Epoch, id: nat, init: seq<Message>, ms: seq<Message>, ds: seq<Delivery>, j: nat, part: int)
    requires Delivering(ep, id, init, ds) && j < ep.n && part == KeyPart(ep, j, id) && !RepliedIn(init, j)
    requires forall i: nat :: RepliedIn(ms, i) <==> RepliedIn(init, i) || i == j
    ensures Delivering(ep, id, ms, ds + [Delivery(j, part)])
  {
    hide KeyPart;
    hide RepliedIn;
    var es := ds + [Delivery(j, part)];
    assert !Heard(ds, j);
    forall i: nat
      ensures Heard(es, i) <==> Heard(ds, i) || i == j
    {
      HeardSnoc(ds, Delivery(j, part), i);
    }
  }

  lemma HeardSnoc(ds: seq<Delivery>, d: Delivery, i: nat)
    ensures Heard(ds + [d], i) <==> Heard(ds, i) || d.source == i
  {
    var es := ds + [d];
    if k :| 0 <= k < |ds| && ds[k].source == i { assert es[k].source == i; }
    if d.source == i { assert es[|ds|].source == i; }
  }

  // Members that answer as BlsSetup does give each other correct keys: whenever
  // the setup is finished the key is the right one, and it is finished exactly
  // when all have replied and there are at most 63 of them.
  lemma RepliesMakeKey(ep: Epoch, id: nat, ms: seq<Message>)
    requires Replies(ep, ms) && id < ep.n
    ensures AllAddressed(ep, id, ms)
    ensures After(ep, id, ms).mask == 0 <==> ep.n <= 63 && forall j: nat :: j < ep.n ==> RepliedIn(ms, j)
    ensures After(ep, id, ms).mask == 0 ==> After(ep, id, ms).key == EpochKey(ep) * ep.g(id)
  {
    RepliesDeliver(ep, id, ms);
    var ds := Deliveries(ep, id, ms);
    CompletesIff(ep.n, ds);
    if Run(Initial(ep.n), ds).mask == 0 {
      NoErrors(ep, id, ds);
      NoRepeats(ep, id, ds);
      FinishedKey(ep, id, ds);
    }
  }

  // The whole exchange: every member answers a Phase message with BlsSetup, and
  // member `id` receives the answers in any order.
  method Exchange(ep: Epoch, id: nat, order: seq<nat>) returns (key: int, mask: int)
    requires id < ep.n <= 63
    requires forall j: nat :: j in order <==> j < ep.n
    requires forall k, l :: 0 <= k < l < |order| ==> order[k] != order[l]
    ensures mask == 0 && key == EpochKey(ep) * ep.g(id)
  {
    var inbox: seq<Message> := [];
    for k := 0 to |order|
      invariant |inbox| == k && forall l :: 0 <= l < k ==> IsReply(ep, order[l], inbox[l])
    {
      assert order[k] in order;
      var reply := Answer(ep, order[k]);
      inbox := inbox + [reply];
    }
    assert Replies(ep, inbox) by {
      forall k | 0 <= k < |inbox|
        ensures 0 <= inbox[k].source < ep.n && IsReply(ep, inbox[k].source, inbox[k])
      {
        assert IsReply(ep, order[k], inbox[k]) && order[k] in order;
      }
      assert forall k :: 0 <= k < |inbox| ==> inbox[k].source == order[k];
    }
    forall j: nat | j < ep.n
      ensures RepliedIn(inbox, j)
    {
      assert j in order;
      var k :| 0 <= k < |order| && order[k] == j;
      assert IsReply(ep, order[k], inbox[k]);
    }
    var used, replies, crashed;
    key, mask, used, replies, crashed := BlsSetup(ep, id, inbox, 0);
    Finishes(ep, id, inbox, used, mask, crashed);
    RepliesMakeKey(ep, id, inbox[..used]);
  }

  // The loop does not end early on replies, nor with a member missing.
  lemma Finishes(ep: Epoch, id: nat, inbox: seq<Message>, used: nat, mask: int, crashed: bool)
    requires id < ep.n <= 63 && Replies(ep, inbox) && forall j: nat :: j < ep.n ==> RepliedIn(inbox, j)
    requires used <= |inbox| && AllAddressed(ep, id, inbox[..used]) && mask == After(ep, id, inbox[..used]).mask
    requires crashed ==> used < |inbox| && inbox[used].Parts?
    requires crashed ==> id >= |inbox[used].parts| || inbox[used].source < 0 || inbox[used].source >= ep.n
    requires !crashed && used < |inbox| ==> mask == 0
    ensures !crashed && mask == 0 && Replies(ep, inbox[..used])
  {
    assert forall k :: 0 <= k < used ==> inbox[..used][k] == inbox[k];
    if used == |inbox| {
      assert inbox[..used] == inbox;
      RepliesMakeKey(ep, id, inbox);
    }
  }

  // The answer of one member to one Phase message.
  method Answer(ep: Epoch, j: nat) returns (reply: Message)
    requires j < ep.n
    ensures IsReply(ep, j, reply)
  {
    var key, mask, used, replies, crashed := BlsSetup(ep, j, [Phase], 0);
    assert used == 1 by {
      if used == 0 {
        assert [Phase][..0] == [];
        MissingAtFirst(ep.n);
      }
    }
    assert [Phase][..1] == [Phase];
    reply := replies[0];
    assert reply in replies;
  }
}
