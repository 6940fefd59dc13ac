// The contract of the BLS library over the integers: keys and signatures are
// scalars and aggregation is addition.  A signature also records which member
// contributed to it for which message body; the source relies on that
// attribution (unforgeability) whenever it accepts a verified signature.
module Bls {
  import opened Bits

  datatype Signature = Signature(value: int, signers: set<(nat, string)>)

  // An epoch of n members.  `sk(i)` is member i's key scalar, `anti(i)` its
  // anti-rogue coefficient, `g(i)` the hash of membership index i and `h(m)`
  // the hash of a message.
  datatype Epoch = Epoch(n: nat, sk: nat -> int, anti: nat -> int, g: nat -> int, h: string -> int)

  const ZERO_SIGNATURE := Signature(0, {})

  function Aggregate(a: Signature, b: Signature): Signature
  {
    Signature(a.value + b.value, a.signers + b.signers)
  }

  // AggregatePublicKeys over the first k members.
  function KeySum(ep: Epoch, k: nat): int
  {
    if k == 0 then 0 else KeySum(ep, k - 1) + ep.anti(k - 1) * ep.sk(k - 1)
  }

  function EpochKey(ep: Epoch): int
  {
    KeySum(ep, ep.n)
  }

  // GenerateMembershipKeyPart: member j's part of member i's membership key.
  function KeyPart(ep: Epoch, j: nat, i: nat): int
  {
    ep.anti(j) * ep.sk(j) * ep.g(i)
  }

  // PrivateKey.Multisign by member i holding membership key `mk`.
  function Multisign(ep: Epoch, i: nat, body: string, mk: int): Signature
  {
    Signature(ep.sk(i) * ep.h(body) + mk, {(i, body)})
  }

  predicate Attributed(body: string, mask: nat, sig: Signature)
  {
    forall i: nat :: i < mask && Bit(mask, i) == 1 ==> (i, body) in sig.signers
  }

  // Signature.VerifyMultisig
  predicate VerifyMultisig(ep: Epoch, pk: int, body: string, mask: nat, sig: Signature)
  {
    && sig.value == pk * ep.h(body) + EpochKey(ep) * SumOnes(ep.g, mask, 0)
    && Attributed(body, mask, sig)
  }

  // The mask verifyAckSignature builds for one source.
  function Single(i: nat): (m: nat)
    ensures forall j: nat :: Bit(m, j) == if j == i then 1 else 0
    ensures BitCount(m) == 1
  {
    SetBitSign(0, i, 1);
    BitOfZero(i);
    SetFreshBit((_: nat) => 0, 0, i, 0);
    assert forall j: nat :: Bit(SetBit(0, i, 1), j) == if j == i then 1 else 0 by {
      forall j: nat
        ensures Bit(SetBit(0, i, 1), j) == if j == i then 1 else 0
      {
        SetBitWrites(0, i, 1, j);
        BitOfZero(j);
      }
    }
    SetBit(0, i, 1)
  }

  lemma SingleSum(g: nat -> int, i: nat)
    ensures SumOnes(g, Single(i), 0) == g(i)
  {
    BitOfZero(i);
    SetFreshBit(g, 0, i, 0);
  }

  lemma AggregateValue(ep: Epoch, pk: int, body: string, mask: nat, i: nat)
    requires Bit(mask, i) == 0
    ensures SetBit(mask, i, 1) >= 0
    ensures (pk + ep.sk(i)) * ep.h(body) + EpochKey(ep) * SumOnes(ep.g, SetBit(mask, i, 1), 0)
         == pk * ep.h(body) + EpochKey(ep) * SumOnes(ep.g, mask, 0)
            + ep.sk(i) * ep.h(body) + EpochKey(ep) * SumOnes(ep.g, Single(i), 0)
  {
    hide SumOnes;
    hide SetBit;
    SetFreshBit(ep.g, mask, i, 0);
    SingleSum(ep.g, i);
    Distribute(pk, ep.sk(i), ep.h(body), EpochKey(ep), SumOnes(ep.g, mask, 0), ep.g(i));
  }

  lemma Distribute(a: int, b: int, c: int, p: int, s: int, e: int)
    ensures (a + b) * c + p * (s + e) == a * c + p * s + b * c + p * e
  {
    assert (a + b) * c == a * c + b * c;
    assert p * (s + e) == p * s + p * e;
  }

  lemma AggregateAttributed(body: string, mask: nat, sig: Signature, i: nat, ack: Signature)
    requires Attributed(body, mask, sig) && Attributed(body, Single(i), ack)
    ensures SetBit(mask, i, 1) >= 0
    ensures Attributed(body, SetBit(mask, i, 1), Aggregate(sig, ack))
  {
    SetBitSign(mask, i, 1);
    forall j: nat | Bit(SetBit(mask, i, 1), j) == 1
      ensures (j, body) in Aggregate(sig, ack).signers
    {
      SetBitWrites(mask, i, 1, j);
      OnesComplete(mask, j);
      OnesComplete(Single(i), j);
    }
  }

  // Linearity: adding a verified ack of a member outside the mask keeps the
  // aggregate valid for the enlarged mask.
  lemma AggregateVerifies(ep: Epoch, pk: int, body: string, mask: nat, sig: Signature, i: nat, ack: Signature)
    requires VerifyMultisig(ep, pk, body, mask, sig)
    requires VerifyMultisig(ep, ep.sk(i), body, Single(i), ack)
    requires Bit(mask, i) == 0
    ensures SetBit(mask, i, 1) >= 0
    ensures VerifyMultisig(ep, pk + ep.sk(i), body, SetBit(mask, i, 1), Aggregate(sig, ack))
  {
    AggregateValue(ep, pk, body, mask, i);
    AggregateAttributed(body, mask, sig, i, ack);
  }

  // ---- Membership keys ----

  function PartSum(ep: Epoch, i: nat, k: nat): int
  {
    if k == 0 then 0 else PartSum(ep, i, k - 1) + KeyPart(ep, k - 1, i)
  }

  // All members' parts together are the epoch key on the member's index.
  lemma {:induction false} PartsMakeKey(ep: Epoch, i: nat, k: nat)
    ensures PartSum(ep, i, k) == KeySum(ep, k) * ep.g(i)
  {
    if k > 0 {
      PartsMakeKey(ep, i, k - 1);
      var a, b, g := KeySum(ep, k - 1), ep.anti(k - 1) * ep.sk(k - 1), ep.g(i);
      assert (a + b) * g == a * g + b * g;
    }
  }

  // A member signing with a correct membership key produces an ack that
  // verifyAckSignature accepts, and with any other key one that it rejects.
  lemma AckVerifies(ep: Epoch, i: nat, body: string, mk: int)
    ensures VerifyMultisig(ep, ep.sk(i), body, Single(i), Multisign(ep, i, body, mk))
       <==> mk == EpochKey(ep) * ep.g(i)
  {
    SingleSum(ep.g, i);
  }
}
