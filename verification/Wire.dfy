// Conversion of protocol messages to and from the wire
// (consensus/protobuf/message/convert.go).
module Wire {
  import opened Limits
  import opened Options
  import opened Bits
  import opened Bls
  import opened Tlc

  type byte = x: int | 0 <= x < 256

  // big.Int.Bytes: big-endian magnitude without leading zeros.
  function Bytes(x: int): seq<byte>
    decreases if x < 0 then -x + 1 else x
  {
    if x < 0 then Bytes(-x) else if x == 0 then [] else Bytes(x / 256) + [x % 256]
  }

  // big.Int.SetBytes
  function SetBytes(b: seq<byte>): nat
  {
    if b == [] then 0 else 256 * SetBytes(b[..|b| - 1]) + b[|b| - 1]
  }

  lemma {:induction false} MagnitudeTrip(x: nat)
    ensures SetBytes(Bytes(x)) == x
  {
    if x > 0 {
      MagnitudeTrip(x / 256);
      assert Bytes(x)[..|Bytes(x)| - 1] == Bytes(x / 256);
    }
  }

  // The bytes are those of the magnitude, the highest first and not zero.
  lemma {:induction false} BytesAre(x: nat, k: nat)
    requires k < |Bytes(x)|
    ensures Bytes(x)[|Bytes(x)| - 1 - k] == DropBytes(x, k) % 256
    ensures Bytes(x)[0] != 0 && DropBytes(x, |Bytes(x)|) == 0
  {
    if x >= 256 {
      BytesAre(x / 256, if k > 0 then k - 1 else 0);
      assert Bytes(x) == Bytes(x / 256) + [x % 256];
    } else {
      assert Bytes(x / 256) == [] && Bytes(x) == [x % 256];
    }
  }

  // The wire drops the sign: the magnitude arrives, and so a mask survives
  // exactly when it is not negative.
  lemma MaskTripIff(x: int)
    ensures SetBytes(Bytes(x)) == if x < 0 then -x else x
    ensures SetBytes(Bytes(x)) == x <==> x >= 0
  {
    MagnitudeTrip(if x < 0 then -x else x);
  }

  // ---- Messages ----

  datatype Request = Request(
    msgType: int, source: int, signature: seq<byte>, mask: seq<byte>, publicKey: seq<byte>, bridgeEventHash: string)

  // The encodings that libraries provide.
  datatype Codec = Codec(
    sigOut: Signature -> seq<byte>, sigIn: seq<byte> -> Option<Signature>,
    keyOut: int -> seq<byte>, keyIn: seq<byte> -> Option<int>,
    reqOut: Request -> seq<byte>, reqIn: seq<byte> -> Option<Request>)

  ghost predicate Faithful(c: Codec)
  {
    && (forall s: Signature :: c.sigIn(c.sigOut(s)) == Some(s))
    && (forall k: int :: c.keyIn(c.keyOut(k)) == Some(k))
    && (forall r: Request :: c.reqIn(c.reqOut(r)) == Some(r))
  }

  function TypeCode(k: Kind): int
  {
    match k
    case Announce => 0
    case Prepare => 1
    case Prepared => 2
    case Other(code) => code
  }

  function KindOf(code: int): Kind
  {
    if code == 0 then Announce else if code == 1 then Prepare else if code == 2 then Prepared else Other(code)
  }

  // convertModelMessage
  function ToRequest(c: Codec, m: Message): Request
  {
    Request(TypeCode(m.kind), Int64(m.source), c.sigOut(m.sig), Bytes(m.mask), c.keyOut(m.pk), m.body)
  }

  // convertConsensusRequestSig: an undecodable signature or key becomes the zero value.
  function ToMessage(c: Codec, r: Request): Message
  {
    var sig := c.sigIn(r.signature);
    var pk := c.keyIn(r.publicKey);
    Message(Int64(r.source), KindOf(r.msgType), r.bridgeEventHash,
            if sig.Some? then sig.value else ZERO_SIGNATURE, SetBytes(r.mask), if pk.Some? then pk.value else 0)
  }

  function MessageToBytes(c: Codec, m: Message): seq<byte>
  {
    c.reqOut(ToRequest(c, m))
  }

  // None is the message that does not decode.
  function BytesToModelMessage(c: Codec, b: seq<byte>): Option<Message>
  {
    var r := c.reqIn(b);
    if r.Some? then Some(ToMessage(c, r.value)) else None
  }

  // A signature that does not decode is the zero one and fails every ack check;
  // a key that does not decode is zero.
  lemma UndecodableFails(c: Codec, r: Request, ep: Epoch)
    ensures c.keyIn(r.publicKey) == None ==> ToMessage(c, r).pk == 0
    ensures c.sigIn(r.signature) == None ==> ToMessage(c, r).sig == Signature(0, {})
    ensures var m := ToMessage(c, r);
      c.sigIn(r.signature) == None && m.source >= 0 ==> !AckVerified(ep, m)
  {
    var m := ToMessage(c, r);
    if c.sigIn(r.signature) == None && m.source >= 0 { OnesComplete(Single(m.source), m.source); }
  }

  // The type codes on the wire.
  lemma CodesOnTheWire(c: Codec, m: Message)
    ensures m.kind == Announce ==> ToRequest(c, m).msgType == 0
    ensures m.kind == Prepare ==> ToRequest(c, m).msgType == 1
    ensures m.kind == Prepared ==> ToRequest(c, m).msgType == 2
  {
  }

  // A message whose source is a 64-bit integer arrives unchanged, with a mask
  // of any size, so both sides reach the same verdict on it.
  lemma WireTrip(c: Codec, m: Message, ep: Epoch, threshold: nat)
    requires Faithful(c) && -0x8000_0000_0000_0000 <= m.source < 0x8000_0000_0000_0000
    requires m.kind.Other? ==> m.kind.code < 0 || m.kind.code > 2
    ensures BytesToModelMessage(c, MessageToBytes(c, m)) == Some(m)
    ensures Witnessed(ep, threshold, BytesToModelMessage(c, MessageToBytes(c, m)).value)
       <==> Witnessed(ep, threshold, m)
  {
    MagnitudeTrip(m.mask);
  }
}
