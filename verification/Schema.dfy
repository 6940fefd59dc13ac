// The database key schema (chain/rawdb/schema.go): a one-byte prefix, then a
// big-endian block number and a hash as the record needs them.
module Schema {
  import opened Limits

  type byte = x: int | 0 <= x < 256
  type Bytes = seq<byte>
  type Number = x: int | 0 <= x < TWO_64
  type Hash = h: Bytes | |h| == 32 witness seq(32, _ => 0)

  // The low k bytes of n, most significant first.
  function BigEndian(n: nat, k: nat): (r: Bytes)
    ensures |r| == k
    decreases k
  {
    if k == 0 then [] else BigEndian(n / 256, k - 1) + [n % 256]
  }

  function FromBigEndian(b: Bytes): nat
  {
    if b == [] then 0 else 256 * FromBigEndian(b[..|b| - 1]) + b[|b| - 1]
  }

  function Pow256(k: nat): nat
  {
    if k == 0 then 1 else 256 * Pow256(k - 1)
  }

  lemma {:induction false} BigEndianTrip(n: nat, k: nat)
    requires n < Pow256(k)
    ensures FromBigEndian(BigEndian(n, k)) == n
    decreases k
  {
    if k > 0 {
      BigEndianTrip(n / 256, k - 1);
      assert BigEndian(n, k)[..k - 1] == BigEndian(n / 256, k - 1);
    }
  }

  // Byte i from the end is byte i of the number.
  lemma {:induction false} BigEndianAt(n: nat, k: nat, i: nat)
    requires i < k
    ensures BigEndian(n, k)[k - 1 - i] == DropBytes(n, i) % 256
    decreases k
  {
    if i > 0 { BigEndianAt(n / 256, k - 1, i - 1); }
  }

  // encodeBlockNumber
  function EncodeBlockNumber(n: Number): (r: Bytes)
    ensures |r| == 8
  {
    BigEndian(n, 8)
  }

  lemma BlockNumberTrip(n: Number)
    ensures FromBigEndian(EncodeBlockNumber(n)) == n
  {
    assert Pow256(4) == 0x1_0000_0000;
    assert Pow256(8) == TWO_64;
    BigEndianTrip(n, 8);
  }

  // Every key the accessors use.
  datatype Key =
    | HeaderKey(number: Number, hash: Hash)
    | HeaderTDKey(number: Number, hash: Hash)
    | HeaderHashKey(number: Number)
    | HeaderNumberKey(hash: Hash)
    | BlockBodyKey(number: Number, hash: Hash)
    | BlockReceiptsKey(number: Number, hash: Hash)
    | TxLookupKey(hash: Hash)
    | HeadHeaderKey
    | HeadBlockKey
    | HeadFastBlockKey

  function Encode(k: Key): Bytes
  {
    match k
    case HeaderKey(n, h) => [104] + EncodeBlockNumber(n) + h
    case HeaderTDKey(n, h) => [104] + EncodeBlockNumber(n) + h + [116]
    case HeaderHashKey(n) => [104] + EncodeBlockNumber(n) + [110]
    case HeaderNumberKey(h) => [72] + h
    case BlockBodyKey(n, h) => [98] + EncodeBlockNumber(n) + h
    case BlockReceiptsKey(n, h) => [114] + EncodeBlockNumber(n) + h
    case TxLookupKey(h) => [108] + h
    case HeadHeaderKey => [76, 97, 115, 116, 72, 101, 97, 100, 101, 114]
    case HeadBlockKey => [76, 97, 115, 116, 66, 108, 111, 99, 107]
    case HeadFastBlockKey => [76, 97, 115, 116, 70, 97, 115, 116]
  }

  // The record an encoded key belongs to, read off its bytes.
  function Decode(b: Bytes): Key
  {
    var number := (if |b| >= 9 then FromBigEndian(b[1..9]) else 0) % TWO_64;
    var hash: Hash := if |b| >= 41 then b[9..41] else seq(32, _ => 0);
    var only: Hash := if |b| == 33 then b[1..33] else seq(32, _ => 0);
    if |b| == 0 then HeadHeaderKey
    else if b[0] == 104 then
      if |b| == 41 then HeaderKey(number, hash)
      else if |b| == 42 then HeaderTDKey(number, hash)
      else HeaderHashKey(number)
    else if b[0] == 72 then HeaderNumberKey(only)
    else if b[0] == 98 then BlockBodyKey(number, hash)
    else if b[0] == 114 then BlockReceiptsKey(number, hash)
    else if b[0] == 108 then TxLookupKey(only)
    else if |b| == 10 then HeadHeaderKey
    else if |b| == 9 then HeadBlockKey
    else HeadFastBlockKey
  }

  // Prefix, number and tail read off their bytes.
  lemma Layout(p: byte, n: Number, tail: Bytes, b: Bytes)
    requires b == [p] + EncodeBlockNumber(n) + tail
    ensures |b| == 9 + |tail| && b[0] == p && FromBigEndian(b[1..9]) == n && b[9..] == tail
  {
    assert b[1..9] == EncodeBlockNumber(n);
    BlockNumberTrip(n);
  }

  // The 32 bytes after prefix and number are the hash.
  lemma HashAt(p: byte, n: Number, h: Hash, rest: Bytes, b: Bytes)
    requires b == [p] + EncodeBlockNumber(n) + (h + rest)
    ensures |b| == 41 + |rest| && b[0] == p && FromBigEndian(b[1..9]) == n && b[9..41] == h
  {
    Layout(p, n, h + rest, b);
    assert b[9..41] == (h + rest)[..32] == h;
  }

  lemma HeaderTrip(n: Number, h: Hash)
    ensures Decode(Encode(HeaderKey(n, h))) == HeaderKey(n, h)
  {
    hide BigEndian;
    hide FromBigEndian;
    assert h == h + [];
    HashAt(104, n, h, [], Encode(HeaderKey(n, h)));
  }

  lemma HeaderTDTrip(n: Number, h: Hash)
    ensures Decode(Encode(HeaderTDKey(n, h))) == HeaderTDKey(n, h)
  {
    hide BigEndian;
    hide FromBigEndian;
    var b := Encode(HeaderTDKey(n, h));
    assert b == [104] + EncodeBlockNumber(n) + (h + [116]);
    HashAt(104, n, h, [116], b);
  }

  lemma HeaderHashTrip(n: Number)
    ensures Decode(Encode(HeaderHashKey(n))) == HeaderHashKey(n)
  {
    hide BigEndian;
    hide FromBigEndian;
    Layout(104, n, [110], Encode(HeaderHashKey(n)));
  }

  lemma BodyTrip(n: Number, h: Hash)
    ensures Decode(Encode(BlockBodyKey(n, h))) == BlockBodyKey(n, h)
  {
    hide BigEndian;
    hide FromBigEndian;
    assert h == h + [];
    HashAt(98, n, h, [], Encode(BlockBodyKey(n, h)));
  }

  lemma ReceiptsTrip(n: Number, h: Hash)
    ensures Decode(Encode(BlockReceiptsKey(n, h))) == BlockReceiptsKey(n, h)
  {
    hide BigEndian;
    hide FromBigEndian;
    assert h == h + [];
    HashAt(114, n, h, [], Encode(BlockReceiptsKey(n, h)));
  }

  lemma HashTrip(k: Key)
    requires k.HeaderNumberKey? || k.TxLookupKey?
    ensures Decode(Encode(k)) == k
  {
    assert Encode(k)[1..33] == k.hash;
  }

  lemma KeyTrip(k: Key)
    ensures Decode(Encode(k)) == k
  {
    match k {
      case HeaderKey(n, h) => HeaderTrip(n, h);
      case HeaderTDKey(n, h) => HeaderTDTrip(n, h);
      case HeaderHashKey(n) => HeaderHashTrip(n);
      case BlockBodyKey(n, h) => BodyTrip(n, h);
      case BlockReceiptsKey(n, h) => ReceiptsTrip(n, h);
      case HeaderNumberKey(_) => HashTrip(k);
      case TxLookupKey(_) => HashTrip(k);
      case _ =>
    }
  }

  function Ascii(s: string): Bytes
  {
    seq(|s|, i requires 0 <= i < |s| => (s[i] as int) % 256)
  }

  // The layout that other readers of the database rely on: the letters around
  // number and hash, and the number with its highest byte first.
  lemma KeyFormats(n: Number, h: Hash)
    ensures Encode(HeaderKey(n, h)) == Ascii("h") + EncodeBlockNumber(n) + h
    ensures Encode(HeaderTDKey(n, h)) == Ascii("h") + EncodeBlockNumber(n) + h + Ascii("t")
    ensures Encode(HeaderHashKey(n)) == Ascii("h") + EncodeBlockNumber(n) + Ascii("n")
    ensures Encode(HeaderNumberKey(h)) == Ascii("H") + h
    ensures Encode(BlockBodyKey(n, h)) == Ascii("b") + EncodeBlockNumber(n) + h
    ensures Encode(BlockReceiptsKey(n, h)) == Ascii("r") + EncodeBlockNumber(n) + h
    ensures Encode(TxLookupKey(h)) == Ascii("l") + h
    ensures Encode(HeadHeaderKey) == Ascii("LastHeader") && Encode(HeadBlockKey) == Ascii("LastBlock")
    ensures Encode(HeadFastBlockKey) == Ascii("LastFast")
    ensures forall i: nat :: i < 8 ==> EncodeBlockNumber(n)[7 - i] == DropBytes(n, i) % 256
  {
    hide BigEndian;
    assert Ascii("h") == [104] && Ascii("t") == [116] && Ascii("n") == [110] && Ascii("H") == [72];
    assert Ascii("b") == [98] && Ascii("r") == [114] && Ascii("l") == [108];
    assert Ascii("LastHeader") == [76, 97, 115, 116, 72, 101, 97, 100, 101, 114];
    assert Ascii("LastBlock") == [76, 97, 115, 116, 66, 108, 111, 99, 107];
    assert Ascii("LastFast") == [76, 97, 115, 116, 70, 97, 115, 116];
    forall i: nat | i < 8
      ensures EncodeBlockNumber(n)[7 - i] == DropBytes(n, i) % 256
    {
      BigEndianAt(n, 8, i);
    }
  }

  // Two different records never share a key: injective within each kind and
  // disjoint across kinds.
  lemma KeysDiffer(j: Key, k: Key)
    requires Encode(j) == Encode(k)
    ensures j == k
  {
    KeyTrip(j);
    KeyTrip(k);
  }
}
