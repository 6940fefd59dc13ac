// Accessors over the key-value store (chain/rawdb/accessors_chain.go,
// chain/rawdb/indexes.go): block bodies, headers, canonical hashes, total
// difficulties and the index from transaction hash to block position.
module RawDb {
  import opened Limits
  import opened Options
  import opened Schema

  // Transaction.Hash serializes the exported field only, so it depends on the
  // origin data and not on nonce and chainId.
  datatype Tx = Tx(origin: Bytes, nonce: Number, chainId: Number)
  datatype Block = Block(number: Number, hash: Hash, txs: seq<Tx>, rest: Bytes)
  datatype Header = Header(parentHash: Hash, number: Number, rest: Bytes)
  datatype Entry = Entry(blockHash: Hash, blockIndex: Number, index: nat)

  // RLP and SHA-256 as the accessors see them.
  datatype Lib = Lib(
    blockOut: Block -> Bytes, blockIn: Bytes -> Option<Block>,
    entryOut: Entry -> Bytes, entryIn: Bytes -> Option<Entry>,
    headerOut: Header -> Bytes, headerIn: Bytes -> Option<Header>,
    sum: Bytes -> Hash)

  function ZeroHash(): (h: Hash)
    ensures forall i :: 0 <= i < |h| ==> h[i] == 0
  {
    seq(32, _ => 0)
  }

  function TxHash(lib: Lib, tx: Tx): Hash
  {
    lib.sum(tx.origin)
  }

  // What is left of a transaction after encoding: unexported fields are zero.
  function Stripped(tx: Tx): Tx
  {
    Tx(tx.origin, 0, 0)
  }

  function Stored(b: Block): Block
  {
    b.(txs := seq(|b.txs|, i requires 0 <= i < |b.txs| => Stripped(b.txs[i])))
  }

  ghost predicate Faithful(lib: Lib)
  {
    && (forall b :: lib.blockOut(b) != [] && lib.blockIn(lib.blockOut(b)) == Some(Stored(b)))
    && (forall e :: lib.entryOut(e) != [] && lib.entryIn(lib.entryOut(e)) == Some(e))
    && (forall h :: lib.headerOut(h) != [] && lib.headerIn(lib.headerOut(h)) == Some(h))
  }

  type Store = map<Bytes, Bytes>

  function Get(kv: Store, k: Key): Bytes
  {
    if Encode(k) in kv then kv[Encode(k)] else []
  }

  // ---- Writes ----

  datatype Write = Put(key: Key, value: Bytes) | Delete(key: Key)

  function Apply(kv: Store, w: Write): Store
  {
    match w
    case Put(k, v) => kv[Encode(k) := v]
    case Delete(k) => kv - {Encode(k)}
  }

  function ApplyAll(kv: Store, ws: seq<Write>): Store
  {
    if ws == [] then kv else Apply(ApplyAll(kv, ws[..|ws| - 1]), ws[|ws| - 1])
  }

  // What the last write to a record left there.
  function Latest(ws: seq<Write>, k: Key): Bytes
  {
    if ws == [] then []
    else
      var w := ws[|ws| - 1];
      if w.key == k then (if w.Put? then w.value else []) else Latest(ws[..|ws| - 1], k)
  }

  // The byte-keyed store behaves like one keyed by records: no write to one
  // record is visible at another.
  lemma {:induction false} StoreKeepsRecordsApart(ws: seq<Write>, k: Key)
    ensures Get(ApplyAll(map[], ws), k) == Latest(ws, k)
    decreases |ws|
  {
    if ws != [] {
      StoreKeepsRecordsApart(ws[..|ws| - 1], k);
      if Encode(ws[|ws| - 1].key) == Encode(k) { KeysDiffer(ws[|ws| - 1].key, k); }
    }
  }

  predicate Touches(ws: seq<Write>, k: Key)
  {
    exists i :: 0 <= i < |ws| && ws[i].key == k
  }

  lemma {:induction false} LatestConcat(us: seq<Write>, vs: seq<Write>, k: Key)
    ensures Latest(us + vs, k) == if Touches(vs, k) then Latest(vs, k) else Latest(us, k)
    decreases |vs|
  {
    if vs == [] {
      assert us + vs == us;
    } else {
      var n := |vs| - 1;
      assert (us + vs)[..|us + vs| - 1] == us + vs[..n];
      LatestConcat(us, vs[..n], k);
      if Touches(vs, k) && vs[n].key != k {
        var i :| 0 <= i < |vs| && vs[i].key == k;
        assert vs[..n][i].key == k;
      }
      if Touches(vs[..n], k) {
        var i :| 0 <= i < n && vs[..n][i].key == k;
        assert vs[i].key == k;
      }
    }
  }

  // ---- Operations ----

  datatype Op =
    | PutBlock(hash: Hash, number: Number, block: Block)
    | IndexBlock(block: Block)
    | DropBody(hash: Hash, number: Number)
    | SaveHeader(header: Header)
    | DropHeader(hash: Hash, number: Number)
    | SetCanonical(hash: Hash, number: Number)
    | DropCanonical(number: Number)
    | SetTd(hash: Hash, number: Number, td: Bytes)
    | DropTd(hash: Hash, number: Number)
    | DropReceipts(hash: Hash, number: Number)
    | SetHead(key: Key, hash: Hash)

  function LookupWrite(lib: Lib, b: Block, i: nat): Write
    requires i < |b.txs|
  {
    Put(TxLookupKey(TxHash(lib, b.txs[i])), lib.entryOut(Entry(b.hash, b.number, i)))
  }

  // The lookup entries of the first k transactions.
  function LookupWrites(lib: Lib, b: Block, k: nat): (ws: seq<Write>)
    requires k <= |b.txs|
    ensures |ws| == k
    ensures forall i :: 0 <= i < k ==> ws[i] == LookupWrite(lib, b, i)
  {
    seq(k, i requires 0 <= i < k => LookupWrite(lib, b, i))
  }

  function OpWrites(lib: Lib, op: Op): seq<Write>
  {
    match op
    case PutBlock(h, n, b) => [Put(BlockBodyKey(n, h), lib.blockOut(b))]
    case IndexBlock(b) => LookupWrites(lib, b, |b.txs|)
    case DropBody(h, n) => [Delete(BlockBodyKey(n, h))]
    case SaveHeader(h) =>
      [Put(HeaderNumberKey(h.parentHash), EncodeBlockNumber(h.number)),
       Put(HeaderKey(h.number, h.parentHash), lib.headerOut(h))]
    case DropHeader(h, n) => [Delete(HeaderKey(n, h)), Delete(HeaderNumberKey(h))]
    case SetCanonical(h, n) => [Put(HeaderHashKey(n), h)]
    case DropCanonical(n) => [Delete(HeaderHashKey(n))]
    case SetTd(h, n, td) => [Put(HeaderTDKey(n, h), td)]
    case DropTd(h, n) => [Delete(HeaderTDKey(n, h))]
    case DropReceipts(h, n) => [Delete(BlockReceiptsKey(n, h))]
    case SetHead(k, h) => if IsHead(k) then [Put(k, h)] else []
  }

  function AllWrites(lib: Lib, ops: seq<Op>): seq<Write>
  {
    if ops == [] then [] else AllWrites(lib, ops[..|ops| - 1]) + OpWrites(lib, ops[|ops| - 1])
  }

  // ---- Reads ----

  datatype Lookup = Missing | Fatal | Found(tx: Tx, blockHash: Hash, number: Number, index: nat)

  // ReadTxLookupEntry; the zero entry when there is none.
  function ReadTxLookupEntry(lib: Lib, kv: Store, h: Hash): Entry
  {
    var data := Get(kv, TxLookupKey(h));
    var entry := lib.entryIn(data);
    if data == [] || entry == None then Entry(ZeroHash(), 0, 0) else entry.value
  }

  // ReadBlock; None where the source stops the process.
  function ReadBlock(lib: Lib, kv: Store, h: Hash, n: Number): Option<Block>
  {
    var data := Get(kv, BlockBodyKey(n, h));
    if data == [] then None else lib.blockIn(data)
  }

  function ReadTransaction(lib: Lib, kv: Store, h: Hash): Lookup
  {
    var e := ReadTxLookupEntry(lib, kv, h);
    if e.blockHash == ZeroHash() then Missing
    else
      var b := ReadBlock(lib, kv, e.blockHash, e.blockIndex);
      if b == None || e.index >= |b.value.txs| then Fatal
      else Found(b.value.txs[e.index], e.blockHash, e.blockIndex, e.index)
  }

  function ReadHeader(lib: Lib, kv: Store, h: Hash, n: Number): Option<Header>
  {
    var data := Get(kv, HeaderKey(n, h));
    if data == [] then None else lib.headerIn(data)
  }

  function ReadHeaderNumber(kv: Store, h: Hash): Option<Number>
  {
    var data := Get(kv, HeaderNumberKey(h));
    if |data| != 8 then None else Some(FromBigEndian(data) % TWO_64)
  }

  function ReadCanonicalHash(kv: Store, n: Number): Bytes
  {
    var data := Get(kv, HeaderHashKey(n));
    if data == [] then ZeroHash() else data
  }

  // ---- The index agrees with the stored blocks ----

  // The last position below k in the block that holds the hash.
  function LastIndex(lib: Lib, b: Block, h: Hash, k: nat): (r: Option<nat>)
    requires k <= |b.txs|
    ensures r.Some? ==> r.value < k && TxHash(lib, b.txs[r.value]) == h
    ensures r.None? ==> forall i :: 0 <= i < k ==> TxHash(lib, b.txs[i]) != h
  {
    if k == 0 then None
    else if TxHash(lib, b.txs[k - 1]) == h then Some(k - 1)
    else LastIndex(lib, b, h, k - 1)
  }

  datatype Place = Place(block: Block, index: nat)

  // The last indexed block that holds the hash, and where.
  function LastPlace(lib: Lib, ops: seq<Op>, h: Hash): (p: Option<Place>)
    ensures p.Some? ==> p.value.index < |p.value.block.txs| && TxHash(lib, p.value.block.txs[p.value.index]) == h
  {
    if ops == [] then None
    else
      var op := ops[|ops| - 1];
      if op.IndexBlock? && LastIndex(lib, op.block, h, |op.block.txs|).Some?
      then Some(Place(op.block, LastIndex(lib, op.block, h, |op.block.txs|).value))
      else LastPlace(lib, ops[..|ops| - 1], h)
  }

  // The last block put under a number and hash and not dropped since.
  function LastBody(ops: seq<Op>, n: Number, h: Hash): Option<Block>
  {
    if ops == [] then None
    else
      var op := ops[|ops| - 1];
      if op.PutBlock? && op.number == n && op.hash == h then Some(op.block)
      else if op.DropBody? && op.number == n && op.hash == h then None
      else LastBody(ops[..|ops| - 1], n, h)
  }

  lemma {:induction false} LookupWritten(lib: Lib, b: Block, h: Hash, k: nat)
    requires k <= |b.txs|
    ensures Touches(LookupWrites(lib, b, k), TxLookupKey(h)) <==> LastIndex(lib, b, h, k).Some?
    ensures LastIndex(lib, b, h, k).Some? ==>
      Latest(LookupWrites(lib, b, k), TxLookupKey(h))
        == lib.entryOut(Entry(b.hash, b.number, LastIndex(lib, b, h, k).value))
    decreases k
  {
    if k > 0 {
      LookupWritten(lib, b, h, k - 1);
      var ws := LookupWrites(lib, b, k);
      assert ws[..k - 1] == LookupWrites(lib, b, k - 1);
      if TxHash(lib, b.txs[k - 1]) == h {
        assert ws[k - 1].key == TxLookupKey(h);
      }
    }
  }

  // What one operation does to a lookup record and to a body record.
  lemma OpOnLookup(lib: Lib, before: seq<Write>, op: Op, h: Hash)
    ensures Latest(before + OpWrites(lib, op), TxLookupKey(h)) ==
      if op.IndexBlock? && LastIndex(lib, op.block, h, |op.block.txs|).Some?
      then lib.entryOut(Entry(op.block.hash, op.block.number, LastIndex(lib, op.block, h, |op.block.txs|).value))
      else Latest(before, TxLookupKey(h))
  {
    LatestConcat(before, OpWrites(lib, op), TxLookupKey(h));
    hide Latest;
    hide LastIndex;
    if op.IndexBlock? { LookupWritten(lib, op.block, h, |op.block.txs|); }
  }

  lemma OpOnBody(lib: Lib, before: seq<Write>, op: Op, n: Number, h: Hash)
    ensures Latest(before + OpWrites(lib, op), BlockBodyKey(n, h)) ==
      if op.PutBlock? && op.number == n && op.hash == h then lib.blockOut(op.block)
      else if op.DropBody? && op.number == n && op.hash == h then []
      else Latest(before, BlockBodyKey(n, h))
  {
    var k := BlockBodyKey(n, h);
    LatestConcat(before, OpWrites(lib, op), k);
    if (op.PutBlock? || op.DropBody?) && op.number == n && op.hash == h {
      assert OpWrites(lib, op)[0].key == k;
    }
  }

  lemma {:induction false} LookupRecord(lib: Lib, ops: seq<Op>, h: Hash)
    ensures var p := LastPlace(lib, ops, h);
      Latest(AllWrites(lib, ops), TxLookupKey(h)) ==
        if p.Some? then lib.entryOut(Entry(p.value.block.hash, p.value.block.number, p.value.index)) else []
    decreases |ops|
  {
    if ops != [] {
      LookupRecord(lib, ops[..|ops| - 1], h);
      OpOnLookup(lib, AllWrites(lib, ops[..|ops| - 1]), ops[|ops| - 1], h);
    }
  }

  lemma {:induction false} BodyRecord(lib: Lib, ops: seq<Op>, n: Number, h: Hash)
    ensures var b := LastBody(ops, n, h);
      Latest(AllWrites(lib, ops), BlockBodyKey(n, h)) == if b.Some? then lib.blockOut(b.value) else []
    decreases |ops|
  {
    if ops != [] {
      BodyRecord(lib, ops[..|ops| - 1], n, h);
      OpOnBody(lib, AllWrites(lib, ops[..|ops| - 1]), ops[|ops| - 1], n, h);
    }
  }

  // A block stored under the number and hash of an indexed one.
  predicate SameName(a: Op, b: Op)
  {
    a.PutBlock? && b.IndexBlock? && a.number == b.block.number && a.hash == b.block.hash
  }

  // A block is named by its number and hash: blocks handled under one name hold
  // the same transactions, and no hash is zero.
  ghost predicate WellNamed(ops: seq<Op>)
  {
    && (forall i :: 0 <= i < |ops| && ops[i].IndexBlock? ==> ops[i].block.hash != ZeroHash())
    && (forall i, j :: 0 <= i < |ops| && 0 <= j < |ops| && SameName(ops[i], ops[j]) ==>
        ops[i].block.txs == ops[j].block.txs)
  }

  lemma {:induction false} PlaceIsIndexed(lib: Lib, ops: seq<Op>, h: Hash) returns (i: nat)
    requires LastPlace(lib, ops, h).Some?
    ensures i < |ops| && ops[i] == IndexBlock(LastPlace(lib, ops, h).value.block)
    decreases |ops|
  {
    var op := ops[|ops| - 1];
    if op.IndexBlock? && LastIndex(lib, op.block, h, |op.block.txs|).Some? {
      i := |ops| - 1;
    } else {
      i := PlaceIsIndexed(lib, ops[..|ops| - 1], h);
    }
  }

  lemma {:induction false} BodyIsPut(ops: seq<Op>, n: Number, h: Hash) returns (i: nat)
    requires LastBody(ops, n, h).Some?
    ensures i < |ops| && ops[i] == PutBlock(h, n, LastBody(ops, n, h).value)
    decreases |ops|
  {
    var op := ops[|ops| - 1];
    if op.PutBlock? && op.number == n && op.hash == h {
      i := |ops| - 1;
    } else {
      i := BodyIsPut(ops[..|ops| - 1], n, h);
    }
  }

  // What looking up a hash must give after a series of operations: missing if it
  // was never indexed, fatal if the body of the last block indexed with it is
  // not there, else the transaction at that place without nonce and chain id.
  function Expected(lib: Lib, ops: seq<Op>, h: Hash): Lookup
  {
    match LastPlace(lib, ops, h)
    case None => Missing
    case Some(p) =>
      if LastBody(ops, p.block.number, p.block.hash) == None then Fatal
      else Found(Stripped(p.block.txs[p.index]), p.block.hash, p.block.number, p.index)
  }

  lemma EntryRead(lib: Lib, ops: seq<Op>, h: Hash)
    requires Faithful(lib)
    ensures var p := LastPlace(lib, ops, h);
      ReadTxLookupEntry(lib, ApplyAll(map[], AllWrites(lib, ops)), h) ==
        if p.Some? then Entry(p.value.block.hash, p.value.block.number, p.value.index) else Entry(ZeroHash(), 0, 0)
  {
    StoreKeepsRecordsApart(AllWrites(lib, ops), TxLookupKey(h));
    LookupRecord(lib, ops, h);
    hide AllWrites;
    hide Latest;
    hide LastPlace;
    hide Get;
  }

  lemma BodyRead(lib: Lib, ops: seq<Op>, n: Number, h: Hash)
    requires Faithful(lib)
    ensures var b := LastBody(ops, n, h);
      ReadBlock(lib, ApplyAll(map[], AllWrites(lib, ops)), h, n) == if b.Some? then Some(Stored(b.value)) else None
  {
    StoreKeepsRecordsApart(AllWrites(lib, ops), BlockBodyKey(n, h));
    BodyRecord(lib, ops, n, h);
    hide AllWrites;
    hide Latest;
    hide LastBody;
    hide Get;
  }

  // After any series of operations ReadTransaction gives just that, and a
  // transaction that is found has the hash that was asked for.
  lemma LookupFindsLastIndexed(lib: Lib, ops: seq<Op>, h: Hash)
    requires Faithful(lib) && WellNamed(ops)
    ensures var r := ReadTransaction(lib, ApplyAll(map[], AllWrites(lib, ops)), h);
      r == Expected(lib, ops, h) && (r.Found? ==> TxHash(lib, r.tx) == h)
  {
    hide ApplyAll;
    hide AllWrites;
    hide LastPlace;
    hide LastBody;
    hide ReadTxLookupEntry;
    hide ReadBlock;
    hide Faithful;
    EntryRead(lib, ops, h);
    if LastPlace(lib, ops, h).Some? {
      var p := LastPlace(lib, ops, h).value;
      var i := PlaceIsIndexed(lib, ops, h);
      BodyRead(lib, ops, p.block.number, p.block.hash);
      if LastBody(ops, p.block.number, p.block.hash).Some? {
        var j := BodyIsPut(ops, p.block.number, p.block.hash);
        assert SameName(ops[j], ops[i]);
      }
    }
  }

  // The lookup succeeds exactly when the hash was indexed and the body of the
  // block it was last indexed with is still stored.
  lemma LookupSucceedsIff(lib: Lib, ops: seq<Op>, h: Hash)
    requires Faithful(lib) && WellNamed(ops)
    ensures var p := LastPlace(lib, ops, h);
      ReadTransaction(lib, ApplyAll(map[], AllWrites(lib, ops)), h).Found? <==>
        p.Some? && LastBody(ops, p.value.block.number, p.value.block.hash).Some?
  {
    LookupFindsLastIndexed(lib, ops, h);
  }

  // Operation i indexed block b and position k is the last one with the hash h,
  // in the block and in all blocks indexed later.
  ghost predicate IndexedLast(lib: Lib, ops: seq<Op>, i: nat, b: Block, k: nat, h: Hash)
  {
    && i < |ops| && ops[i] == IndexBlock(b) && k < |b.txs| && lib.sum(b.txs[k].origin) == h
    && (forall l :: k < l < |b.txs| ==> lib.sum(b.txs[l].origin) != h)
    && (forall j, l :: i < j < |ops| && ops[j].IndexBlock? && 0 <= l < |ops[j].block.txs| ==>
        lib.sum(ops[j].block.txs[l].origin) != h)
  }

  lemma {:induction false} LastIndexIs(lib: Lib, b: Block, h: Hash, k: nat, m: nat)
    requires k < m <= |b.txs| && lib.sum(b.txs[k].origin) == h
    requires forall l :: k < l < m ==> lib.sum(b.txs[l].origin) != h
    ensures LastIndex(lib, b, h, m) == Some(k)
    decreases m
  {
    if k < m - 1 { LastIndexIs(lib, b, h, k, m - 1); }
  }

  lemma {:induction false} LastPlaceIs(lib: Lib, ops: seq<Op>, i: nat, b: Block, k: nat, h: Hash)
    requires IndexedLast(lib, ops, i, b, k, h)
    ensures LastPlace(lib, ops, h) == Some(Place(b, k))
    decreases |ops|
  {
    var n := |ops| - 1;
    if i == n {
      LastIndexIs(lib, b, h, k, |b.txs|);
    } else {
      assert IndexedLast(lib, ops[..n], i, b, k, h);
      LastPlaceIs(lib, ops[..n], i, b, k, h);
    }
  }

  lemma {:induction false} BodyStays(ops: seq<Op>, p: nat, n: Number, h: Hash)
    requires p < |ops| && ops[p].PutBlock? && ops[p].number == n && ops[p].hash == h
    requires forall j :: p < j < |ops| && ops[j].DropBody? ==> ops[j].number != n || ops[j].hash != h
    ensures LastBody(ops, n, h).Some?
    decreases |ops|
  {
    if p < |ops| - 1 { BodyStays(ops[..|ops| - 1], p, n, h); }
  }

  // A transaction of a block that was indexed and stored is found under the hash
  // of its origin data, as long as no later indexed one shares that hash and the
  // body was not dropped since it was stored.
  lemma IndexedIsFound(lib: Lib, ops: seq<Op>, i: nat, p: nat, b: Block, k: nat)
    requires Faithful(lib) && WellNamed(ops) && k < |b.txs|
    requires IndexedLast(lib, ops, i, b, k, lib.sum(b.txs[k].origin))
    requires p < |ops| && ops[p].PutBlock? && ops[p].number == b.number && ops[p].hash == b.hash
    requires forall j :: p < j < |ops| && ops[j].DropBody? ==> ops[j].number != b.number || ops[j].hash != b.hash
    ensures ReadTransaction(lib, ApplyAll(map[], AllWrites(lib, ops)), lib.sum(b.txs[k].origin))
         == Found(Tx(b.txs[k].origin, 0, 0), b.hash, b.number, k)
  {
    var h := lib.sum(b.txs[k].origin);
    LastPlaceIs(lib, ops, i, b, k, h);
    BodyStays(ops, p, b.number, b.hash);
    LookupFindsLastIndexed(lib, ops, h);
  }

  // ---- Headers ----

  // An operation on the header record of a number and hash; WriteHeader files a
  // header under its parent's hash.
  predicate OnHeader(op: Op, n: Number, h: Hash)
  {
    || (op.SaveHeader? && op.header.number == n && op.header.parentHash == h)
    || (op.DropHeader? && op.number == n && op.hash == h)
  }

  // An operation on the number record of a hash, whatever the number.
  predicate OnNumber(op: Op, h: Hash)
  {
    (op.SaveHeader? && op.header.parentHash == h) || (op.DropHeader? && op.hash == h)
  }

  // The header last saved under a number and parent and not dropped since.
  function LastHeader(ops: seq<Op>, n: Number, h: Hash): Option<Header>
  {
    if ops == [] then None
    else
      var op := ops[|ops| - 1];
      if OnHeader(op, n, h) then (if op.SaveHeader? then Some(op.header) else None)
      else LastHeader(ops[..|ops| - 1], n, h)
  }

  function LastNumber(ops: seq<Op>, h: Hash): Option<Number>
  {
    if ops == [] then None
    else
      var op := ops[|ops| - 1];
      if OnNumber(op, h) then (if op.SaveHeader? then Some(op.header.number) else None)
      else LastNumber(ops[..|ops| - 1], h)
  }

  lemma LatestOfTwo(ws: seq<Write>, k: Key)
    requires |ws| == 2
    ensures Latest(ws, k) ==
      if ws[1].key == k then (if ws[1].Put? then ws[1].value else [])
      else if ws[0].key == k && ws[0].Put? then ws[0].value
      else []
  {
    var first := ws[..1];
    assert first == [ws[0]] && first[..0] == [];
    assert Latest(first, k) == if ws[0].key == k && ws[0].Put? then ws[0].value else [];
  }

  lemma OpOnHeader(lib: Lib, before: seq<Write>, op: Op, n: Number, h: Hash)
    ensures Latest(before + OpWrites(lib, op), HeaderKey(n, h)) ==
      if !OnHeader(op, n, h) then Latest(before, HeaderKey(n, h))
      else if op.SaveHeader? then lib.headerOut(op.header)
      else []
  {
    var ws, k := OpWrites(lib, op), HeaderKey(n, h);
    LatestConcat(before, ws, k);
    hide Latest;
    if OnHeader(op, n, h) {
      assert ws[if op.SaveHeader? then 1 else 0].key == k;
      LatestOfTwo(ws, k);
    }
  }

  lemma OpOnNumber(lib: Lib, before: seq<Write>, op: Op, h: Hash)
    ensures Latest(before + OpWrites(lib, op), HeaderNumberKey(h)) ==
      if !OnNumber(op, h) then Latest(before, HeaderNumberKey(h))
      else if op.SaveHeader? then EncodeBlockNumber(op.header.number)
      else []
  {
    var ws, k := OpWrites(lib, op), HeaderNumberKey(h);
    LatestConcat(before, ws, k);
    hide Latest;
    if OnNumber(op, h) {
      assert ws[if op.SaveHeader? then 0 else 1].key == k;
      LatestOfTwo(ws, k);
    }
  }

  // After any operations ReadHeader gives the header last saved under that
  // number and parent, and nothing if there is none or it was dropped.
  lemma {:induction false} HeaderIsLastSaved(lib: Lib, ops: seq<Op>, n: Number, h: Hash)
    requires Faithful(lib)
    ensures ReadHeader(lib, ApplyAll(map[], AllWrites(lib, ops)), h, n) == LastHeader(ops, n, h)
    decreases |ops|
  {
    hide OpWrites;
    StoreKeepsRecordsApart(AllWrites(lib, ops), HeaderKey(n, h));
    if ops != [] {
      var init := ops[..|ops| - 1];
      HeaderIsLastSaved(lib, init, n, h);
      StoreKeepsRecordsApart(AllWrites(lib, init), HeaderKey(n, h));
      OpOnHeader(lib, AllWrites(lib, init), ops[|ops| - 1], n, h);
    }
  }

  lemma {:induction false} NumberRecord(lib: Lib, ops: seq<Op>, h: Hash)
    ensures var n := LastNumber(ops, h);
      Latest(AllWrites(lib, ops), HeaderNumberKey(h)) == if n.Some? then EncodeBlockNumber(n.value) else []
    decreases |ops|
  {
    hide OpWrites;
    hide EncodeBlockNumber;
    if ops != [] {
      NumberRecord(lib, ops[..|ops| - 1], h);
      OpOnNumber(lib, AllWrites(lib, ops[..|ops| - 1]), ops[|ops| - 1], h);
    }
  }

  lemma NumberOf(n: Number)
    ensures |EncodeBlockNumber(n)| == 8 && FromBigEndian(EncodeBlockNumber(n)) % TWO_64 == n
  {
    BlockNumberTrip(n);
  }

  // The same for ReadHeaderNumber, whose record does not depend on the number.
  lemma NumberIsLastSaved(lib: Lib, ops: seq<Op>, h: Hash)
    ensures ReadHeaderNumber(ApplyAll(map[], AllWrites(lib, ops)), h) == LastNumber(ops, h)
  {
    hide FromBigEndian;
    hide EncodeBlockNumber;
    hide AllWrites;
    hide ApplyAll;
    hide Get;
    hide Latest;
    hide LastNumber;
    StoreKeepsRecordsApart(AllWrites(lib, ops), HeaderNumberKey(h));
    NumberRecord(lib, ops, h);
    var n := LastNumber(ops, h);
    if n.Some? { NumberOf(n.value); }
  }

  // Operation i saved the header and no later one touched its record.
  ghost predicate SavedAt(ops: seq<Op>, hd: Header, i: nat)
  {
    i < |ops| && ops[i] == SaveHeader(hd) && forall j :: i < j < |ops| ==> !OnHeader(ops[j], hd.number, hd.parentHash)
  }

  lemma {:induction false} LastHeaderIff(ops: seq<Op>, hd: Header)
    ensures LastHeader(ops, hd.number, hd.parentHash) == Some(hd) <==> exists i: nat :: SavedAt(ops, hd, i)
    decreases |ops|
  {
    if ops != [] {
      var n := |ops| - 1;
      var init, op := ops[..n], ops[n];
      LastHeaderIff(init, hd);
      if OnHeader(op, hd.number, hd.parentHash) {
        if op == SaveHeader(hd) { assert SavedAt(ops, hd, n); }
        if i: nat :| SavedAt(ops, hd, i) { assert i == n; }
      } else {
        if i: nat :| SavedAt(ops, hd, i) { assert SavedAt(init, hd, i); }
        if i: nat :| SavedAt(init, hd, i) { assert SavedAt(ops, hd, i); }
      }
    }
  }

  // A header reads back exactly when it was saved and no later save under the
  // same parent and number, and no later drop, came in between.
  lemma HeaderReadsBack(lib: Lib, ops: seq<Op>, hd: Header)
    requires Faithful(lib)
    ensures ReadHeader(lib, ApplyAll(map[], AllWrites(lib, ops)), hd.parentHash, hd.number) == Some(hd)
       <==> exists i: nat :: SavedAt(ops, hd, i)
  {
    HeaderIsLastSaved(lib, ops, hd.number, hd.parentHash);
    LastHeaderIff(ops, hd);
  }

  // Two children of one block at one height: the second replaces the first.
  lemma SiblingReplaces(lib: Lib, ops: seq<Op>, a: Header, b: Header)
    requires Faithful(lib) && a != b && a.number == b.number && a.parentHash == b.parentHash
    ensures var kv := ApplyAll(map[], AllWrites(lib, ops + [SaveHeader(a), SaveHeader(b)]));
      ReadHeader(lib, kv, a.parentHash, a.number) == Some(b)
  {
    var all := ops + [SaveHeader(a), SaveHeader(b)];
    assert all[|all| - 1] == SaveHeader(b);
    HeaderIsLastSaved(lib, all, a.number, a.parentHash);
  }

  // The hash last set for a block number and not dropped since.
  function LastCanonical(ops: seq<Op>, n: Number): Bytes
  {
    if ops == [] then ZeroHash()
    else
      var op := ops[|ops| - 1];
      if op.SetCanonical? && op.number == n then op.hash
      else if op.DropCanonical? && op.number == n then ZeroHash()
      else LastCanonical(ops[..|ops| - 1], n)
  }

  lemma OpOnCanonical(lib: Lib, before: seq<Write>, op: Op, n: Number)
    ensures Latest(before + OpWrites(lib, op), HeaderHashKey(n)) ==
      if op.SetCanonical? && op.number == n then op.hash
      else if op.DropCanonical? && op.number == n then []
      else Latest(before, HeaderHashKey(n))
  {
    LatestConcat(before, OpWrites(lib, op), HeaderHashKey(n));
    if (op.SetCanonical? || op.DropCanonical?) && op.number == n {
      assert OpWrites(lib, op)[0].key == HeaderHashKey(n);
    }
  }

  // ReadCanonicalHash returns the hash last set, and the zero hash for a number
  // never set or dropped since; no other operation interferes.
  lemma {:induction false} CanonicalIsLastSet(lib: Lib, ops: seq<Op>, n: Number)
    ensures ReadCanonicalHash(ApplyAll(map[], AllWrites(lib, ops)), n) == LastCanonical(ops, n)
    decreases |ops|
  {
    StoreKeepsRecordsApart(AllWrites(lib, ops), HeaderHashKey(n));
    if ops != [] {
      var init := ops[..|ops| - 1];
      CanonicalIsLastSet(lib, init, n);
      StoreKeepsRecordsApart(AllWrites(lib, init), HeaderHashKey(n));
      OpOnCanonical(lib, AllWrites(lib, init), ops[|ops| - 1], n);
    }
  }

  // ---- Total difficulties, head pointers and receipts ----

  predicate IsHead(k: Key)
  {
    k.HeadHeaderKey? || k.HeadBlockKey? || k.HeadFastBlockKey?
  }

  // What the accessors last set in such a record and did not drop since; they
  // write no receipts.
  function LastSet(ops: seq<Op>, k: Key): Bytes
  {
    if ops == [] then []
    else
      var op := ops[|ops| - 1];
      if op.SetTd? && k == HeaderTDKey(op.number, op.hash) then op.td
      else if op.DropTd? && k == HeaderTDKey(op.number, op.hash) then []
      else if op.SetHead? && k == op.key && IsHead(k) then op.hash
      else LastSet(ops[..|ops| - 1], k)
  }

  lemma LatestOfOne(w: Write, k: Key)
    ensures Latest([w], k) == if w.key == k && w.Put? then w.value else []
    ensures Touches([w], k) <==> w.key == k
  {
    assert [w][..0] == [] && [w][0] == w;
  }

  lemma UntouchedBy(lib: Lib, op: Op, k: Key)
    requires k.HeaderTDKey? || k.BlockReceiptsKey? || IsHead(k)
    requires op.PutBlock? || op.IndexBlock? || op.DropBody? || op.SaveHeader? || op.DropHeader?
      || op.SetCanonical? || op.DropCanonical? || (op.SetHead? && !IsHead(op.key))
    ensures !Touches(OpWrites(lib, op), k)
  {
  }

  lemma OpOnOther(lib: Lib, before: seq<Write>, op: Op, k: Key)
    requires k.HeaderTDKey? || k.BlockReceiptsKey? || IsHead(k)
    ensures Latest(before + OpWrites(lib, op), k) ==
      if op.SetTd? && k == HeaderTDKey(op.number, op.hash) then op.td
      else if op.DropTd? && k == HeaderTDKey(op.number, op.hash) then []
      else if op.SetHead? && k == op.key && IsHead(k) then op.hash
      else if op.DropReceipts? && k == BlockReceiptsKey(op.number, op.hash) then []
      else Latest(before, k)
  {
    hide Latest;
    hide Touches;
    LatestConcat(before, OpWrites(lib, op), k);
    if op.SetTd? || op.DropTd? || op.DropReceipts? || (op.SetHead? && IsHead(op.key)) {
      LatestOfOne(OpWrites(lib, op)[0], k);
      assert OpWrites(lib, op) == [OpWrites(lib, op)[0]];
    } else {
      UntouchedBy(lib, op, k);
    }
  }

  // Each reads as it was last set, whatever else was done.
  lemma {:induction false} OtherIsLastSet(lib: Lib, ops: seq<Op>, k: Key)
    requires k.HeaderTDKey? || k.BlockReceiptsKey? || IsHead(k)
    ensures Get(ApplyAll(map[], AllWrites(lib, ops)), k) == LastSet(ops, k)
    ensures k.BlockReceiptsKey? ==> LastSet(ops, k) == []
    decreases |ops|
  {
    StoreKeepsRecordsApart(AllWrites(lib, ops), k);
    if ops != [] {
      hide OpWrites;
      var init := ops[..|ops| - 1];
      OtherIsLastSet(lib, init, k);
      StoreKeepsRecordsApart(AllWrites(lib, init), k);
      OpOnOther(lib, AllWrites(lib, init), ops[|ops| - 1], k);
    }
  }

  // ---- The store object ----

  lemma ApplySnoc(kv: Store, ws: seq<Write>, w: Write)
    ensures ApplyAll(kv, ws + [w]) == Apply(ApplyAll(kv, ws), w)
  {
    assert (ws + [w])[..|ws|] == ws;
  }

  lemma {:induction false} ApplyConcat(kv: Store, us: seq<Write>, vs: seq<Write>)
    ensures ApplyAll(ApplyAll(kv, us), vs) == ApplyAll(kv, us + vs)
    decreases |vs|
  {
    if vs == [] {
      assert us + vs == us;
    } else {
      hide Apply;
      hide ApplyAll;
      var init, w := vs[..|vs| - 1], vs[|vs| - 1];
      assert vs == init + [w] && us + vs == (us + init) + [w];
      ApplyConcat(kv, us, init);
      ApplySnoc(ApplyAll(kv, us), init, w);
      ApplySnoc(kv, us + init, w);
    }
  }

  class Database {
    const lib: Lib
    var kv: Store
    ghost var ops: seq<Op>

    // The store is what the operations so far have written.
    ghost predicate Valid()
      reads this
    {
      kv == ApplyAll(map[], AllWrites(lib, ops))
    }

    constructor (lib: Lib)
      ensures Valid() && this.lib == lib && ops == []
    {
      this.lib := lib;
      kv, ops := map[], [];
    }

    // Note a finished operation.
    ghost method Done(op: Op)
      requires kv == ApplyAll(ApplyAll(map[], AllWrites(lib, ops)), OpWrites(lib, op))
      modifies this`ops
      ensures Valid() && ops == old(ops) + [op]
    {
      ApplyConcat(map[], AllWrites(lib, ops), OpWrites(lib, op));
      ops := ops + [op];
      assert ops[..|ops| - 1] == old(ops);
    }

    method WriteBlock(hash: Hash, number: Number, block: Block)
      requires Valid()
      modifies this
      ensures Valid() && ops == old(ops) + [PutBlock(hash, number, block)]
    {
      kv := kv[Encode(BlockBodyKey(number, hash)) := lib.blockOut(block)];
      assert OpWrites(lib, PutBlock(hash, number, block))[..0] == [];
      Done(PutBlock(hash, number, block));
    }

    method WriteTxLookupEntries(block: Block)
      requires Valid()
      modifies this
      ensures Valid() && ops == old(ops) + [IndexBlock(block)]
    {
      for i := 0 to |block.txs|
        invariant ops == old(ops) && kv == ApplyAll(old(kv), LookupWrites(lib, block, i))
      {
        var entry := Entry(block.hash, block.number, i);
        kv := kv[Encode(TxLookupKey(TxHash(lib, block.txs[i]))) := lib.entryOut(entry)];
        assert LookupWrites(lib, block, i + 1)[..i] == LookupWrites(lib, block, i);
      }
      Done(IndexBlock(block));
    }

    method WriteHeader(header: Header)
      requires Valid()
      modifies this
      ensures Valid() && ops == old(ops) + [SaveHeader(header)]
    {
      var hash, number := header.parentHash, header.number;
      kv := kv[Encode(HeaderNumberKey(hash)) := EncodeBlockNumber(number)];
      kv := kv[Encode(HeaderKey(number, hash)) := lib.headerOut(header)];
      TwoWrites(old(kv), OpWrites(lib, SaveHeader(header)));
      Done(SaveHeader(header));
    }

    method DeleteHeader(hash: Hash, number: Number)
      requires Valid()
      modifies this
      ensures Valid() && ops == old(ops) + [DropHeader(hash, number)]
    {
      kv := kv - {Encode(HeaderKey(number, hash))};
      kv := kv - {Encode(HeaderNumberKey(hash))};
      TwoWrites(old(kv), OpWrites(lib, DropHeader(hash, number)));
      Done(DropHeader(hash, number));
    }

    // ReadTransaction on a store reached by any operations.
    method FindTransaction(h: Hash) returns (r: Lookup)
      requires Valid() && Faithful(lib) && WellNamed(ops)
      ensures r == Expected(lib, ops, h)
      ensures r.Found? ==> TxHash(lib, r.tx) == h
    {
      r := ReadTransaction(lib, kv, h);
      LookupFindsLastIndexed(lib, ops, h);
    }
  }

  lemma TwoWrites(kv: Store, ws: seq<Write>)
    requires |ws| == 2
    ensures ApplyAll(kv, ws) == Apply(Apply(kv, ws[0]), ws[1])
  {
    assert ws[..1][..0] == [] && ws[..1][0] == ws[0];
    assert ApplyAll(kv, ws[..1]) == Apply(kv, ws[0]);
  }
}
