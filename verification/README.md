# A verified model of a cross-chain relayer

The relayer is a Go program: its nodes watch several chains, agree on each
observed event with aggregated BLS signatures, and let one elected leader make
the call on the destination chain. This project models the parts of it whose
correctness is hard to see from the code, and proves what they promise, or the
exact condition under which they keep the promise.

`dafny verify dfyconfig.toml` checks everything.

## What is modelled

| files | part of the relayer |
|---|---|
| `Bits`, `Bls` | bit masks of any size, population count, the contract of the BLS library |
| `Setup` | the epoch setup that gives every member its membership key |
| `Tlc`, `Protocol`, `Agreement`, `Safety`, `Progress`, `Witnesses`, `HonestRuns` | the Announce / Prepare / Prepared protocol: one session, all nodes together, what every run keeps, the theorems about runs, runs that agree, runs that show which conditions are needed, runs in which nobody injects messages |
| `Leader`, `Wire` | leader election, messages on the wire |
| `NonceHeap`, `TxList`, `Batches`, `TxPool` | the transaction pool |
| `LogCache` | the bounded duplicate filter and the watcher around it |
| `Merkle`, `Schema`, `RawDb` | Merkle tree, database keys, block store and transaction index |
| `QuitHandlers`, `Schedule` | registry of quit channels, synchronized start times |

How the outside world enters:

- The network is a pool of messages. It may lose, repeat and reorder them, and
  anybody may inject a message whose signature is made of contributions that
  corrupt members made or that honest members have already published.
- Each message is handled by its own goroutine; a handler advances in separate
  steps, takes the session's mutex where the code does, and may stay blocked.
- A member may open several sessions for one topic, because an event can be
  handled more than once. A crash ends one session; that the code's panic also
  ends the other sessions of the process only removes runs.
- Keys and signatures are integers and aggregation is addition. A signature also
  records who contributed to it and for which body. Verification checks the sum
  and that every member in the mask contributed; this is where unforgeability
  is assumed. The assumption needs membership keys that only their owners know
  and public keys that are checked. The setup itself does not provide that: it
  broadcasts all parts to everybody, a member's own included, and a `Prepared`
  message carries a public key of its sender's choice.
- SHA-256, the ABI decoder, RLP, gob and protobuf are function parameters. A
  codec is only assumed to undo itself; no hash is assumed to be injective, the
  theorems speak of collisions among the strings that were actually hashed.
- RLP and gob skip the unexported fields of a transaction, so a stored
  transaction comes back without nonce and chain id, and its hash depends on
  the origin data only. The origin data itself is assumed to come back whole.
  That is an assumption about the event type: RLP writes only address, topics
  and data of the raw log inside it, while gob hashes all of its fields, so a
  stored event with a filled-in raw log would hash differently when read back.
- Clocks and block histories are parameters. The iteration order of Go maps is
  any order.
- Panics are modelled as outcomes where a message or an input can cause them: a
  message that does not decode or a `Prepare` from outside the epoch crashes the
  session, a setup message with an index out of range crashes the setup, an
  unknown account stops promotion, a Merkle tree of the wrong size yields
  `None`, a missing block body makes a lookup fatal. A message of an unknown
  type is ignored.
- The receive loop may still take one message while its session is being
  cancelled.

## Where the code and its comments differ

- `PendingByChainId` is documented to return groups sorted by nonce. That holds
  in every map order exactly when at most one sender has transactions for the
  chain (`Batches.SortedIffOneSender`).
- `Ready` is documented to return all nonces up to `start`. That holds exactly
  when there is no gap among them (`TxList.ReadyUpToStartIff`).
- A log is marked as seen before it is unpacked and logs are keyed by block and
  transaction, so a log that does not unpack and a second log of the same
  transaction never reach the handler (`LogCache.EveryLogHandledIff`).
- The filter forgets blocks below the highest one. A (block, transaction) pair is
  handled twice exactly when it becomes fresh again, which takes a return to a
  lower block (`LogCache.HandledOnceIff`, `LogCache.PairHandledOnceIfUnpacked`,
  `LogCache.ReorgHandlesTwice`). A transaction is handled twice also when it is
  delivered in two blocks (`LogCache.TxHandledOnceIfUnpacked`).
- The Merkle build makes as many passes as half the number of leaves and only
  finishes for one to four items (`Merkle.FinishesIff`).
- The setup mask is computed in 64-bit arithmetic: with 64 members or more the
  setup never finishes (`Setup.CompletesIff`). A part that fails its check is
  logged and added all the same, and so is a part that was added before; every
  further phase message makes all members send their parts again. The key is
  right exactly when errors and repetitions cancel out (`Setup.FinishedKey`).
- A failed ack check returns with the mutex held, and so does the failed
  self-check before the broadcast. The second can never happen
  (`Tlc.PrepareStep`); the first does, by one unsigned ack
  (`Safety.PrepareLeaksIff`, `Witnesses.UnsignedAckSticks`). A verified
  `Prepared` that arrives after the waiter has timed out blocks the session in
  the same way (`Safety.PreparedBlocksIff`, `Witnesses.LatePreparedSticks`).
  Then the session makes no progress except for answering `Announce`
  (`Safety.StuckForever`).
- Without injected messages no session loses its mutex to an ack exactly when the
  setup gave every member its correct key, that is when for every member errors
  and repetitions cancel out (`HonestRuns.NeverLeaksIff`,
  `HonestRuns.SetupDecidesLeaks`). One honest member with a repeated part is
  enough to stick an honest session.
- Each session takes threshold and leader from its own view. A session can agree
  exactly when its threshold is at most the number of members
  (`Witnesses.AgreementReachableIff`). No run makes two external calls exactly
  when at most one of the sessions that may be opened can agree and elects its
  own member (`Witnesses.OneCallIff`). Seven members of whom two have not seen
  each other yet call twice (`Witnesses.TwoLeadersOfSeven`). With equal views the
  calls are bounded by the sessions that the elected member opened
  (`Safety.CallsBounded`).
- `WriteHeader` files a header under the hash of its parent, so a header is lost
  when a second child of that parent is saved at the same height
  (`RawDb.HeaderReadsBack`, `RawDb.SiblingReplaces`).
- The synchronized start is right exactly as long as the distance fits an int64
  duration (`Schedule.StartTimeIff`).

## Model

| member | source | states |
|---|---|---|
| Bits.SetBitWrites | consensus/session/tlc.go:123 | setting or clearing a bit changes that bit and no other, for masks of either sign |
| Bits.ClearLowest | consensus/session/tlc.go:22 | `x &= x-1` makes a positive word smaller and removes exactly one set bit |
| Bits.CountIsCardinality | consensus/session/tlc.go:18-27 | the bit count of a mask is the size of the set of its positions |
| Bits.SetFreshBit | consensus/session/tlc.go:123-129 | setting a clear bit adds one to the count and that member's term to every sum over the mask |
| Bits.Popcount | consensus/session/tlc.go:18-27 | the nested loops terminate and return the number of set bits of a mask of any size |
| Bls.AggregateVerifies | consensus/session/tlc.go:123-129 | adding a verified ack of a member outside the mask keeps the aggregate valid for the enlarged mask |
| Bls.AckVerifies | consensus/session/tlc.go:45-54 | a member's ack passes the ack check if and only if it was made with the correct membership key |
| Bls.PartsMakeKey | node/bridge/node.go:566-570 | the parts of the first k members add up to their aggregated key on the receiver's index |
| Setup.InitialMaskValue | node/bridge/node.go:543 | the initial mask is 2^np - 1 up to 63 members and -1 from 64 on |
| Setup.MaskTracksMissing | node/bridge/node.go:586-591 | after any deliveries bit i is set exactly when member i has not been heard, for any number of members |
| Setup.CompletesIff | node/bridge/node.go:586-591 | the mask becomes zero exactly when there are at most 63 members and all were heard |
| Setup.OrderIndependent | node/bridge/node.go:580-592 | mask and key depend only on which parts arrived how often, not on their order |
| Setup.KeyIsTotal | node/bridge/node.go:587 | the key is the sum of all delivered parts, repeated and unverified ones included |
| Setup.FinishedKey | node/bridge/node.go:580-593 | a finished setup gives the correct membership key plus the errors and the repetitions of the delivered parts, so it is correct exactly when these cancel out |
| Setup.BlsSetup | node/bridge/node.go:537-598 | in the order in which handlers get the mutex: receiving stops at the first state with no member missing, the key returned includes the parts of those handlers started before that finish in time, every phase message is answered with the sender's weighted key on every member's index, and exactly a source or part index out of range is a crash |
| Setup.OwnParts | node/bridge/node.go:567-576 | the broadcast names its sender and holds for every member i the sender's weighted key on index i |
| Setup.RepliesMakeKey | node/bridge/node.go:537-598 | when every part received is such a reply and no member sent two, the setup finishes exactly when all of at most 63 members replied, and then with the correct key |
| Setup.Exchange | node/bridge/node.go:537-598 | every member answering a phase message with BlsSetup and one member receiving the answers in any order: its BlsSetup returns the correct key |
| Tlc.NoAcksInv | node/bridge/node.go:196-206 | a new session satisfies the session invariant |
| Tlc.CountingKeepsInv | consensus/session/tlc.go:123-129 | counting a verified ack of a new source keeps count, both aggregates and validity in step with the mask |
| Tlc.PrepareStep | consensus/session/tlc.go:108-151 | every outcome of a Prepare keeps the session invariant, the self-check cannot fail, the broadcast carries exactly the threshold, and exactly the sender joins the mask |
| Tlc.PrepareOutcome | consensus/session/tlc.go:108-151 | the exact condition of each outcome: ignored for a known sender or a full session, a crash only for a sender outside the epoch, counted or broadcast only for a new member's verified ack |
| Tlc.Session.constructor | node/bridge/node.go:191-208 | a session starts with no acks, an empty mask and zero aggregates |
| Tlc.Session.VerifyThresholdWitnesses | consensus/session/tlc.go:30-43 | accepts exactly the messages with enough set bits and a valid multisignature |
| Tlc.Session.HandlePrepare | consensus/session/tlc.go:108-151 | new fields, broadcast and release of the mutex for each of the six ways the critical section can end |
| Tlc.Completeness | consensus/session/tlc.go:108-165 | with correct keys, in any order and repetition of acks, a session counts min(threshold, distinct members) without a crash or a lost mutex, broadcasts exactly once, and the broadcast passes at exactly the sessions with no higher threshold |
| Tlc.SetupToQuorum | node/bridge/node.go:537-598 | when every setup finished with one valid part per member, the acks made with the resulting keys bring any session to its quorum without a crash or a lost mutex |
| Leader.LeqIsLex | libp2p/leader_provider.go:40 | the order is the lexicographic one: a prefix, or smaller at the first position where the strings differ |
| Leader.SortStrings | libp2p/leader_provider.go:40 | a permutation in lexicographic order |
| Leader.LeaderIsLeast | libp2p/leader_provider.go:34-41 | the leader is one of the peers and no peer has a smaller hash |
| Leader.Stable | libp2p/leader_provider.go:28-42 | order, repetition and the removal of other peers do not change the leader |
| Leader.StableIff | libp2p/leader_provider.go:28-42 | every list of the same peers elects the same leader exactly when the least hash is not shared |
| Leader.AddedPeer | libp2p/leader_provider.go:28-42 | adding a peer anywhere in the list elects that peer if its hash is not larger than the leader's and keeps the leader otherwise |
| Leader.HashAll | libp2p/leader_provider.go:32-39 | the table from hash to peer maps the least hash to the leader, also when hashes collide |
| Leader.RelayerLeaderNode | libp2p/leader_provider.go:28-42 | an error exactly for an empty list or topic, otherwise a listed peer whose hash is lexicographically least |
| Protocol.NewSession | node/bridge/node.go:178-215 | the polling loop opens with the first adequate list of participants, the node itself last, with the least majority as threshold and the peer with the lexicographically least hash as leader; it gives up exactly when no poll was adequate |
| Agreement.AdvanceKeepsSession | consensus/session/tlc.go:81-166 | every step of every concurrent handler keeps the session invariant and the lock discipline |
| Agreement.AdvanceEventOk | consensus/session/tlc.go:92-106 | a handler signs only after an Announce it received, and signals only a mask whose honest members have all signed before |
| Agreement.StepInv | consensus/session/tlc.go:69-170 | every enabled action of the network or a node keeps the invariant of the whole system |
| Agreement.RunInv | consensus/session/tlc.go:69-170 | every run keeps it |
| Safety.SessionAlways | consensus/session/tlc.go:108-151 | in every reachable state: count = distinct accepted members ≤ threshold, both aggregates are the sums over the mask, one Prepared broadcast exactly when full, at most one signal, the mutex held only by a signalling handler or one that met an unverified ack |
| Safety.AgreementNeedsQuorum | consensus/session/tlc.go:92-106 | a session signals agreement only if at least its threshold of members, and at least four, signed the topic after receiving an Announce for it, or are corrupt |
| Safety.AgreedFits | node/bridge/node.go:184-196 | if only members are corrupt, a session that agreed had a threshold of at most the number of members |
| Safety.QuorumsMeetIff | node/bridge/node.go:184-196 | two quorums of p/2+1 among n members always share a member if and only if n < 2(p/2+1) |
| Safety.MasksOverlap | node/bridge/node.go:184-196 | in every run the masks of two agreements share at least as many members as their thresholds exceed the members that opened a session or are corrupt |
| Safety.AgreementsShareMember | node/bridge/node.go:184-196 | two thresholds that exceed those members force a common member who signed or is corrupt |
| Safety.AgreementsShareHonestSigner | node/bridge/node.go:184-196 | exceeding them by more than the number of corrupt members forces a common honest member who signed |
| Safety.AgreementsShareSigner | node/bridge/node.go:184-196 | any two agreements of honest sessions that counted all members with a session share a member who signed |
| Safety.CalledByElected | node/bridge/node.go:88-112 | an external call is made only by a session whose own view elects its member, after it agreed, and by each session at most once |
| Safety.OneCaller | libp2p/leader_provider.go:28-42 | if all sessions saw the same peers, all external calls of a run come from sessions of one member |
| Safety.CallsBounded | node/bridge/node.go:88-112 | then a run makes at most as many external calls as that member opened sessions |
| Safety.AtMostOneCall | node/bridge/node.go:88-112 | if all sessions saw the same peers and the elected member opened one session, at most one external call is made in a whole run |
| Safety.FrozenOnceFull | consensus/session/tlc.go:111-114 | after the quorum no continuation changes count, mask, aggregates or broadcasts |
| Safety.PrepareLeaksIff | consensus/session/tlc.go:108-151 | in every reachable state a Prepare leaves the mutex held exactly when it is an unverified ack of a new member before the quorum |
| Safety.PrepareCrashesIff | consensus/session/tlc.go:111-116 | in every reachable state a Prepare crashes the session exactly when it comes before the quorum from outside the epoch; a repeated ack never does |
| Safety.CrashesIff | consensus/session/tlc.go:82-118 | no other action crashes a session, but for a message that does not decode |
| Safety.CrashedForever | consensus/session/tlc.go:82-118 | a crashed session takes no part in any continuation |
| Safety.PreparedBlocksIff | consensus/session/tlc.go:101-106 | a verified Prepared blocks the session exactly when the waiter has given up and the session was not cancelled |
| Safety.GiveUpBlocksIff | node/bridge/node.go:81-115 | giving up blocks the session exactly when a handler is signalling |
| Safety.OnlyTheseBlock | consensus/session/tlc.go:69-170 | no other action of a node or of the network blocks a session |
| Safety.StuckForever | consensus/session/tlc.go:101-120 | once the mutex is lost, by an unverified ack or by signalling to a waiter that gave up, no continuation counts an ack, broadcasts or signals there |
| Safety.StuckStillAnswers | consensus/session/tlc.go:153-165 | such a session still answers an Announce with its ack |
| Safety.ReadWithoutMutex | consensus/session/tlc.go:84-97 | a message that is no ack for the topic is read without the mutex: an Announce answered, a Prepared checked, a foreign or unknown one dropped, nothing else of the session changed |
| Safety.QuietAfterSignal | consensus/session/tlc.go:74-104 | after signalling agreement a session receives at most one more message in any continuation |
| Safety.CancelEnds | consensus/session/tlc.go:71-105 | cancelling a session that is not signalling ends it: no later signal and at most one more message received |
| Progress.AgreementIsReachable | consensus/session/tlc.go:57-170 | for correct keys and any views, a run leads from nothing to agreement at any session whose threshold is at most the number of members, and to the external call if its view elects its member |
| Witnesses.UnsignedAckSticks | consensus/session/tlc.go:116-120 | in every environment a run with one unsigned ack leads to a stuck session |
| Witnesses.LatePreparedSticks | consensus/session/tlc.go:101-106 | for correct keys and any views, a run leads any session that could agree to being blocked by a late Prepared |
| Witnesses.TwoElectedCallTwice | node/bridge/node.go:88-112 | two sessions that can agree and each elect their own member both make the call in some run |
| Witnesses.OneCallIff | node/bridge/node.go:184-196 | for any views and any sessions that may be opened no run makes two calls if and only if at most one of them can agree and elects its own member |
| Witnesses.AgreementReachableIff | node/bridge/node.go:184-196 | some run brings a session to agreement if and only if its threshold is at most the number of members |
| Witnesses.TwoLeadersOfSeven | node/bridge/node.go:184-196 | seven members with views of six different ones, the first two not listing each other, and a hash without collisions: a run makes two calls |
| HonestRuns.OwnRun | consensus/session/tlc.go:153-165 | in a run without injected messages every message around is for the topic and from a member with a session, every ack is made with that member's key, and only Prepared messages carry a mask |
| HonestRuns.CorrectKeysNeverLeak | consensus/session/tlc.go:116-120 | with correct keys no such run leaves a mutex held by a returned handler |
| HonestRuns.HonestRunsStayAlive | consensus/session/tlc.go:82-118 | in a run without injected and undecodable messages no session ever crashes |
| HonestRuns.WrongKeyLeaks | consensus/session/tlc.go:116-120 | a member with a wrong key sticks its own session in such a run |
| HonestRuns.NeverLeaksIff | consensus/session/tlc.go:116-120 | no such run leaks a mutex if and only if every member has its correct membership key |
| HonestRuns.SetupDecidesLeaks | node/bridge/node.go:580-593 | after finished setups no such run leaks a mutex if and only if for every member errors and repetitions of its parts cancel out |
| Wire.MaskTripIff | consensus/protobuf/message/convert.go:28-63 | the magnitude of a mask arrives, so it survives exactly when it is not negative |
| Wire.BytesAre | consensus/protobuf/message/convert.go:28 | the bytes are those of the mask, the highest first and not zero |
| Wire.WireTrip | consensus/protobuf/message/convert.go:18-79 | a message of the three types, or of a type with another code, with a 64-bit source and a mask of any size arrives unchanged, so the threshold test gives the same verdict on both sides |
| Wire.CodesOnTheWire | consensus/protobuf/message/convert.go:20-25 | Announce, Prepare and Prepared are sent as 0, 1 and 2 |
| Wire.UndecodableFails | consensus/protobuf/message/convert.go:48-56 | a signature that does not decode fails every ack check, a key that does not decode is zero |
| NonceHeap.RootIsLeast | chain/tx_list.go:133 | the first element of the index is the least nonce |
| NonceHeap.Up | chain/tx_list.go:119 | sifting up restores the heap and permutes the nonces |
| NonceHeap.Down | chain/tx_list.go:141 | sifting down restores the heap on the first n elements and leaves the others alone |
| NonceHeap.Push | chain/tx_list.go:20-22 | the new nonce is added and the heap kept |
| NonceHeap.Pop | chain/tx_list.go:24-30 | the least nonce is taken out and the heap of the others kept |
| TxList.FlatUnique | chain/tx_list.go:153-169 | there is one nonce-ordered list of the contents, so the iteration order of the map cannot matter |
| TxList.SortByNonce | chain/tx_pool.go:19-26 | the same transactions in increasing nonce order |
| TxList.ReadyUpToStartIff | chain/tx_list.go:124-130 | all nonces up to `start` are returned exactly when there is no gap among them |
| TxList.TxSortedMap.constructor | chain/tx_list.go:102-107 | an empty list with map, heap and cache in agreement |
| TxList.TxSortedMap.Put | chain/tx_list.go:116-122 | stores or overwrites the nonce, keeps map, heap and cache in agreement |
| TxList.TxSortedMap.Ready | chain/tx_list.go:131-146 | returns in order exactly the gap-free run from the least nonce if that is at most `start`, removes exactly these and keeps the agreement |
| TxList.ReadyRun | chain/tx_list.go:131-146 | what Ready returns is empty exactly when the least nonce is above `start`, and otherwise starts at the least nonce and ends at the first gap |
| TxList.TakeRun | chain/tx_list.go:138-142 | the popping loop takes the maximal consecutive run and ends also at the largest 64-bit nonce |
| TxList.TakeDone | chain/tx_list.go:137-145 | stopping at the first gap has taken exactly the ready nonces, and taken plus rest is the whole |
| TxList.TxSortedMap.Flatten | chain/tx_list.go:156-169 | returns and caches the nonce-ordered list of the contents |
| Batches.GroupHolds | chain/tx_pool.go:296-320 | in any map order a group holds exactly the pending transactions of its chain, once each, every sender's in nonce order |
| Batches.SortedIffOneSender | chain/tx_pool.go:293-320 | a group is sorted by nonce in every map order exactly when at most one sender has transactions for it |
| TxPool.CompleteNext | chain/tx_pool.go:124-138 | one more event keeps every sender's list equal to the transactions of its events |
| TxPool.TxPool.constructor | chain/tx_pool.go:55-73 | a pool without events has lost nothing |
| TxPool.TxPool.Add | chain/tx_pool.go:190-206 | adds the transaction to its sender's queue and touches nothing else |
| TxPool.TxPool.PromoteTx | chain/tx_pool.go:260-277 | adds the transaction to the pending list of the address and touches nothing else |
| TxPool.TxPool.TakeReady | chain/tx_pool.go:237-248 | takes the ready transactions out of one queue and deletes the queue when it is empty |
| TxPool.TxPool.PromoteAccount | chain/tx_pool.go:227-248 | what leaves the queue of an account is exactly what enters its pending list; an empty queue is deleted |
| TxPool.TxPool.PromoteExecutables | chain/tx_pool.go:215-254 | for any list of accounts, or none for all, queue and pending lists are those of promoting one account after another up to the first unknown one |
| TxPool.EachMoves | chain/tx_pool.go:215-254 | for different accounts there is no panic exactly when all are known, and then exactly their ready transactions move and other accounts are untouched |
| TxPool.TxPool.AddEvent | chain/tx_pool.go:124-186 | the event goes to its sender's pending list with the next nonce, the queue is empty again, and below the largest nonce each nonce sits in exactly one list, its sender's |
| TxPool.TxPool.Pending | chain/tx_pool.go:282-291 | every sender's transactions in nonce order, contents unchanged |
| TxPool.GroupByChain | chain/tx_pool.go:296-320 | the groups are the filtered concatenation of the batches in some map order, one group per chain that occurs |
| TxPool.TxPool.PendingByChainId | chain/tx_pool.go:296-320 | the same about the pool's pending lists |
| TxPool.EventsGroupedByChain | chain/tx_pool.go:296-320 | of a pool that lost nothing, the group of a chain holds exactly the transactions of the events for that chain, once each, every sender's in order |
| LogCache.TopIsHighest | extChains/eth/log_cache.go:22-35 | the kept block number is the highest block seen |
| LogCache.FilterIsExactAtTop | extChains/eth/log_cache.go:28-40 | "seen" is always right, and at or above the highest block the answer is exact in both directions |
| LogCache.RememberedNext | extChains/eth/log_cache.go:28-68 | what one more log adds to and removes from the memory |
| LogCache.LogCache.constructor | extChains/eth/log_cache.go:15-20 | an empty cache with an empty history |
| LogCache.LogCache.Exists | extChains/eth/log_cache.go:28-40 | the answer for any history is whether the pair is still remembered, and the tables follow |
| LogCache.LogCache.AddTxExists | extChains/eth/log_cache.go:42-60 | answers whether the pair was there and adds it |
| LogCache.LogCache.Cleanup | extChains/eth/log_cache.go:62-68 | drops exactly the blocks below the current one |
| LogCache.ResumeKeepsOrder | extChains/eth/watcher.go:134-137 | resuming from the highest block keeps the whole stream in block order |
| LogCache.FiresIff | extChains/eth/watcher.go:83-98 | in block order the bounded cache decides like an unbounded one |
| LogCache.FiresIffFresh | extChains/eth/watcher.go:83-98 | on any stream a log reaches the handler exactly when all earlier logs of its pair were dropped and it unpacks |
| LogCache.HandledOnceIff | extChains/eth/watcher.go:83-98 | on any stream no pair is handled twice exactly when none is fresh twice with logs that unpack |
| LogCache.TxHandledOnceIff | extChains/eth/watcher.go:83-98 | the same for transactions |
| LogCache.PairHandledOnceIfUnpacked | extChains/eth/log_cache.go:28-68 | when all logs unpack, no pair is handled twice exactly when none is delivered again after it was dropped |
| LogCache.TxHandledOnceIfUnpacked | extChains/eth/log_cache.go:28-68 | when all logs unpack, no transaction is handled twice exactly when that holds and none is delivered in two blocks |
| LogCache.TxHandledOnceInOrderIff | extChains/eth/watcher.go:83-98 | in block order no transaction is handled twice exactly when no two blocks deliver a first log of it that unpacks |
| LogCache.HandledOnce | extChains/eth/watcher.go:83-98 | in block order no (block, transaction) pair is handled twice |
| LogCache.DeliveredIsHandledIff | extChains/eth/watcher.go:85-95 | in block order a delivered (block, transaction) pair is handled exactly when its first log unpacks |
| LogCache.NoneTwiceNoneSkipped | extChains/eth/watcher.go:73-147 | over any number of broken and resumed subscriptions no (block, transaction) pair is handled twice, and one is skipped exactly when its first log does not unpack |
| LogCache.EveryLogHandledIff | extChains/eth/log_cache.go:42-60 | in block order every delivered log is handled exactly when all unpack and no two different ones share a pair |
| LogCache.ReorgHandlesTwice | extChains/eth/log_cache.go:31-35 | a log, one of a higher block and the first again: exactly which are handled, the first one twice |
| LogCache.ClientWatcher.constructor | extChains/eth/watcher.go:33-56 | a watcher that has handled nothing |
| LogCache.ClientWatcher.FromBlock | extChains/eth/watcher.go:134-137 | the query starts at the highest block seen, or has no start before the first log |
| LogCache.ClientWatcher.OnLog | extChains/eth/watcher.go:83-98 | what was handled stays the handled part of the whole stream; the loop fails exactly on a new log that does not unpack |
| LogCache.ClientWatcher.Consume | extChains/eth/watcher.go:79-113 | the same over one subscription, which stops exactly at the first new log that does not unpack or when it breaks or is told to quit; which of these clears the subscribed flag and which asks for a new subscription |
| Merkle.FinishesIff | chain/merkle_tree.go:32-43 | the build finishes without an index out of range exactly for one to four items |
| Merkle.PairUpKeeps | chain/merkle_tree.go:35-40 | a completed level has the same leaves from left to right and hashes one level deeper |
| Merkle.TreeHolds | chain/merkle_tree.go:20-46 | the finished tree has as its leaves, in order, the hashes of the data and once more that of the last element of an odd list |
| Merkle.RootBindsLeaves | chain/merkle_tree.go:49-65 | equal roots at equal depth mean equal leaves or a hash collision met while building |
| Merkle.RootBindsData | chain/merkle_tree.go:20-65 | equal roots at equal length mean equal data or such a collision |
| Merkle.PaddingIsInvisible | chain/merkle_tree.go:23-25 | an odd list and the list with its last element repeated have the same tree |
| Merkle.NewLevel | chain/merkle_tree.go:33-40 | one pass builds the next level, or indexes past the end for an odd number of nodes |
| Merkle.NewMerkleTree | chain/merkle_tree.go:20-46 | the loops build the specified tree, and a tree at all exactly for one to four items |
| Schema.BlockNumberTrip | chain/rawdb/schema.go:86-90 | reading the eight big-endian bytes gives the number back |
| Schema.KeyTrip | chain/rawdb/schema.go:86-125 | kind, number and hash can be read back from the bytes of any key |
| Schema.KeyFormats | chain/rawdb/schema.go:36-125 | the letters of every key and the number with its highest byte first |
| Schema.KeysDiffer | chain/rawdb/schema.go:92-125 | keys are injective within each kind and disjoint across kinds |
| RawDb.StoreKeepsRecordsApart | chain/rawdb/schema.go:92-125 | after any writes and deletes a record reads as its own last write |
| RawDb.LookupWritten | chain/rawdb/indexes.go:14-34 | indexing a block leaves the last position of each hash |
| RawDb.LookupFindsLastIndexed | chain/rawdb/indexes.go:39-51 | after any operations a hash is missing if never indexed, fatal if the body of its last block is gone, else that block's transaction is found, and it has the hash |
| RawDb.LookupSucceedsIff | chain/rawdb/indexes.go:39-51 | a lookup succeeds exactly when the hash was indexed and the body of its last block is still stored |
| RawDb.IndexedIsFound | chain/transaction.go:63-83 | a transaction of a block that was indexed and stored is found under the hash of its origin data if no later indexed one shares it and the body was not dropped since |
| RawDb.CanonicalIsLastSet | chain/rawdb/accessors_chain.go:31-51 | after any operations the canonical hash of a number is the one last set and not dropped |
| RawDb.OtherIsLastSet | chain/rawdb/accessors_chain.go:64-275 | after any operations total difficulties and head pointers read as last set, and there are no receipts |
| RawDb.HeaderIsLastSaved | chain/rawdb/accessors_chain.go:126-171 | after any operations a header read is the one last saved under that number and parent and not dropped |
| RawDb.NumberIsLastSaved | chain/rawdb/accessors_chain.go:54-61 | the number read for a hash is that of the header last saved under it, whatever its number, and not dropped |
| RawDb.HeaderReadsBack | chain/rawdb/accessors_chain.go:126-161 | after any operations a header reads back exactly when it was saved and no later save under the same parent and number and no later drop followed |
| RawDb.SiblingReplaces | chain/rawdb/accessors_chain.go:141-161 | of two children of one block at one height only the second is kept |
| RawDb.Database.constructor | chain/rawdb/accessors_chain.go:223-229 | an empty store with no operations |
| RawDb.Database.WriteBlock | chain/rawdb/accessors_chain.go:223-229 | the store becomes what the operations so far, with this one, have written; number and hash are given apart from the block |
| RawDb.Database.WriteTxLookupEntries | chain/rawdb/indexes.go:14-34 | the same for the loop over a block's transactions |
| RawDb.Database.WriteHeader | chain/rawdb/accessors_chain.go:141-161 | the same for the two records of a header |
| RawDb.Database.DeleteHeader | chain/rawdb/accessors_chain.go:164-171 | the same for their removal |
| RawDb.Database.FindTransaction | chain/rawdb/indexes.go:39-51 | the result on any store so reached, and that a found transaction has the hash asked for |
| QuitHandlers.QuitHandlers.constructor | node/bridge/quit_handlers.go:13-18 | an empty registry |
| QuitHandlers.QuitHandlers.AddQuitHandler | node/bridge/quit_handlers.go:20-31 | registers a new open channel, closes the topic's previous one and no other; the maps stay inverse |
| QuitHandlers.QuitHandlers.RemoveQuitHandler | node/bridge/quit_handlers.go:33-45 | removes and closes exactly a channel that is still registered; nothing happens for a closed one |
| QuitHandlers.QuitHandlers.RemoveTopicHandler | node/bridge/quit_handlers.go:47-57 | closes and removes the topic's channel and no other |
| QuitHandlers.QuitHandlers.CancelThenDeferred | node/bridge/node.go:667-673 | the deferred removal after a cancel changes nothing, even when the topic was registered again |
| Schedule.StartTimeIff | libp2p/schedule/time.go:19-25 | for a past start the computed time is the first grid point after now exactly when the distance fits an int64 duration |
| Schedule.FirstIsLeast | libp2p/schedule/time.go:19-25 | that point is the least of the grid after now |
| Schedule.Overflowed | libp2p/schedule/time.go:21-24 | beyond the range the computed time is not after the given start |
| Schedule.FutureStart | libp2p/schedule/time.go:20 | a start that is not in the past is used unchanged |
| Schedule.TruncateIsLast | libp2p/schedule/time.go:16 | the start taken when none is given is the last multiple of the interval that is not in the future |
| Schedule.ZeroStart | libp2p/schedule/time.go:15-17 | with no start given the grid is the multiples of the interval, the same for all nodes |
| Schedule.SameCellSameStart | libp2p/schedule/time.go:19-25 | two nodes compute the same instant exactly when they start within the same cell of the grid |

## Left out

- Setup.FinishedKey: the membership index is not reduced to a byte; setup finishes for at most 63 members only.
- NonceHeap.Up: works on a sequence that is replaced, as the field of the list is, and not on the shared slice under Go's `container/heap`; the same holds for Down, Push and Pop.
- TxPool.TxPool.AddEvent: conservation ends when the 64-bit nonce wraps around; after that only the single step is stated.
- LogCache.ClientWatcher.Consume: the event handler is the list of logs handed to it; what the contract does with them is not modelled.
- Merkle.NewMerkleTree: pointers between levels are values, so sharing of nodes is not captured.
- RawDb.Database.WriteBlock: an encoding error or a failing store, on which the code logs or stops, cannot occur; writing and dropping canonical hashes, total difficulties, receipts and head pointers appear as operations of a history and not as methods.
- Byte-keyed reads that bypass the schema (`ReadTxLookupBytesEntry`, `ReadBodyRaw`, `ReadBodyRawByNumber`): more of the same.
- Schema keys without an accessor (epoch, crosslink, validator and cross-shard keys).
- The ticker after the first event of `TimeStream`, and the topic names made from times.
- Hosts, discovery, pub-sub transport and TLS: only the pool of messages stands for them.
- Connections to chain clients, waiting for transactions, contract wrappers, signing and forwarding of meta-transactions, key files.
- Internals of BLS, SHA-256, RLP, gob, protobuf and LevelDB.
- Joining and leaving topics and the registry lookup before a session opens.
- Creation, distribution and storage of ledger blocks in the leader branch and in the other nodes; the branch taken is modelled, not what follows.
- The uptime exchange, configuration, command-line tools, metrics and logging.
