# A verified model of lightcycle

lightcycle follows a blockchain and streams it: a *relayer* polls blocks, a *reorg engine* turns them into an
ordered stream of events (New, Undo, Irreversible, ForkObserved, ForkResolved), a bounded *cache* and a durable
*archive* keep what was streamed, and a *streaming server* hands each subscriber a backfill from archive and
cache followed by the live events. A *codec* decodes contract logs against event signatures given as text.

This project models those parts in Dafny and proves what they promise, over every input and every run.

* **The engine** (`Engine`) is a class with the fields of the original; each of its methods is proved equal to a
  function of the old state (`EngineSpec`). A run is any sequence of delivered blocks and solidified heads.
  `Replay` defines a consumer that keeps the whole, unpruned chain and refuses any event that does not fit it;
  the engine's bounded buffer is proved to refine that chain on every run. `Heads` says what the solidified head is
  in terms of the inputs alone, `CallLaws` what one call answers, emits and leaves buffered, field by field. On top
  of it: what Irreversible means
  (`Finality`, `FinalStream`), the fork ledger (`ForkLedger`), and the independence of the stream from the
  buffer size (`WindowIndependence`).
* **The stores** (`Cache`, `Archive`) are classes over maps, with the loops of the original. `CacheChain` says
  what the cache holds when it is fed an engine's events, `Archiver` what the archive holds.
* **The pipeline.** `Service` is the relayer's poll, cache write before send. `Hub` is the broadcast. `Backfill`
  and `BackfillLaws` are the two backfill stages of one request, when it is served or refused and how; `BackfillRows`
  says which rows it gets and what each of them tells. `Pipeline` is the whole system as a state
  machine whose steps (engine call, cache write, send, broadcast, archiver write, retention, subscriptions,
  snapshot, archive read, cache walk) interleave in any order. `Delivery` and `Handoff` prove what a subscriber is
  sent while nothing is undone: with a warm cache, with a cold one, with a start right above the cache, and without
  a start. `EndToEnd` proves that archive, cache and live tail are one slice of the chain. `Holdings` drops the
  restriction on undos: it folds what a subscriber is sent, New pushing and Undo popping, and says through every
  reorg what it then holds. `Witnesses` and `ReorgWitnesses` hold concrete runs: the hypotheses can be met, and the
  gaps the code leaves do happen.
* **The codec.** `AbiSignature` parses and prints event signatures, `AbiSpelling` characterises exactly which
  strings parse and to what, `AbiLog` decodes logs. `CursorCodec` is the resumption cursor.

Theorems about heights assume *well-formed* headers: a block id carries the block's height in its first eight
bytes and the parent id the height below (`WellFormedHeader`, after `crates/lightcycle-codec/src/block.rs:97-117`).
`Replay`, `ForkLedger` and `ArchiveIsFinal` assume nothing about heights.

## Where code and comments disagree

The model follows the code.

* An archiver that lagged is said to get the lost Irreversible events again
  (`crates/lightcycle-firehose/src/archiver.rs:46-49`). It does not: heights of Irreversible events strictly rise
  over a run (`Archiver.FinalsOnChain`), so none is ever sent twice.
* With an empty cache, a request is said to be rejected if the archive does not reach the live tail
  (`crates/lightcycle-firehose/src/server.rs:288-294`). The code looks at the archive only: it serves the request
  exactly when, among the first stored heights from the start on, up to the walk limit, none is truncated and at
  least one decodes (`BackfillLaws.ColdServedIff`). For every interleaving, `Handoff.ColdHandoffIff` says exactly
  when the subscriber is then sent a stream without gaps, and `Witnesses.ColdRunHasGap` is a run where it is not.
* The service promises a seamless transition from backfill to live tail and a refusal outside the cache
  (`crates/lightcycle-firehose/src/server.rs:63-70`). A start one above the highest cached height, which is what the
  cursor of the tip block asks for, is served with no rows at all, and the live tail is then not filtered: a block
  that was cached but not yet broadcast at the subscription is sent although it is below the start.
  `Handoff.TipHandoffIff` says exactly when the stream begins at the start, `Witnesses.TipRunSendsBelowStart` is a
  run where it does not.
* A live event at or below the backfill's last height is dropped because it was already shipped
  (`crates/lightcycle-firehose/src/server.rs:346-348`). The Undo of a shipped block, and the block that replaces it,
  are dropped too: `ReorgWitnesses.OrphanStays` is a run that leaves the subscriber with an orphan. And a request
  that takes its snapshot while an Undo is between cache and broadcast is sent the Undo of a block it never got:
  `ReorgWitnesses.UndoOfUnsent`. `Holdings.ReorgHandoffIff` says exactly when neither matters.
* A backfill is checked only where the archive meets the cache. `BackfillLaws.GapFreeIffArchiveCovers` says
  exactly when there is no hole further down, and `Witnesses.HoleIsServed` is a request served with one.
* Two signatures with the same parameter types are said to share a topic
  (`crates/lightcycle-codec/src/abi.rs:328-331`). They must also have the same event name:
  `AbiSpelling.CanonicalIffSameEvent`.
* The Irreversible stream has a hole when pruning drops a block before the head reaches it; nothing in the engine
  prevents that. `FinalStream.IrreversibleStreamCompleteIff` gives the exact condition, and
  `Witnesses.EarlyPruneLosesABlock` a run that violates it.

## Model

| member | source | states |
|---|---|---|
| Engine.ReorgEngine.constructor | crates/lightcycle-relayer/src/engine.rs:233-249 | a fresh engine is empty; a window no larger than the finality depth is not accepted |
| Engine.ReorgEngine.SetSolidifiedHead | crates/lightcycle-relayer/src/engine.rs:270-279 | a head that does not advance is ignored; otherwise new state and events are those of the specification (what they are: `Heads.HeadIsGreatest`, `CallLaws.HeadCall`) |
| Engine.ReorgEngine.Accept | crates/lightcycle-relayer/src/engine.rs:305-344 | state and answer of delivering a block, errors included, are those of the specification (what they are: `CallLaws.AcceptedCall`, `CallLaws.AnswersExactly`) |
| Engine.ReorgEngine.PushCanonicalFirst | crates/lightcycle-relayer/src/engine.rs:346-374 | the first block is appended, settled and pruned as specified |
| Engine.ReorgEngine.ExtendCanonical | crates/lightcycle-relayer/src/engine.rs:376-403 | a child of the tip is appended, settled and pruned as specified |
| Engine.ReorgEngine.HandleReorg | crates/lightcycle-relayer/src/engine.rs:411-517 | a reorg is refused exactly on the finality guard, otherwise undoes, pushes, records the fork |
| Engine.ReorgEngine.CollectOrphans | crates/lightcycle-relayer/src/engine.rs:445-465 | undo events and ids of all blocks above the ancestor, tip first |
| Engine.ReorgEngine.FindAncestor | crates/lightcycle-relayer/src/engine.rs:415-423 | the last buffered position with the parent's id |
| Engine.ReorgEngine.MaybeEmitIrreversible | crates/lightcycle-relayer/src/engine.rs:519-557 | emits exactly the buffered blocks between watermark and head, in order, and moves the watermark |
| Engine.ReorgEngine.MaybeResolveForks | crates/lightcycle-relayer/src/engine.rs:564-580 | resolves exactly the front of the queue the head has reached, oldest first |
| Engine.ReorgEngine.MaybePruneBuffer | crates/lightcycle-relayer/src/engine.rs:582-587 | keeps exactly the newest blocks of the window and their ids |
| Engine.ReorgEngine.AllocForkId | crates/lightcycle-relayer/src/engine.rs:589-593 | fork ids count up and wrap at 32 bits |
| Heads.HeadIsGreatest | crates/lightcycle-relayer/src/engine.rs:270-279 | after any run the solidified head is the greatest head reported, and there is none exactly when none was reported |
| CallLaws.HeadCall | crates/lightcycle-relayer/src/engine.rs:270-279 | after any run, a head above every head reported before settles the buffer under it, finalizations first; any other changes and emits nothing |
| CallLaws.AcceptedCall | crates/lightcycle-relayer/src/engine.rs:346-517 | after any run, what an accepted block emits, in order: an Undo for each block above its parent, tip first; its own New, with the height, ids, transactions and transaction infos delivered, the next fork id, its cursor, and its tier and envelope by the head; the fork observed, naming the orphans in order; then what the head settles. And the buffer is the newest blocks up to it |
| CallLaws.AnswersExactly | crates/lightcycle-relayer/src/engine.rs:305-458 | after any run, a block is refused as a duplicate, for a missing parent or for undoing a final block, in that order of checks, exactly when its id is buffered, its parent is not, or the block above its parent is at or below the watermark; each error says what the original says, and a refused block changes nothing |
| CallLaws.ForkIdsCount | crates/lightcycle-relayer/src/engine.rs:589-593 | the fork id of each New event of a run is the number of New events before it, modulo 2^32 |
| CallLaws.ChainIsDelivered | crates/lightcycle-relayer/src/engine.rs:351-358 | every block of the chain of a run is a delivered block with all its fields |
| Replay.ReplayNeverFails | crates/lightcycle-relayer/src/engine.rs:346-517 | on any run, for arbitrary heights: each Undo names the consumer's top, each New is a child of it, nothing final is popped, and the buffer is a non-empty suffix of the replayed chain |
| Replay.RunStep | crates/lightcycle-relayer/src/engine.rs:305-344 | what one call does to the replayed chain: cut after the parent and grow by the block, or nothing |
| Replay.AcceptAdmits | crates/lightcycle-relayer/src/engine.rs:305-344 | a block is accepted if and only if it is new, its parent is buffered (or nothing is) and its earliest orphan is above the watermark; accepting is appending right after the parent |
| Replay.PrunedPointIsPermanent | crates/lightcycle-relayer/src/engine.rs:582-587 | the pruned point never moves back and no later Undo crosses it |
| Replay.IrreversibleIsNeverUndone | crates/lightcycle-relayer/src/engine.rs:434-443 | whatever a run has finalized stays on the chain, in place, on every continuation, for arbitrary heights |
| Finality.WatermarkClosedForm | crates/lightcycle-relayer/src/engine.rs:519-557 | after any run, if the greatest head reported is at or above the buffer front, the watermark is the smaller of that head and the tip height |
| Finality.ReorgAcceptedIffAboveHead | crates/lightcycle-relayer/src/engine.rs:434-458 | a reorg is accepted if and only if its earliest orphan is above the greatest head reported, and the replacement is then above it too |
| Finality.EveryUndoIsSeen | crates/lightcycle-relayer/src/engine.rs:445-458 | every Undo of every run carries tier Seen |
| Finality.RunMarked | crates/lightcycle-relayer/src/engine.rs:519-557 | after any run the chain is linked and well-formed and the watermark covers exactly what the head has reached |
| FinalStream.IrreversibleStreamExact | crates/lightcycle-relayer/src/engine.rs:533-556 | the Irreversible stream is, in order and once each, the chain's blocks at or below the greatest head reported except those pruned before a head reached them |
| FinalStream.IrreversibleStreamCompleteIff | crates/lightcycle-relayer/src/engine.rs:582-587 | that stream is every chain block at or below the greatest head reported if and only if no such block was pruned too early |
| FinalStream.FinalOnArrival | crates/lightcycle-relayer/src/engine.rs:387-401 | a New tagged Finalized is followed, later in the same call, by its own Irreversible; one tagged lower has none in that call |
| Witnesses.EarlyPruneLosesABlock | crates/lightcycle-relayer/src/engine.rs:582-587 | for every two linked blocks there is a run that prunes the first before the head reaches it and never announces it Irreversible |
| ForkLedger.LedgerConserved | crates/lightcycle-relayer/src/engine.rs:497-511 | observed forks are the resolved ones followed by the queue, field for field; resolutions are in time; the front is above the head; orphan ids are the Undo ids; each kept tip is on the chain or orphaned by a later observation |
| WindowIndependence.SameStory | crates/lightcycle-relayer/src/engine.rs:411-517 | two engines with different windows fed the same inputs emit the same New, Undo, ForkObserved and ForkResolved events and refuse the same blocks while the smaller always finds parents |
| Cache.BlockCache.constructor | crates/lightcycle-store/src/cache.rs:75-84 | an empty cache of positive capacity |
| Cache.BlockCache.Insert | crates/lightcycle-store/src/cache.rs:93-133 | leaves exactly the greatest heights of the updated map, also when the new block is the lowest, and reports whether it evicted; both indices stay mutual inverses |
| Cache.BlockCache.GetById | crates/lightcycle-store/src/cache.rs:144-148 | agrees with a scan of all entries: found means stored under that id, not found means no entry has it |
| Cache.BlockCache.RemoveById | crates/lightcycle-store/src/cache.rs:155-159 | removes exactly the entry with the id; unknown ids change nothing |
| Cache.BlockCache.PruneBelow | crates/lightcycle-store/src/cache.rs:165-177 | keeps exactly the heights at or above the floor and counts the others |
| Cache.BlockCache.MinHeight | crates/lightcycle-store/src/cache.rs:194-196 | the least cached height; none exactly for an empty cache |
| Cache.BlockCache.MaxHeight | crates/lightcycle-store/src/cache.rs:199-201 | the greatest cached height; none exactly for an empty cache |
| Cache.NewestIsTop | crates/lightcycle-store/src/cache.rs:120-130 | what eviction keeps: as many entries as fit, every kept height above every dropped one |
| Cache.PutKeepsInverse | crates/lightcycle-store/src/cache.rs:93-119 | replacing by height, by id or both leaves the two indices mutual inverses |
| CacheChain.WriteTracks | crates/lightcycle-relayer/src/service.rs:578-594 | fed any stream a consumer accepts, the cache is a suffix of the replayed chain, at every prefix |
| CacheChain.CacheIsChainSuffix | crates/lightcycle-relayer/src/service.rs:578-594 | after any prefix of a run's events the cache is exactly a suffix of the replayed chain |
| CacheChain.SuffixExactly | crates/lightcycle-relayer/src/service.rs:578-594 | such a cache holds consecutive heights up to the tip with their chain blocks and nothing else, so no orphan is reachable |
| CacheChain.CacheCoversBuffer | crates/lightcycle-relayer/src/service.rs:578-594 | with capacity at least the window, the cache holds every buffered block after each call |
| Service.RelayerService.TickOnce | crates/lightcycle-relayer/src/service.rs:352-423 | one poll gives the engine the reported head, if any, and then the fetched block exactly when it is not the newest one buffered and passes verification; a failed fetch and a strict refusal are reported; engine, cache and channel stay in agreement with that run, or the channel was closed because the run has more events than its reader takes |
| Service.RelayerService.ProcessOne | crates/lightcycle-relayer/src/service.rs:425-563 | a block with nothing to check or a good signature, or under the lenient policy one by another signer, extends the run by exactly that input, accepted or not; no other does; only a strict policy reports it |
| Service.RelayerService.SendAll | crates/lightcycle-relayer/src/service.rs:502-517 | the cache has been given exactly what was sent, in order; when the channel closes, exactly one event more |
| Service.RelayerService.FeedCache | crates/lightcycle-relayer/src/service.rs:578-594 | New inserts, Undo removes, the other events leave the cache alone |
| Service.RelayerService.ReadersSeeTheChain | crates/lightcycle-relayer/src/service.rs:502-517 | between polls the shared cache is a chain suffix covering the engine's buffer |
| Service.RelayerService.StoppedSeesTheChain | crates/lightcycle-relayer/src/service.rs:512-516 | after the channel closed in the middle of a call the cache is still a suffix of the chain of some prefix of the events |
| Hub.BroadcastHub.Subscribe | crates/lightcycle-firehose/src/hub.rs:39-41 | a new receiver starts empty and changes nothing for the others |
| Hub.BroadcastHub.PumpFrom | crates/lightcycle-firehose/src/hub.rs:52-79 | the input queue is carried to all receivers, one event after the other |
| Hub.CarryAllExact | crates/lightcycle-firehose/src/hub.rs:52-79 | so every receiver gets the whole queue, in order, and has exactly what was broadcast since it attached |
| CursorCodec.CursorRoundTrip | crates/lightcycle-relayer/src/cursor.rs:30-53 | cursors and 40-byte strings are in mutual inverse; every other length is refused |
| CursorCodec.CursorLayout | crates/lightcycle-relayer/src/cursor.rs:30-36 | a cursor is eight bytes of height, most significant first, and then the block id |
| CursorCodec.HexRoundTrip | crates/lightcycle-firehose/src/server.rs:132-142 | the hex form of a cursor decodes back |
| CursorCodec.HexLayout | crates/lightcycle-firehose/src/server.rs:132-142 | two lower-case digits for each byte, the high one first |
| CursorCodec.HexDecodeExact | crates/lightcycle-firehose/src/server.rs:132-142 | exactly the strings of pairs of hexadecimal digits, of either case, decode, each to the bytes it spells |
| Types.HeightOfBytes | crates/lightcycle-codec/src/block.rs:97-117 | the height an id carries is its first eight bytes, the first the most significant |
| Archive.PackRoundTrip | crates/lightcycle-store/src/archive.rs:298-316 | a packed value is the 32 bytes of the id and then the payload; packing and unpacking are mutual inverses; exactly the values shorter than 32 bytes are refused |
| Archive.BlockArchive.Put | crates/lightcycle-store/src/archive.rs:146-156 | the row is stored packed and no other row changes |
| Archive.BlockArchive.PutBatch | crates/lightcycle-store/src/archive.rs:161-176 | each height given has the last item given for it, and every other row is unchanged |
| Archive.PutAllTakesLast | crates/lightcycle-store/src/archive.rs:161-176 | what writing items in order leaves: the last item of each height, nothing else changed |
| Archive.BlockArchive.Range | crates/lightcycle-store/src/archive.rs:198-222 | the rows of an inclusive range, ascending, up to the limit, or the first truncated value's error |
| Archive.ScanExact | crates/lightcycle-store/src/archive.rs:198-222 | a scan's rows are stored rows with strictly rising heights in range, skipping none before the last, and all of them unless the limit was reached |
| Archive.ScanRefuses | crates/lightcycle-store/src/archive.rs:198-222 | a scan that fails names the lowest truncated value of its range, one that it does reach, with its length |
| Archive.BlockArchive.DeleteBelow | crates/lightcycle-store/src/archive.rs:228-252 | keeps exactly the rows at or above the floor, unchanged, and counts the others |
| Archive.BlockArchive.MinHeight | crates/lightcycle-store/src/archive.rs:257-268 | the least stored height; none exactly for an empty table |
| Archive.BlockArchive.MaxHeight | crates/lightcycle-store/src/archive.rs:271-283 | the greatest stored height; none exactly for an empty table |
| Archiver.RunArchiver | crates/lightcycle-firehose/src/archiver.rs:61-102 | each height has the last Irreversible event that arrived and could be written, its id and encoded block, and every other row is as it was |
| Archiver.TakenWrites | crates/lightcycle-firehose/src/archiver.rs:61-102 | no Irreversible event that arrived and could be written is missing from the table |
| Archiver.LossyArchiveIsFinal | crates/lightcycle-firehose/src/archiver.rs:83-99 | whatever was lost to lag or failed writes, every row is a final of the run whose block stays on the chain |
| Archiver.FinalsOnChain | crates/lightcycle-firehose/src/archiver.rs:65-101 | Irreversible heights strictly rise over any run and each such block is in the final part of the chain |
| Archiver.NeverOverwrites | crates/lightcycle-firehose/src/archiver.rs:65-101 | each height is written at most once, however retention interleaves |
| Archiver.ArchiveIsSuffix | crates/lightcycle-store/src/archive.rs:228-252 | the rows are the finals received, less the oldest ones retention removed |
| Archiver.ArchiveIsFinal | crates/lightcycle-firehose/src/archiver.rs:65-101 | for arbitrary heights: every archived block stays on the replayed chain for the rest of the run, and every row is at or below the head |
| Archiver.ArchiveIsInterval | crates/lightcycle-firehose/src/archiver.rs:65-101 | when nothing was pruned too early the archived blocks are one contiguous parent-linked stretch of the chain, which retention only shortens from below |
| Backfill.ResumeAfter | crates/lightcycle-firehose/src/server.rs:132-157 | the cursor sent with a block resumes right after its height, whatever start number is also given |
| BackfillLaws.StartIsExact | crates/lightcycle-firehose/src/server.rs:132-172 | every request: a cursor that does not read back is refused first; a stop, final blocks only or transforms are refused; a cursor starts one above its height, a positive number at it, 0 is the live tail, a negative number is refused |
| Backfill.ArchiveWalk | crates/lightcycle-firehose/src/server.rs:386-444 | the decodable rows of the range, in order, up to the walk limit; a store error is passed on |
| Backfill.CacheWalk | crates/lightcycle-firehose/src/server.rs:262-284 | every height of the range, or a refusal at the first one missing |
| Backfill.StreamService.Snapshot | crates/lightcycle-firehose/src/server.rs:185-202 | refused without a cache; otherwise the cache's lowest and highest heights, none exactly for an empty cache |
| Backfill.StreamService.BackfillFrom | crates/lightcycle-firehose/src/server.rs:183-337 | refused without a cache; otherwise archive rows then cache rows, with the original's refusals |
| BackfillLaws.ResponseDescribesBlock | crates/lightcycle-firehose/src/server.rs:475-520 | a response names block and parent by the heights their ids carry, its cursor resumes right after it, and a cached row is what the live event would have been under the same head |
| BackfillLaws.ResponseTells | crates/lightcycle-firehose/src/server.rs:475-520 | a New, Undo or Irreversible event has a response with its step, heights, ids, head, payload and cursor; a fork event has none |
| BackfillLaws.CachedRowsTell | crates/lightcycle-firehose/src/server.rs:322-333 | each row from the cache tells of the block cached at its height, under the head the request was given |
| BackfillLaws.ArchiveRowsTell | crates/lightcycle-firehose/src/server.rs:404-443 | each row from the archive is the value stored at its height taken apart, with the parent and final height its payload decodes to |
| BackfillRows.WarmRows | crates/lightcycle-firehose/src/server.rs:204-337 | against a non-empty cache a served request gets exactly the stored heights that decode from its start up to the cache, and then exactly the cached ones, in ascending order, each with what archive or cache holds there |
| BackfillRows.ColdRows | crates/lightcycle-firehose/src/server.rs:288-337 | with nothing cached a served request gets exactly the heights that decode among those one walk reaches, in ascending order, each with what is stored there |
| BackfillLaws.CacheWalkedExact | crates/lightcycle-firehose/src/server.rs:262-284 | a cache walk succeeds if and only if every height of the range is still cached |
| BackfillLaws.StagedBackfill | crates/lightcycle-firehose/src/server.rs:204-308 | an accepted backfill against a non-empty cache has strictly rising heights from the start on and ends at the cache's highest |
| BackfillLaws.StagedParts | crates/lightcycle-firehose/src/server.rs:247-287 | its archive part, if any, ends exactly one below the cache, and its cache part has no hole |
| BackfillLaws.OverLimitRefused | crates/lightcycle-firehose/src/server.rs:386-444 | with more rows below the cache than one walk returns, the request is refused |
| BackfillLaws.GapFreeIffArchiveCovers | crates/lightcycle-firehose/src/server.rs:204-308 | an accepted backfill has no hole if and only if the archive holds and decodes every height from the start up to the cache |
| Witnesses.HoleIsServed | crates/lightcycle-firehose/src/server.rs:247-261 | an archive that holds only the height just below the cache answers a request from one height further down |
| BackfillLaws.ColdServedIff | crates/lightcycle-firehose/src/server.rs:288-307 | with nothing cached a request is served if and only if, among the first stored heights from the start on, up to the walk limit, none is truncated and at least one decodes |
| BackfillRows.ColdRefusal | crates/lightcycle-firehose/src/server.rs:288-307 | otherwise the refusal names the first truncated value one walk reaches, or says that nothing can be served |
| BackfillLaws.WarmServedIff | crates/lightcycle-firehose/src/server.rs:204-287 | against a non-empty cache a request is served if and only if everything from its start on is cached, for a start in the cache or one above it; or the whole cache is still there and the archive joins it, for a lower start |
| BackfillLaws.WarmRefusal | crates/lightcycle-firehose/src/server.rs:204-287 | otherwise the refusal is ahead of the tip, below coverage, the first evicted height, or a truncated row, with its numbers |
| Pipeline.ExecKeeps | crates/lightcycle-firehose/src/server.rs:177-202 | in every interleaving, engine, cache, queues, receivers and archiver agree with one run, and a request's snapshot, archive read and cache walk, three separate steps, saw cache and archive as they were at points after its subscription |
| Delivery.FilterLive | crates/lightcycle-firehose/src/server.rs:339-373 | backfill first, then one response for each live New, Undo and Irreversible above the backfill's last height, in order, with its step, height, ids, head, payload and cursor; nothing for the others |
| Delivery.LiveTailExact | crates/lightcycle-firehose/src/server.rs:344-361 | that is what the live filter of the specification sends, stated on the events received |
| Handoff.HandoffIsExact | crates/lightcycle-firehose/src/server.rs:177-373 | in every interleaving without undos, when at least one row was backfilled against a non-empty cache, the New responses are the archive rows, which end just below the cache, and then exactly one slice of the replayed chain |
| Handoff.HandoffIsGapless | crates/lightcycle-firehose/src/server.rs:339-373 | under the same conditions heights strictly rise across archive, cache walk and live tail, with no gap or repeat from the cache on |
| Handoff.TipHandoffIff | crates/lightcycle-firehose/src/server.rs:247-373 | in every interleaving without undos, a request that starts one above the highest height of its snapshot is sent every block the chain gained since it subscribed, and these run without gaps from its start if and only if none was heard yet or its snapshot held no block not yet broadcast at the subscription |
| Witnesses.TipRunSendsBelowStart | crates/lightcycle-firehose/src/server.rs:256-261 | for every block there is a run in which a request for the next height is served no row and then sent that block |
| Handoff.TailIsChain | crates/lightcycle-firehose/src/server.rs:335-356 | in every interleaving without undos, a request without a start is sent exactly the blocks the chain gained since it subscribed |
| Handoff.ColdHandoffIff | crates/lightcycle-firehose/src/server.rs:288-373 | in every interleaving, a request served with nothing cached is sent the archive rows and then the chain blocks heard above them, without gaps if and only if the archive has no hole up to its last row and the first block heard is no more than one above it |
| Witnesses.ColdRunHasGap | crates/lightcycle-firehose/src/server.rs:288-307 | for every archived row and every later first block more than one above it there is a run that sends exactly these two |
| Holdings.SubscriberHolds | crates/lightcycle-firehose/src/server.rs:339-361 | for every served request, in every interleaving and through every reorg: pushing each New and popping each Undo leaves the subscriber with its backfill and what the chain gained above it since it subscribed; an Undo fails to fit exactly when a block above the backfill that had been broadcast before the subscription is undone |
| Holdings.TailingHolds | crates/lightcycle-firehose/src/server.rs:335-361 | the same for a request without a start, whose backfill is empty |
| Holdings.ReorgHandoffIff | crates/lightcycle-firehose/src/server.rs:177-373 | through every reorg, against a non-empty cache with at least one row: what is held is the archive rows and then the chain broadcast so far, if and only if no block above the backfill had been broadcast before the subscription and the cached rows are still on that chain |
| Holdings.ReorgHandoff | crates/lightcycle-firehose/src/server.rs:177-373 | so it is once everything the cache walk saw has been broadcast, as long as nothing at or below the backfill is undone after the walk, however often the blocks above are replaced |
| ReorgWitnesses.OrphanStays | crates/lightcycle-firehose/src/server.rs:346-354 | for every block and two children of it there is a run in which the first child is served from the cache and then replaced, and the subscriber is told neither |
| ReorgWitnesses.UndoOfUnsent | crates/lightcycle-firehose/src/server.rs:177-202 | for the same blocks there is a run in which a subscriber is sent the Undo of a child it was never sent |
| EndToEnd.HandoffIsOneSlice | crates/lightcycle-firehose/src/server.rs:204-373 | when a request with at least one row against a non-empty cache has seen no undo, its archive read found the table this relayer's archiver keeps and nothing was pruned too early, everything delivered, archive rows included, is one linked slice of the chain, from the requested height unless retention removed it |
| Witnesses.ServedIsReachable | crates/lightcycle-firehose/src/server.rs:177-373 | for every two linked blocks there is a run with an archive row, a cached row and an event both cached and queued that meets all these hypotheses |
| AbiSignature.CanonicalSignature | crates/lightcycle-codec/src/abi.rs:260-275 | builds name and comma-separated types in parentheses |
| AbiSignature.PrintParses | crates/lightcycle-codec/src/abi.rs:71-81 | every valid type, of every width, parses back from its printed form |
| AbiSignature.PrintIsPlain | crates/lightcycle-codec/src/abi.rs:71-81 | the printed form of each type: its word, and a width or size in decimal without leading zero |
| AbiSignature.CanonicalGrows | crates/lightcycle-codec/src/abi.rs:260-275 | one more parameter adds its type before the closing parenthesis, with a comma unless it is the first |
| AbiSignature.ParseTypeExact | crates/lightcycle-codec/src/abi.rs:198-258 | exactly which texts are types and of which type: a bare uint or int is 256 bits wide, a width is a multiple of 8 up to 256, a size runs from 1 to 32 |
| AbiSignature.ParseTypeRefuses | crates/lightcycle-codec/src/abi.rs:198-258 | every other text is refused: arrays, strings and bytes of no size as unsupported, the rest as unknown, each naming the text |
| AbiSignature.ParamRefuses | crates/lightcycle-codec/src/abi.rs:173-196 | when a parameter is refused as malformed or for its type |
| AbiSignature.ParseRefuses | crates/lightcycle-codec/src/abi.rs:135-160 | when a signature is refused for a missing parenthesis or an empty name, in the order of the checks |
| AbiSignature.FirstBadParameter | crates/lightcycle-codec/src/abi.rs:163-171 | any other refused signature gets the error of its first bad comma-separated part |
| AbiText.DecimalRoundTrip | crates/lightcycle-codec/src/abi.rs:211-222 | a printed width parses back within its integer type |
| AbiText.ParseUnsignedExact | crates/lightcycle-codec/src/abi.rs:211-222 | exactly which texts are numbers, a leading plus and leading zeros included, and of which value, up to the bound |
| AbiText.SpacesAre | crates/lightcycle-codec/src/abi.rs:135-196 | the 25 characters that count as whitespace |
| AbiSpelling.SpellingParses | crates/lightcycle-codec/src/abi.rs:135-196 | every spelling (whitespace, names and indexed marks anywhere they may stand) parses to its meaning |
| AbiSpelling.ParsedIsSpelled | crates/lightcycle-codec/src/abi.rs:135-196 | every string that parses is a spelling of its result, so the accepted strings are exactly the spellings |
| AbiSpelling.ParsePrintFixpoint | crates/lightcycle-codec/src/abi.rs:135-160 | parsing the canonical string of a parsed signature gives the same name and types, the same topic and the identical string |
| AbiSpelling.CanonicalIffSameEvent | crates/lightcycle-codec/src/abi.rs:260-275 | two parsed signatures have the same canonical string if and only if they have the same name and type list |
| AbiSpelling.SpellingIsIrrelevant | crates/lightcycle-codec/src/abi.rs:130-134 | spellings of the same name and types share canonical string and topic |
| AbiLog.DecodeWithSignature | crates/lightcycle-codec/src/abi.rs:387-435 | refused for the number of topics first and the length of the data second, with expected and found; otherwise each parameter has what the next topic, or the next 32 bytes of data, says as a value of its type |
| AbiLog.DecodeAnswers | crates/lightcycle-codec/src/abi.rs:387-450 | the same of the decoding specification, counted on the parameters themselves |
| AbiLog.DecodeConsumesAll | crates/lightcycle-codec/src/abi.rs:414-430 | every topic and every data byte is consumed exactly once, in declaration order |
| AbiLog.DecodeInvertsEncode | crates/lightcycle-codec/src/abi.rs:387-450 | decoding the event encoding of well-typed values returns them, each with its parameter |
| AbiLog.EncodeInvertsDecode | crates/lightcycle-codec/src/abi.rs:437-450 | re-encoding a decoded log gives the identical log if and only if its address and bool words are canonical |
| AbiLog.EventRegistry.Register | crates/lightcycle-codec/src/abi.rs:344-346 | the last registration for a topic wins; no other topic changes |
| AbiLog.EventRegistry.RegisterSignature | crates/lightcycle-codec/src/abi.rs:349-353 | parses and registers, or reports the parse error and changes nothing |
| AbiLog.EventRegistry.DecodeLog | crates/lightcycle-codec/src/abi.rs:376-384 | nothing for logs without topics or with an unregistered first topic; otherwise the answer of decoding against the registered signature, errors included |

## Left out

- HandoffIsExact: assumes the request has seen no undo, that is none broadcast since it subscribed and none given to the cache before its walk (`Holdings` says what happens with undos), and at least one row against a non-empty cache (`TipHandoffIff` and `ColdHandoffIff` cover the other served requests). It counts New responses; `FilterLive` says which Irreversible ones are sent, namely those above the backfill tip.
- HandoffIsGapless: under the same conditions.
- HandoffIsOneSlice: under the same conditions; also assumes that what is encoded for the archive decodes, and that no block at or below the head was pruned too early, which the engine does not enforce; the archiver neither lags nor fails to write.
- ArchiveIsInterval: needs that no block at or below the head was pruned too early, as above.
- SameStory: holds for as long as the smaller window finds parents; once it reports a missing parent the two engines may diverge.
- PumpFrom: the bounded ring behind each receiver and its lag notices are left out; a receiver here loses nothing.
- ProcessOne: signature checking itself is left out; its outcome is an input.
- DecodeWithSignature: the topic hash (Keccak-256) is an arbitrary function of the canonical string, so no collision claim is made.
- gRPC, tokio scheduling, timers, metrics, tracing, the command line and the health server: only the order of cache write, send, broadcast, subscribe, snapshot, archive read and cache walk is kept, as atomic steps.
- The relayer's channel bound: a full channel only delays a send, which the interleaving already allows.
- Broadcast lag towards a subscriber and process restart: assumed not to occur within a modelled run. Lag and failed writes of the archiver appear in `Archiver` but not in `Pipeline`.
- The redb engine: the archive is a height-to-bytes map; transactions and crash recovery are not part of this model. One archive walk's maximum lookup and range read are one atomic read.
- Fetch by cache or archive with read-through insertion (`crates/lightcycle-firehose/src/oracle.rs:148-153`): a second cache writer, excluded from the cache and hand-off theorems.
- Block and transaction payloads, protobuf encoding and decoding: opaque values and abstract functions.
- SHA-256 and secp256k1 recovery: foreign cryptography.
- The block id inside a resumption cursor: the server reads only its height, so no reorg-aware resumption is claimed.
- Consistency monitoring and refresh of the signer set: no effect on engine, cache or channel.
- Text of error messages: errors carry the offending text or numbers.
