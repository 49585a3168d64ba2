# Verified models of the Copile backend

Dafny models of the parts of the repository whose guarantees depend on how events interleave or on
exact arithmetic, with proofs that hold for every input, run or interleaving.

| module | models |
|---|---|
| `Prelude` | slots, keys, commitment levels, `Option`, sums, extremes of finite sets |
| `AccountVersions`, `AccountStore` | the in-memory account store: versions of an account by commitment, confirmed slots, owner index |
| `AccountStoreRuns`, `OrderIndependence` | what every run of the store keeps; when the accounts do not depend on the order of events |
| `StoreHistory` | what any run of the store holds and shows, read off its events alone |
| `OwnerScan`, `IndexOrder` | when the owner index equals a scan; when it does not depend on the order of events |
| `BlockMerge` | the multiplexer tasks that merge several sources: block deduplication in bounded memory, the rising tip of block infos |
| `BlockEmitter`, `BlockLifecycle` | the multiplexer loop that emits each block as processed, confirmed and finalized, alone and fed by the merging tasks |
| `SingleFlight` | loading accounts on demand, as interleaved atomic steps of concurrent calls |
| `LeaderSchedule` | the sliding window of slot leaders |
| `CircularBuffer` | the Go ring buffer |
| `TakeProfit`, `Percentages` | the take-profit reallocation and the largest-remainder percentages |
| `BenchSchedule` | the mixed-radix schedule of benchmark runs |

Each stateful component is a class whose methods are proved equal to a specification function on
values (`View()` is the value of an object); runs are sequences of events folded through those
functions, and the properties are lemmas about all runs. Sequences of events stand for channels and
for the choices of `select!`; what other systems answer (RPC, filters, callbacks) is a parameter.
The map of the account store owns its entries, so a store method takes an entry out as an
`AccountDataByCommitment`, calls its method and puts the result back.

Where the code and its documentation differ, the model follows the code:

- The multiplexer says it emits a block as processed, confirmed and finalized in that order
  (grpc_multiplex.rs:232-234). `EmittedAtEachLevel` says exactly when it does, and what it emits when
  it does not; `ConfirmedLastIsOutOfOrder` is a run in which it does not.
- A late update of a slot already confirmed is taken as confirmed (inmemory_account_store.rs:263-272),
  so that its order with the notice should not matter. `OrderIndependentExactly` says exactly when the
  accounts do not depend on the order, `OwnersIndependentExactly` the same of the owner index, and
  `StoreIndependentExactly` of the whole store; `OrderMattersAtSlotZero`, `OrderMattersWithTwoVersions`
  and `LateUpdateNotIndexed` are runs in which the order matters. The lookup and the update are not one
  step in the code (inmemory_account_store.rs:265, 274); `SplitUpdateMissesConfirmation` says exactly
  when a notice between them is missed.
- `update_owner` says an account with a change of owner stays indexed under both owners
  (inmemory_account_store.rs:231-232). `UpdateCoversExactly` and `NoticeCoversExactly` say, for each
  event, exactly when an account stays indexed under every owner it shows, and
  `IndexEqualsScanExactly` that nothing else matters over a run. `LateFinalizedUpdateUnindexes` and
  `ReturningOwnerUnindexed` are runs in which it does not stay indexed.
- Finalizing an unconfirmed slot only logs a warning (inmemory_account_store.rs:373-378);
  `LevelsInOrderExactly` says exactly when that is harmless for an account.
- The leader cache accepts a range as long as the cache, whose answer can be incomplete
  (`FullRangeIsIncomplete`); `QueryExactly` says when an answer is complete.

`dafny verify dfyconfig.toml` checks the whole project.

## Model

| member | source | states |
|---|---|---|
| `AccountVersions.AccountDataByCommitment.New` | compute-engine/lite-rpc/accounts/src/inmemory_account_store.rs:45-64 | A new entry holds the data as processed, as confirmed unless it came as processed, and as finalized if it came as finalized |
| `AccountVersions.AccountDataByCommitment.Initialize` | compute-engine/lite-rpc/accounts/src/inmemory_account_store.rs:68-77 | An initialized entry holds the data at all three commitments |
| `AccountVersions.AccountDataByCommitment.GetAccountData` | compute-engine/lite-rpc/accounts/src/inmemory_account_store.rs:32-42 | A processed read is the newest processed version, else the confirmed one; the other reads are the stored versions |
| `AccountVersions.AccountDataByCommitment.Update` | compute-engine/lite-rpc/accounts/src/inmemory_account_store.rs:79-126 | The new entry, and the returned flag is true exactly when the entry changed |
| `AccountVersions.AccountDataByCommitment.PopThrough` | compute-engine/lite-rpc/accounts/src/inmemory_account_store.rs:157-166 | The popping loop leaves the versions above the slot, or the single newest version when there are none |
| `AccountVersions.AccountDataByCommitment.PromoteSlotCommitment` | compute-engine/lite-rpc/accounts/src/inmemory_account_store.rs:129-199 | The new entry, and the promoted version together with the one it replaces |
| `AccountStore.InmemoryAccountStore.constructor` | compute-engine/lite-rpc/accounts/src/inmemory_account_store.rs:210-216 | A store starts empty |
| `AccountStore.InmemoryAccountStore.AddAccountOwner` | compute-engine/lite-rpc/accounts/src/inmemory_account_store.rs:218-229 | The account joins those indexed under the owner |
| `AccountStore.InmemoryAccountStore.ChangeOwner` | compute-engine/lite-rpc/accounts/src/inmemory_account_store.rs:233-256 | The account joins its new owner, and leaves the old one only when the change is finalized |
| `AccountStore.InmemoryAccountStore.UpdateAccount` | compute-engine/lite-rpc/accounts/src/inmemory_account_store.rs:261-298 | One atomic update: a processed update of a confirmed slot counts as confirmed, the owner index follows, and the flag is true exactly when the store changed |
| `AccountStore.InmemoryAccountStore.InitializeOrUpdateAccount` | compute-engine/lite-rpc/accounts/src/inmemory_account_store.rs:300-316 | An unknown account is initialized; a known one gets a finalized update |
| `AccountStore.InmemoryAccountStore.GetAccount` | compute-engine/lite-rpc/accounts/src/inmemory_account_store.rs:318-328 | The version of the account at the commitment, none when it is unknown |
| `AccountStore.InmemoryAccountStore.GetProgramAccounts` | compute-engine/lite-rpc/accounts/src/inmemory_account_store.rs:330-360 | None for a program never indexed; otherwise, each once, exactly the indexed accounts whose version at the commitment has that owner and passes the filters |
| `AccountStore.PassesExactly` | compute-engine/lite-rpc/accounts/src/inmemory_account_store.rs:340-352 | An account passes if and only if there are no filters or every one of them lets it through |
| `AccountStore.InmemoryAccountStore.ProcessSlotData` | compute-engine/lite-rpc/accounts/src/inmemory_account_store.rs:362-427 | Every account is promoted, pruned and re-indexed, and exactly the announced promotions are returned, no account twice |
| `AccountStore.InmemoryAccountStore.PromoteAll` | compute-engine/lite-rpc/accounts/src/inmemory_account_store.rs:388-392 | Whatever the order the entries are visited in, every entry is promoted and each promotion is listed once |
| `AccountStore.InmemoryAccountStore.ApplyOwnerChanges` | compute-engine/lite-rpc/accounts/src/inmemory_account_store.rs:395-403 | Re-indexing promotion by promotion gives the pointwise index, whatever the order of the promotions |
| `AccountStore.Announced` | compute-engine/lite-rpc/accounts/src/inmemory_account_store.rs:413-426 | The promotions that replaced a different version or none, each account once |
| `AccountStore.UpdateOwnerAt` | compute-engine/lite-rpc/accounts/src/inmemory_account_store.rs:233-256 | The accounts indexed under any one owner after a change of owner: the account gone from the old owner only if finalized, added to the new one, nobody else touched |
| `AccountStore.ReindexedStep` | compute-engine/lite-rpc/accounts/src/inmemory_account_store.rs:395-403 | The index after a batch of promotions, defined owner by owner, equals one owner change after the other |
| `AccountStore.PrunedKeepsNewest` | compute-engine/lite-rpc/accounts/src/inmemory_account_store.rs:157-166 | Pruning never drops or alters the newest version |
| `AccountStoreRuns.RunWellFormed` | compute-engine/lite-rpc/accounts/src/inmemory_account_store.rs:203-207 | In every run each account keeps at least one processed version, and every version is keyed by its own account and slot |
| `AccountStoreRuns.ReadsNeverGoBack` | compute-engine/lite-rpc/accounts/src/inmemory_account_store.rs:32-42 | Over any run, for each account and commitment, the slot read never decreases and the data never changes while the slot stays the same |
| `AccountStoreRuns.ProcessedIsNewest` | compute-engine/lite-rpc/accounts/src/inmemory_account_store.rs:79-126 | In every run, with no hypothesis, the confirmed and the finalized version are no newer than the newest processed one |
| `AccountStoreRuns.LevelsInOrder` | compute-engine/lite-rpc/accounts/src/inmemory_account_store.rs:362-380 | In every run that finalizes only slots in the confirmed set, finalized <= confirmed <= newest processed for every account |
| `AccountStoreRuns.FinalizingKeepsLevelsExactly` | compute-engine/lite-rpc/accounts/src/inmemory_account_store.rs:157-179 | A finalized notice keeps finalized <= confirmed for an account if and only if the account has no version of the slot, or is finalized or confirmed at or past it |
| `AccountStoreRuns.LevelsInOrderExactly` | compute-engine/lite-rpc/accounts/src/inmemory_account_store.rs:362-380 | In any run whatever, finalized <= confirmed holds of an account all along if and only if every finalized notice meets that condition |
| `AccountStoreRuns.UnconfirmedSlotBreaksLevels` | compute-engine/lite-rpc/accounts/src/inmemory_account_store.rs:370-378 | Finalizing a slot that was never confirmed, which only logs a warning, leaves an account finalized and not confirmed |
| `AccountStoreRuns.FinalizingPrunes` | compute-engine/lite-rpc/accounts/src/inmemory_account_store.rs:180-195 | After a finalized notice an account keeps exactly its versions above the slot, or its single newest one, unaltered |
| `AccountStoreRuns.AnnouncesExactlyTheChanges` | compute-engine/lite-rpc/accounts/src/inmemory_account_store.rs:413-426 | A slot notice announces an account if and only if its version at that commitment changed, with the new version |
| `AccountStoreRuns.RepeatedNoticeIsIdle` | compute-engine/lite-rpc/accounts/src/inmemory_account_store.rs:362-427 | Repeating a slot notice promotes nothing and changes nothing |
| `StoreHistory.ConfirmedSlotsExactly` | compute-engine/lite-rpc/accounts/src/inmemory_account_store.rs:362-380 | After any run the confirmed set holds exactly the slots with a confirmed notice and no finalized one since |
| `StoreHistory.StoredExactly` | compute-engine/lite-rpc/accounts/src/inmemory_account_store.rs:79-99 | After any run a version of a slot is stored if and only if it came, and since then no finalized notice at or past the slot found a later version of the account had come; it is the first such to come |
| `StoreHistory.UpdateRaises` | compute-engine/lite-rpc/accounts/src/inmemory_account_store.rs:103-125 | After any run an update becomes the confirmed or finalized version if and only if it counts for that commitment and is later than the one there: sent as such, or as finalized, or as processed with its slot confirmed, which counts as confirmed |
| `StoreHistory.NoticeRaises` | compute-engine/lite-rpc/accounts/src/inmemory_account_store.rs:129-179 | After any run a notice of a slot above 0 brings an account's version of the slot, if it has one, to the commitment of the notice, unless the one there is as late; no other read at confirmed or finalized changes |
| `StoreHistory.LevelExactly` | compute-engine/lite-rpc/accounts/src/inmemory_account_store.rs:32-42 | After any run the confirmed or finalized version of an account is the latest ever brought to that commitment, the first of equals, stated on the events alone; none if none was |
| `StoreHistory.ProcessedReadExactly` | compute-engine/lite-rpc/accounts/src/inmemory_account_store.rs:32-42 | After any run the processed read is the first to come of the versions with the greatest slot that came; none if none came |
| `OrderIndependence.PlainRunSummarized` | compute-engine/lite-rpc/accounts/src/inmemory_account_store.rs:261-298 | After any run of processed updates and confirmed notices with one version per slot, the accounts hold exactly the updates, and the confirmed version of each is its processed version at the greatest slot both updated and confirmed; only where that slot is 0 may there be none |
| `OrderIndependence.OrderDoesNotMatter` | compute-engine/lite-rpc/accounts/src/inmemory_account_store.rs:261-298 | With one version per slot and slot 0 harmless, any two interleavings of the same processed updates and confirmed notices leave the same accounts and confirmed slots |
| `OrderIndependence.OrderIndependentExactly` | compute-engine/lite-rpc/accounts/src/inmemory_account_store.rs:261-298 | Of processed updates and confirmed notices, every interleaving leaves the same accounts if and only if no account has two versions of a slot and, when slot 0 is confirmed, every account with a version of it also has one of a confirmed slot above 0 |
| `OrderIndependence.OrderMattersAtSlotZero` | compute-engine/lite-rpc/accounts/src/inmemory_account_store.rs:141-147 | Slot 0 on its own is not harmless: it is confirmed only when its notice comes before the update |
| `OrderIndependence.OrderMattersWithTwoVersions` | compute-engine/lite-rpc/accounts/src/inmemory_account_store.rs:96-102 | With two versions of one slot the first to arrive is kept |
| `OrderIndependence.UpdateConfirmedEitherWay` | compute-engine/lite-rpc/accounts/src/inmemory_account_store.rs:263-272 | An update above the confirmed slot ends up confirmed whichever of it and its confirmed notice comes first |
| `OrderIndependence.SplitUpdateMissesConfirmation` | compute-engine/lite-rpc/accounts/src/inmemory_account_store.rs:264-274 | When the notice falls between looking up the slot and locking the entry, the accounts end up as if it had not if and only if the slot was confirmed before, or the account has a confirmed version as recent, or has the version already, of a slot above 0; otherwise, unknown accounts included, the account misses that confirmation |
| `IndexOrder.LateUpdateNotIndexed` | compute-engine/lite-rpc/accounts/src/inmemory_account_store.rs:276-282 | An update of a slot confirmed before, of an account without a confirmed version, is visible but not indexed under its new owner |
| `IndexOrder.TimelyUpdateIndexed` | compute-engine/lite-rpc/accounts/src/inmemory_account_store.rs:276-282 | The same update before its notice is indexed: the owner index can depend on an order that the accounts do not depend on |
| `IndexOrder.IndexedExactly` | compute-engine/lite-rpc/accounts/src/inmemory_account_store.rs:274-285 | When no owner can be hidden, after any run of processed updates and confirmed notices with one version per slot an account is indexed under exactly the owners it has a version of |
| `IndexOrder.HidingOrder` | compute-engine/lite-rpc/accounts/src/inmemory_account_store.rs:276-282 | When a confirmed version is later than one of another owner, or its owner has only confirmed versions, some order of the events leaves the account unindexed under it |
| `IndexOrder.OwnersIndependentExactly` | compute-engine/lite-rpc/accounts/src/inmemory_account_store.rs:261-298 | Of processed updates and confirmed notices with one version per slot, every interleaving leaves the same owner index if and only if each confirmed version is older than those of the other owners of its account, and its owner, if there are others, also has a version never confirmed |
| `IndexOrder.StoreIndependentExactly` | compute-engine/lite-rpc/accounts/src/inmemory_account_store.rs:261-298 | Of processed updates and confirmed notices, every interleaving leaves the same whole store if and only if no account has two versions of a slot, slot 0 is harmless and no owner can be hidden |
| `OwnerScan.UpdateCoversExactly` | compute-engine/lite-rpc/accounts/src/inmemory_account_store.rs:274-285 | An update of a known account, at any commitment, leaves it indexed under every owner it shows if and only if: it had a version at the effective commitment or is indexed under the new owner already, and no finalized change of owner takes it from an owner it goes on showing |
| `OwnerScan.NoticeIndexes` | compute-engine/lite-rpc/accounts/src/inmemory_account_store.rs:395-403 | A slot notice changes one account's index entries by its own promotion only |
| `OwnerScan.NoticeCoversExactly` | compute-engine/lite-rpc/accounts/src/inmemory_account_store.rs:389-402 | A confirmed or finalized notice leaves an account indexed under every owner it shows if and only if: nothing is promoted; or it is the first version at that commitment and the account is indexed under its owner already; or no finalized change of owner takes it from an owner it goes on showing |
| `OwnerScan.IndexEqualsScanExactly` | compute-engine/lite-rpc/accounts/src/inmemory_account_store.rs:330-360 | In any run whatever, the index agrees with a scan on an account all along, for every owner, filter and commitment, if and only if every event meets those conditions |
| `OwnerScan.LateFinalizedUpdateUnindexes` | compute-engine/lite-rpc/accounts/src/inmemory_account_store.rs:300-316 | A finalized update that comes late leaves an account indexed only under an owner it does not show |
| `OwnerScan.ReturningOwnerUnindexed` | compute-engine/lite-rpc/accounts/src/inmemory_account_store.rs:240-252 | An account that changes owner and changes back is un-indexed under the owner it shows when the first change is finalized |
| `OwnerScan.DisciplinedRunKeeps` | compute-engine/lite-rpc/accounts/src/inmemory_account_store.rs:224-256 | What runs with initialized accounts, processed updates, confirmed-then-finalized slots and owners never returned to keep of every account |
| `OwnerScan.IndexEqualsScan` | compute-engine/lite-rpc/accounts/src/inmemory_account_store.rs:330-360 | After every such run the accounts found through the index are exactly those a scan of all accounts would show, for every owner, filter and commitment |
| `BlockMerge.ProcessedBlockMerger.Receive` | compute-engine/lite-rpc/cluster-endpoints/src/grpc_multiplex.rs:73-112 | One message: skipped if its slot was seen or is at or below the lowest of a half full memory; a full block is sent and remembered, and the lowest slot forgotten over 1024 |
| `BlockMerge.ProcessedBlockMerger.ReceiveAll` | compute-engine/lite-rpc/cluster-endpoints/src/grpc_multiplex.rs:52-128 | The receive loop over a whole stream |
| `BlockMerge.AtMostOnce` | compute-engine/lite-rpc/cluster-endpoints/src/grpc_multiplex.rs:50-112 | Over any stream, however long, no slot is sent twice and at most 1024 slots are remembered; forgotten slots lie below every remembered one and nothing is forgotten unless the memory is full |
| `BlockMerge.SkipsExactly` | compute-engine/lite-rpc/cluster-endpoints/src/grpc_multiplex.rs:78-85 | The bounded memory skips exactly the slots sent before and those too old: with 1024 sent slots above, or with all of at least 512 above |
| `BlockMerge.DroppedForever` | compute-engine/lite-rpc/cluster-endpoints/src/grpc_multiplex.rs:81-85 | A slot dropped as too old is never sent later |
| `BlockMerge.BoundedIsUnboundedExactly` | compute-engine/lite-rpc/cluster-endpoints/src/grpc_multiplex.rs:78-110 | The bounded deduplicator sends the same blocks as one that remembers every slot if and only if no slot is first seen when it is already too old |
| `BlockMerge.FewAboveIsEnough` | compute-engine/lite-rpc/cluster-endpoints/src/grpc_multiplex.rs:78-110 | In particular when every first-seen slot has fewer than 512 earlier slots above it |
| `BlockMerge.BlockInfoMerger.Receive` | compute-engine/lite-rpc/cluster-endpoints/src/grpc_multiplex.rs:164-200 | One message: a block meta above the tip raises it and is sent at the level of the task |
| `BlockMerge.TipRises` | compute-engine/lite-rpc/cluster-endpoints/src/grpc_multiplex.rs:153-186 | The infos sent have strictly rising slots |
| `BlockMerge.TipIsGreatest` | compute-engine/lite-rpc/cluster-endpoints/src/grpc_multiplex.rs:153-170 | The tip is the greatest slot received, or 0 |
| `BlockMerge.SendsExactlyNewest` | compute-engine/lite-rpc/cluster-endpoints/src/grpc_multiplex.rs:160-186 | An info is sent, at the level of the task, if and only if its slot is above 0 and above every slot received before |
| `BlockEmitter.BlockEmitterTask.ReceiveBlock` | compute-engine/lite-rpc/cluster-endpoints/src/grpc_multiplex.rs:341-367 | A block is emitted, then its confirmed and finalized copies if those notices came before it, and cached |
| `BlockEmitter.BlockEmitterTask.ReceiveInfo` | compute-engine/lite-rpc/cluster-endpoints/src/grpc_multiplex.rs:368-425 | An info is forwarded; a confirmed or finalized one emits the cached block at that level, or is kept pending (a finalized one only after startup) |
| `BlockEmitter.BlockEmitterTask.Cleanup` | compute-engine/lite-rpc/cluster-endpoints/src/grpc_multiplex.rs:426-443 | A tick restarts the loop when a channel was silent for more than 12 ticks, else drops blocks more than 100 slots behind the finalized tip |
| `BlockEmitter.BlockEmitterTask.ReceiveAll` | compute-engine/lite-rpc/cluster-endpoints/src/grpc_multiplex.rs:334-448 | The receive loop over the events chosen by the select, until it restarts |
| `BlockEmitter.RestartsExactly` | compute-engine/lite-rpc/cluster-endpoints/src/grpc_multiplex.rs:428-437 | The loop restarts if and only if some tick finds one of the three channels silent for more than 12 ticks |
| `BlockEmitter.InfosForwarded` | compute-engine/lite-rpc/cluster-endpoints/src/grpc_multiplex.rs:368-404 | Until a restart every info is forwarded once, in the order of arrival |
| `BlockEmitter.ProcessedComesFirst` | compute-engine/lite-rpc/cluster-endpoints/src/grpc_multiplex.rs:341-425 | In every interleaving a confirmed or finalized block is emitted after the same block as processed |
| `BlockEmitter.EmissionsArePaidFor` | compute-engine/lite-rpc/cluster-endpoints/src/grpc_multiplex.rs:341-425 | In every interleaving a hash is emitted at a level no more often than its input for that level arrived, pending notices counted, and as processed exactly as often as its block arrived |
| `BlockEmitter.EachLevelAtMostOnce` | compute-engine/lite-rpc/cluster-endpoints/src/grpc_multiplex.rs:341-425 | A hash whose input for a level arrives at most once is emitted at most once at that level |
| `BlockLifecycle.CacheHoldsExactly` | compute-engine/lite-rpc/cluster-endpoints/src/grpc_multiplex.rs:367-443 | The cache holds a block of a hash if and only if one came, with no finalized notice of the hash since, and no tick since that found its slot 100 or more behind the finalized tip; it is the latest that came |
| `BlockLifecycle.StartupExactly` | compute-engine/lite-rpc/cluster-endpoints/src/grpc_multiplex.rs:406-424 | Startup is completed if and only if some earlier finalized notice found its block cached |
| `BlockLifecycle.PhaseOnTick` | compute-engine/lite-rpc/cluster-endpoints/src/grpc_multiplex.rs:438-443 | A cleanup tick never drops a block whose finalized notice is still to come |
| `BlockLifecycle.EmittedAtEachLevel` | compute-engine/lite-rpc/cluster-endpoints/src/grpc_multiplex.rs:319-448 | In every interleaving, the levels at which a hash is emitted whose block and notices arrive once each, in any order, with rising finalized slots; it is emitted exactly once as processed, then confirmed, then finalized if and only if its finalized notice comes after the block or after startup and its confirmed notice is not the last of the three |
| `BlockLifecycle.EmittedEndToEnd` | compute-engine/lite-rpc/cluster-endpoints/src/grpc_multiplex.rs:310-448 | The same for the loop fed by the deduplicator and the tip filters over any source streams: that the block and the notices arrive is enough |
| `BlockLifecycle.ConfirmedLastIsOutOfOrder` | compute-engine/lite-rpc/cluster-endpoints/src/grpc_multiplex.rs:345-366 | With the confirmed notice last the documented order of levels fails: a block can be emitted as finalized and then as confirmed |
| `SingleFlight.AccountsOnDemand.Enter` | compute-engine/lite-rpc/accounts-on-demand/src/accounts_on_demand.rs:127-155 | The critical section of a call that missed the store has the effect of the atomic steps of the interleaving model, and decides the role of the call |
| `SingleFlight.AccountsOnDemand.Leave` | compute-engine/lite-rpc/accounts-on-demand/src/accounts_on_demand.rs:193-201 | The closing critical section removes the entry, and finds it there |
| `SingleFlight.AccountsOnDemand.RefreshSubscription` | compute-engine/lite-rpc/accounts-on-demand/src/accounts_on_demand.rs:69-91 | The filters sent are the program filters and then every subscribed account once, in chunks of 100, only the last one shorter, none empty |
| `SingleFlight.FetchWithRetry` | compute-engine/lite-rpc/accounts-on-demand/src/accounts_on_demand.rs:157-191 | The retry loop stops at the first answer and sends at most ten requests; these are the fetch steps of the interleaving model for that account, which bring the call to its closing section |
| `SingleFlight.InterleavingSafe` | compute-engine/lite-rpc/accounts-on-demand/src/accounts_on_demand.rs:123-204 | In every interleaving: the lock excludes, the loading map lists exactly the active loaders, accounts ever loaded are those loading or subscribed |
| `SingleFlight.SingleLoader` | compute-engine/lite-rpc/accounts-on-demand/src/accounts_on_demand.rs:123-204 | In every interleaving at most one call ever becomes the loader of an account, an account is in the loading map exactly while its one loader is active, and while the lock is free every loading account is subscribed |
| `SingleFlight.DecidesExactly` | compute-engine/lite-rpc/accounts-on-demand/src/accounts_on_demand.rs:128-155 | In every interleaving a call that missed the store waits if and only if its account is being loaded, answers as already tried if and only if the account is subscribed and no longer loading, and loads it if and only if no call ever did |
| `SingleFlight.WaiterIsDone` | compute-engine/lite-rpc/accounts-on-demand/src/accounts_on_demand.rs:129-144 | A call that waits never loads: it waits until it is done |
| `SingleFlight.HitIsDone` | compute-engine/lite-rpc/accounts-on-demand/src/accounts_on_demand.rs:117-123 | A call that found its account in the store is done, whatever happens afterwards |
| `SingleFlight.OnlyMissesGoOn` | compute-engine/lite-rpc/accounts-on-demand/src/accounts_on_demand.rs:117-127 | Whoever locks, waits or loads has missed the store first |
| `SingleFlight.AtMostTenRequests` | compute-engine/lite-rpc/accounts-on-demand/src/accounts_on_demand.rs:158-191 | Over a whole run, however many calls ask for an account, at most ten requests are sent for it |
| `LeaderSchedule.JsonRpcLeaderGetter.UpdateLeaderSchedule` | compute-engine/lite-rpc/cluster-endpoints/src/json_rpc_leaders_getter.rs:34-67 | Old leaders are dropped from the front and the missing ones appended; a failed fetch keeps what is left, and a short answer panics after the leaders it has |
| `LeaderSchedule.JsonRpcLeaderGetter.GetSlotLeaders` | compute-engine/lite-rpc/cluster-endpoints/src/json_rpc_leaders_getter.rs:72-98 | Bad ranges are refused; an uncovered range refreshes the window first; the answer is the window filtered to the range |
| `LeaderSchedule.WindowIsRun` | compute-engine/lite-rpc/cluster-endpoints/src/json_rpc_leaders_getter.rs:34-67 | After any updates, failed fetches and answers of any length included, the window is a gap-free ascending run of slots, each with its true leader |
| `LeaderSchedule.WindowIsBounded` | compute-engine/lite-rpc/cluster-endpoints/src/json_rpc_leaders_getter.rs:34-67 | With update slots that never decrease the window is never longer than the two configured sizes together |
| `LeaderSchedule.RefreshEnds` | compute-engine/lite-rpc/cluster-endpoints/src/json_rpc_leaders_getter.rs:34-67 | Where a refresh leaves the first and the last slot of the window |
| `LeaderSchedule.RefreshExactly` | compute-engine/lite-rpc/cluster-endpoints/src/json_rpc_leaders_getter.rs:34-67 | A refresh keeps exactly the old entries at most the old-leader size back, adds as many of the missing leaders as the cluster gave, fails if and only if it asked and the cluster did, and panics if and only if the answer was short |
| `LeaderSchedule.InRangeExactly` | compute-engine/lite-rpc/cluster-endpoints/src/json_rpc_leaders_getter.rs:93-97 | Filtering the window gives all the true leaders of a range if and only if the window covers it |
| `LeaderSchedule.InRangeHolds` | compute-engine/lite-rpc/cluster-endpoints/src/json_rpc_leaders_getter.rs:93-97 | The answer to a query has exactly the entries of the window in the range, complete or not |
| `LeaderSchedule.RefusedExactly` | compute-engine/lite-rpc/cluster-endpoints/src/json_rpc_leaders_getter.rs:77-79 | A query is refused if and only if `to` is not past `from` or the range is longer than the cache; then the window stays |
| `LeaderSchedule.AnsweredExactly` | compute-engine/lite-rpc/cluster-endpoints/src/json_rpc_leaders_getter.rs:80-97 | An accepted query is answered if and only if the window covers the range, or reaches past what a refresh needs, or the cluster gives at least the leaders asked for; otherwise it fails as the cluster does |
| `LeaderSchedule.QueryExactly` | compute-engine/lite-rpc/cluster-endpoints/src/json_rpc_leaders_getter.rs:77-97 | A successful query returns exactly the true leaders of from..to if and only if the window was empty or began by `from`, and the range is shorter than the cache or was reached already |
| `LeaderSchedule.FullRangeIsIncomplete` | compute-engine/lite-rpc/cluster-endpoints/src/json_rpc_leaders_getter.rs:77-97 | A query of a range as long as the cache is accepted, and on an empty window its answer misses the last slot |
| `CircularBuffer.CircularBuffer.constructor` | cloud-run/golang-engine/pkg/circular_buffer.go:18-23 | A new buffer is empty |
| `CircularBuffer.CircularBuffer.Add` | cloud-run/golang-engine/pkg/circular_buffer.go:26-38 | The item is appended; the oldest goes when the buffer is full |
| `CircularBuffer.CircularBuffer.GetRecent` | cloud-run/golang-engine/pkg/circular_buffer.go:41-66 | The n newest items in order, computed back from the head: the suffix of the sequence walked from the tail |
| `CircularBuffer.CircularBuffer.GetAll` | cloud-run/golang-engine/pkg/circular_buffer.go:69-71 | All items in order |
| `CircularBuffer.CircularBuffer.Clear` | cloud-run/golang-engine/pkg/circular_buffer.go:74-82 | The buffer is empty |
| `CircularBuffer.CircularBuffer.ForEach` | cloud-run/golang-engine/pkg/circular_buffer.go:111-126 | The items visited are a prefix of the contents, up to the first on which the function answers false |
| `CircularBuffer.CircularBuffer.Filter` | cloud-run/golang-engine/pkg/circular_buffer.go:129-148 | The items that satisfy the predicate, in order |
| `CircularBuffer.CircularBuffer.Map` | cloud-run/golang-engine/pkg/circular_buffer.go:151-168 | The function applied to each item, in order |
| `CircularBuffer.CircularBuffer.Reduce` | cloud-run/golang-engine/pkg/circular_buffer.go:171-187 | The left fold of the items |
| `CircularBuffer.CircularBuffer.Window` | cloud-run/golang-engine/pkg/circular_buffer.go:190-214 | Element i is the items i..i+w; one window per start; none when there are too few items |
| `CircularBuffer.HoldsTheLatest` | cloud-run/golang-engine/pkg/circular_buffer.go:26-38 | After any run of adds and clears the contents are the last items added since the clear, as many as fit |
| `CircularBuffer.PlacesExactly` | cloud-run/golang-engine/pkg/circular_buffer.go:129-148 | All the places of the items that satisfy the predicate, in order |
| `CircularBuffer.FilteredExactly` | cloud-run/golang-engine/pkg/circular_buffer.go:129-148 | Filtering keeps the items at those places, each once and in order |
| `CircularBuffer.FoldedExactly` | cloud-run/golang-engine/pkg/circular_buffer.go:171-187 | Reducing goes through the items in order from the initial value, so in two parts it goes on where the first ended |
| `CircularBuffer.RunOps` | cloud-run/golang-engine/pkg/circular_buffer.go:26-82 | The same of the buffer itself, over any run of calls |
| `TakeProfit.RearrangeTps` | cloud-run/solana-executor/utils/shuffle.py:3-56 | The whole computation: shares rounded half to even, raised to the minimum and adjusted from the end; a zero total of some amounts divides by zero |
| `TakeProfit.RaiseToMinimum` | cloud-run/solana-executor/utils/shuffle.py:22-24 | Each entry below the minimum becomes the minimum, the others stay |
| `TakeProfit.TakeFromLast` | cloud-run/solana-executor/utils/shuffle.py:30-42 | The excess is taken from the last entries, each smaller than what is left being emptied |
| `TakeProfit.GiveToLast` | cloud-run/solana-executor/utils/shuffle.py:45-54 | The deficit is given to the last positive entry |
| `TakeProfit.RoundingIsNearest` | cloud-run/solana-executor/utils/shuffle.py:14-19 | Rounding moves a number by at most a half, and a half only to an even number |
| `TakeProfit.QuantizedUnits` | cloud-run/solana-executor/utils/shuffle.py:17-19 | A quantized share is a whole number of units of the precision, the one nearest |
| `TakeProfit.PowersOfTen` | cloud-run/solana-executor/utils/shuffle.py:14-19 | The units of a precision are that power of ten |
| `TakeProfit.RaisedAsAsked` | cloud-run/solana-executor/utils/shuffle.py:12-24 | Each amount asked for is the quantity in proportion to it, rounded to the nearest with that precision and ties to even, or the minimum where that is below it |
| `TakeProfit.ExcessTaken` | cloud-run/solana-executor/utils/shuffle.py:36-42 | Of non-negative entries the excess is taken by the break if and only if it is there to be taken; the total drops by just that |
| `TakeProfit.OnlySuffixTaken` | cloud-run/solana-executor/utils/shuffle.py:36-42 | Taking the excess changes only a suffix, and empties all of it after its first entry |
| `TakeProfit.DeficitGiven` | cloud-run/solana-executor/utils/shuffle.py:51-54 | Giving the deficit raises the total by just that when some entry is positive, and lowers no entry |
| `TakeProfit.GivenToLastPositive` | cloud-run/solana-executor/utils/shuffle.py:51-54 | The deficit goes to the last positive entry, and no other entry changes |
| `TakeProfit.AdjustingConservesExactly` | cloud-run/solana-executor/utils/shuffle.py:28-54 | Adjusting non-negative entries reaches the quantity if and only if they sum to it already, or it is not negative and some entry is positive |
| `TakeProfit.RearrangedConserves` | cloud-run/solana-executor/utils/shuffle.py:3-56 | For a non-negative quantity, a total other than zero and a positive minimum the amounts returned sum exactly to the quantity and none is negative; they are those asked for, in proportion and at least the minimum, but that in deficit the last gets the difference, and in excess a suffix gives it up and the loop stops by its break |
| `TakeProfit.DividesByZeroExactly` | cloud-run/solana-executor/utils/shuffle.py:9-12 | The computation divides by zero if and only if there are amounts and they sum to zero; no amounts give none |
| `Percentages.DistributePercentages` | cloud-run/solana-executor/utils/partial.py:1-41 | Orders whose shares sum to 1 stay as they are; otherwise each is given its whole percentage in place |
| `Percentages.BumpLargest` | cloud-run/solana-executor/utils/partial.py:34-35 | One more for each of the first ranked entries, none for a negative remainder |
| `Percentages.RankedIsRanking` | cloud-run/solana-executor/utils/partial.py:31-31 | The indices ranked by fraction, largest first, equal ones in their original order |
| `Percentages.ScaledSumsTo100` | cloud-run/solana-executor/utils/partial.py:12-21 | What is missing is spread equally, so that differences stay as they were, and the shares then sum to one hundred percent |
| `Percentages.TruncatedExactly` | cloud-run/solana-executor/utils/partial.py:23-24 | Truncation drops the fraction, toward zero for either sign |
| `Percentages.RemainderInRange` | cloud-run/solana-executor/utils/partial.py:24-27 | The remainder never reaches the number of orders, so there is always an entry to bump, and it is not negative when no share is |
| `Percentages.PercentagesSumExactly` | cloud-run/solana-executor/utils/partial.py:24-35 | The percentages sum to 100 if and only if the truncated shares do not exceed it, as when no share is negative; otherwise they keep their truncated total |
| `Percentages.PercentagesByLargestRemainder` | cloud-run/solana-executor/utils/partial.py:24-35 | Each percentage is the truncated share or one more, within 1 of a non-negative share, and an entry bumped has a larger fraction than one left as it was, or the same and comes before it |
| `Percentages.NegativeSharesMiss100` | cloud-run/solana-executor/utils/partial.py:24-35 | With two negative shares the percentages sum to 101 |
| `BenchSchedule.Factorize` | compute-engine/lite-rpc/benchrunner-service/src/main.rs:175-183 | The digits of the run count, least significant first |
| `BenchSchedule.DigitAt` | compute-engine/lite-rpc/benchrunner-service/src/main.rs:175-183 | Digit k is the run count divided by the product of the dimensions before k, modulo dimension k: the first changes with every run |
| `BenchSchedule.DigitsOfValue` | compute-engine/lite-rpc/benchrunner-service/src/main.rs:175-183 | Every digit vector is the digits of its mixed-radix value, which is below the product |
| `BenchSchedule.FactorizeIsBijective` | compute-engine/lite-rpc/benchrunner-service/src/main.rs:175-183 | Every number below the product is the value of its digits, which are in range |
| `BenchSchedule.EachCombinationOnce` | compute-engine/lite-rpc/benchrunner-service/src/main.rs:93-100 | In any window of as many consecutive run counts as there are combinations every combination comes up exactly once |
| `BenchSchedule.EveryBenchOnce` | compute-engine/lite-rpc/benchrunner-service/src/main.rs:93-118 | A tenant runs every implementation with every configuration exactly once in any 2 * configurations consecutive runs |

## Left out

- Account contents, public keys, hashes: numbers compared for equality; the RPC account filters are arbitrary predicates on account data.
- Slot width: slots, run counts and positions are unbounded naturals; the code only compares 64-bit slots, except for `slot + leaders_to_cache_count` and `leader_slot + 1`, taken to stay below 2^64.
- Interleavings inside one account-store method: each is one atomic step (`SplitUpdateMissesConfirmation` says why that matters). Gauges and logging have no effect in the model.
- Entries of the account map shared by reference: an entry is taken out, updated and put back, so lock guards are not modelled.
- Multiplexer reconnects: theorems are about one incarnation, from empty state to the restart that `RestartsExactly` describes. Closed channels, failed sends, lag and channel capacities are not modelled.
- Block contents: a block is its slot, hash and level. The processed-slot stream (`create_grpc_multiplex_processed_slots_subscription`) is only a monotone filter.
- Notification and timeouts of the loader: a waiting call may return at any time; what it then reads, what the storage holds, and the loading of program accounts are not modelled. Only safety is proved.
- Answers of the leader RPC with more leaders than asked for are cut to what is asked for, as in the code; concurrent queries on the window are not interleaved.
- Ring buffer locking, `Count`, `IsFull`, `IsEmpty`, `Capacity`: one-line reads. A capacity of 0 and a negative count or window panic in Go and are excluded by type or precondition.
- Decimal context precision and binary floating point: amounts and shares are exact reals; the final conversions to float, and the signal raised when a quantized amount has too many digits, are not modelled.
- Python's `sorted`: modelled by an insertion that is proved to rank by fraction, ties in order.
- The benchmark runs themselves, and a configuration list that is empty (division by zero).
- Network, RPC, database, key-management and monitoring code, the exchange and DEX clients, the Go engine around the ring buffer, predictors and load balancer: plumbing, or parts whose central functions are missing.
