# Camp edit log — a Dafny model

`packing-list` keeps a "camp" document: a camp holds lists, and lists hold items. Clients edit it offline. Each edit is an operation that is applied at once to the client's speculative copy and queued. A sync call sends the queue to the server. The server appends it to the camp's operation log when the client is up to date. Otherwise it sends back the operations the client has not seen. The server stores the log in chunk records of 100 operations each. It writes the log and the camp record together with one conditional (compare-and-swap) update on the stored operation count.

The model covers these parts:

- the operation union and the projection that applies operations to a camp (`camp_operations.dfy`, `items.dfy`, `camp.dfy`);
- the server's one-against-one operation transform and its array walk (`transform.dfy`);
- the chunk arithmetic (`chunks.dfy`);
- the storage engine over an abstract state: a camp record `{name, lists, opCount}` plus a map from chunk id to operations per camp, with each write one atomic step (`store.dfy`);
- the server's sync decision tree (`camp_api.dfy`, with the response shape in `protocol.dfy`);
- the client's per-camp sync record, in both its record form (`camp_manager.dfy`) and its older class form (`camp_store.dfy`);
- the redux reducers and selectors (`actions.dfy`, `camp_reducer.dfy`, `user_reducer.dfy`, `selectors.dfy`).

Exceptions the source throws are `Err` values of `Results.Result` (`results.dfy`), one `Failure` per message.

The main abstraction is `Store.ChunkedLog(s, id, log)`. It says that the stored chunks of camp `id` are `log` cut into 100-operation pieces and that `opCount == |log|`. Against it, the model proves several things:

- a write succeeds exactly when its expected revision is `|log|`, and then appends its batch (`Store.WriteOnLog`);
- a read returns a suffix of the log (`Store.ReadOnLog`);
- any sequence of atomic writes leaves the old log followed by the committed batches in commit order (`Store.WritesAccumulate`).

Concurrency is modelled as writes by other callers in two windows. The first window is between `syncCamp`'s read and its own write (the `concurrent` parameter of `CampApi.SyncCamp`). The second is between a failed write and the re-read that follows it (the `later` parameter).

The model follows the code as written:

- The projection creates no placeholder lists or items. An operation on a missing list leaves the camp as it is, and unknown item ids are ignored.
- There are no rename operations.
- `syncCamp` makes a single write attempt; there is no retry loop. It never runs the transform, and on a lost write it returns the foreign operations.
- On `NEED_UPDATE` the client drops the operations it sent and does not rebase them (`CampManagers.NeedUpdateDropsSentOps`).

## Model

| member | source | states |
|---|---|---|
| Items.NewItem | server/src/model/common/item.ts:8-15 | A new item keeps the given id and name, is UNPURCHASED and is not deleted. |
| CampOperations.TypeOf | common/src/model/campOperations.ts:45-51 | Each of the six type tags belongs to exactly one operation variant, and each variant to exactly one tag. |
| CampOperations.Absorb | server/src/datasources/camp.ts:74 | An absorbed operation is an IDENTITY with the same id and timestamp. |
| Camps.FindList | common/src/model/camp.ts:34 | `lists.find` by id: it returns the first list with that id, and nothing exactly when no list has it. |
| Camps.ApplyOperationToCamp | common/src/model/camp.ts:22-67 | It succeeds exactly on the four list operations and fails with "unknown operation" otherwise. It never changes the camp's id, name or revision. Every operation other than CREATE_CAMP_LIST keeps the number of lists. |
| Camps.ApplyNoOperations | common/src/model/camp.ts:12-20 | Applying no operations returns the camp unchanged. |
| Camps.ApplyOneOperation | common/src/model/camp.ts:12-20 | Folding over one operation is applying that operation. |
| Camps.ApplyConcat | common/src/model/camp.ts:12-20 | Folding over `a + b` folds over `a`, then over `b`; a failure in `a` aborts the whole fold. |
| Camps.ApplyAllSucceeds | common/src/model/camp.ts:12-20 | The fold succeeds exactly when every operation is one of the four list operations, and fails with "unknown operation" otherwise. It keeps id, name and revision. |
| Camps.CreateListAppends | common/src/model/camp.ts:27-32 | CREATE_CAMP_LIST appends exactly one empty list with the operation's id and name. The existing lists keep their order. |
| Camps.CreateItemAppends | common/src/model/camp.ts:33-46 | CREATE_CAMP_ITEM on a missing list returns the camp unchanged. Otherwise it appends one default item to the first list with that id, and every other list stays the same. |
| Camps.ChangeItemsSetsField | common/src/model/camp.ts:47-62 | The two item-change operations set their field on exactly those items of the first matching list whose id is targeted. Item ids, names and the other field are kept, no item is added, and the other lists are untouched. |
| Camps.ChangeItemsNoOp | common/src/model/camp.ts:69-99 | An item change returns the camp unchanged exactly when the list is missing or every targeted item already has the target value. |
| Transform.LaterIsAsymmetric | server/src/datasources/camp.ts:72 | The timestamp comparison (JavaScript string order) is irreflexive and asymmetric. |
| Transform.LaterIsTotal | server/src/datasources/camp.ts:72 | Of two different timestamps, one is later than the other. |
| Transform.Subtract | server/src/datasources/camp.ts:105 | The surviving ids are exactly the client ids that are not among the server's ids, and there are never more of them than client ids. Each surviving id occurs as often as in the client's ids, and a removed id not at all. |
| Transform.SubtractKeepsOrder | server/src/datasources/camp.ts:105 | The surviving ids keep the client's order: they form a subsequence of the client's ids. |
| Transform.SubtractKeepsAll | server/src/datasources/camp.ts:105-108 | No id is removed exactly when the two id lists are disjoint; an unchanged length means an unchanged list. |
| Transform.SubtractAll | server/src/datasources/camp.ts:105-111 | When every client id is among the server's, nothing survives. |
| Transform.TransformListOp | server/src/datasources/camp.ts:98-117 | The server operation always comes back unchanged. Operations on different lists both pass through. |
| Transform.TransformListOpOutcome | server/src/datasources/camp.ts:102-116 | The client op comes back unchanged exactly when the lists differ or no id is removed. It is absorbed into IDENTITY when every id is removed. Otherwise only its ids change, to the survivors. |
| Transform.TransformOp | server/src/datasources/camp.ts:68-94 | A later client op absorbs the server op. Otherwise ops of different types pass through. Same-type CREATE_CAMP_LIST and CREATE_CAMP_ITEM pass through unchanged. Same-type item changes give exactly the list-op transform's pair. Same-type IDENTITY and CREATE_CAMP fail with "illegal client op type", and that is the only way it fails. When the client op is not later, the server op comes back unchanged. |
| Transform.TransformOpReduces | server/src/datasources/camp.ts:68-117 | A transformed client op is either unchanged, absorbed, or the same op with a strict subsequence of its ids. |
| Transform.IdenticalOpIsAbsorbed | server/src/datasources/camp.ts:105-111 | An item change transformed against itself is absorbed into IDENTITY. |
| Transform.DisjointOpsPassThrough | server/src/datasources/camp.ts:102-108 | An item change whose ids are disjoint from the server op's comes back unchanged. |
| Transform.StoreAt | server/src/datasources/camp.ts:58 | The JavaScript array store: it writes one slot, extends the array with holes when the index is past the end, and leaves every other slot alone. |
| Transform.TransformPass | server/src/datasources/camp.ts:54-63 | One pass of the inner loop. Slots before the starting index are never written. Every slot afterwards holds what it held before (a hole past the old end) or a reduced form of the client op with the same index. The array never shrinks and never grows past the longer input. When every remaining client op passes the server op unchanged, the array is untouched. Failures are "illegal client op type". |
| Transform.TransformAll | server/src/datasources/camp.ts:53-65 | The fold of passes over the server slots, each pass reading its server op from the array as earlier passes left it. It keeps the same slot, length, no-change and failure guarantees as one pass. |
| Transform.PassWritesChangedOp | server/src/datasources/camp.ts:54-62 | If a pass reaches client slot `i` holding server op `s`, and `transformOp(clientOps[i], s)` changes the client op, then a successful pass leaves exactly that changed op in slot `i`. |
| Transform.PassStopsAtAbsorption | server/src/datasources/camp.ts:59-61 | If a pass reaches client slot `i` and the server op is absorbed there, the pass succeeds and no slot after `i` is written or added. |
| Transform.TransformPassLoop | server/src/datasources/camp.ts:54-63 | The imperative inner loop computes exactly the pass `TransformPass(arr, clientOps, serverOp, 0)`, including its early return on a failure and its stop on IDENTITY. |
| Transform.TransformAllOnServerOps | server/src/datasources/camp.ts:52-66 | Over the array built from `serverOps`, the fold keeps the first `serverOps.length` slots filled, keeps every slot to its server op or a reduced client op of the same index, never outgrows the longer input, and leaves the array as it was when no client op changes against any server op. |
| Transform.TransformOps | server/src/datasources/camp.ts:52-66 | The imperative walk returns exactly the fold `TransformAll` over the array built from `serverOps`. It therefore writes changed client ops into the server array, never into the client ops. Every slot holds its server op or a reduced client op of the same index. The first `serverOps.length` slots stay filled, and the array never grows past the longer input. When no client op changes, the server array is untouched. Failures are "illegal client op type". |
| Chunks.TilesCount | server/src/model/store.ts:348-382 | A slicing of an operation range has counts that sum to the range's length and start indices inside a chunk. |
| Chunks.TilesConcat | server/src/model/store.ts:348-382 | Slicings of adjacent ranges join into a slicing of their union. |
| Chunks.FullChunksTile | server/src/model/store.ts:363-369 | The middle-chunk loop slices the range of its full chunks exactly. |
| Chunks.FullChunksShape | server/src/model/store.ts:363-369 | The middle-chunk loop yields one full slice per chunk id from `from` to `to - 1`, in order. |
| Chunks.GetChunkSlicesTiles | server/src/model/store.ts:348-382 | For a non-empty range the slices cover `firstOp .. firstOp + count - 1` exactly, in order, with no empty piece. So no empty trailing slice appears when the range ends on a chunk boundary. |
| Chunks.GetChunkSlicesShape | server/src/model/store.ts:348-382 | The first slice is in chunk `firstOp / 100` at `firstOp % 100`, and the counts sum to `count`. Each slice fits in its chunk, chunk ids are consecutive, later slices start at 0, and middle slices are full. |
| Chunks.TilesPiecesNonEmpty | server/src/model/store.ts:370-380 | No piece of a slicing is empty. |
| Chunks.TilesBounded | server/src/model/store.ts:354-380 | Every piece of a slicing fits inside its chunk. |
| Store.SliceOf | server/src/model/store.ts:255 | `$slice: [start, count]` returns exactly the requested part when it lies inside the array. |
| Store.CreateCamp | server/src/model/store.ts:139-153 | The insert succeeds exactly when the id is unused, and it stores the record `{name, lists, opCount}`. |
| Store.UpdateCamp | server/src/model/store.ts:155-179 | It modifies the record only when the stored `opCount` equals the expected revision. It then stores the name, lists and `opCount := lastServerOp + newOpCount`; otherwise the state is unchanged. |
| Store.WriteSlice | server/src/model/store.ts:312-332 | A slice write fails exactly when it would insert a chunk (index 0) that already exists. |
| Store.WriteSliceEffect | server/src/model/store.ts:312-332 | A slice at index 0 creates its chunk holding exactly the slice's operations; any other slice appends them to its existing chunk; no other chunk changes. |
| Store.WriteCamp | server/src/model/store.ts:270-341 | A failed write, including a stale update, changes nothing. A create stores the record with `opCount = newOps.length`. An update happens only at the stored revision. Other camps' chunks are never touched. |
| Store.GetCampWithOps | server/src/model/store.ts:217-268 | A missing camp reads as nothing with no operations. A present camp reads with `revision = opCount`, and `nextOp >= opCount` reads no operations. |
| Store.ChunkStep | server/src/model/store.ts:307-333 | Writing the slice that continues a chunked log yields the chunked form of the longer log, whether it starts a new chunk or extends the last one. |
| Store.WriteSlicesAppends | server/src/model/store.ts:307-333 | Distributing a batch over the slices of `getChunkSlices(|log|, |batch|)` appends the batch to the log, in order. |
| Store.ReadSlicesReturnsLog | server/src/model/store.ts:247-266 | Reading the slices of a range from a chunked log returns exactly that range of the log, in order. |
| Store.WriteOnLog | server/src/model/store.ts:294-340 | An update succeeds exactly when its expected revision is the log's length. On success the log becomes `log + newOps` and the record carries the new count; otherwise the state is unchanged. |
| Store.CreateStartsLog | server/src/model/store.ts:291-292 | A create under an unused id succeeds, and the camp's log is exactly the batch. |
| Store.ReadOnLog | server/src/model/store.ts:234-266 | A read from `nextOp` returns the camp at revision `|log|` and the log from `nextOp` on, or nothing when `nextOp >= |log|`. |
| Store.WritesAccumulate | server/src/model/store.ts:270-341 | Under any sequence of atomic updates, the stored log is the old log followed by the committed batches, in commit order. |
| Store.OneWriterWins | server/src/model/store.ts:294-304 | Of several updates that all expect the current revision, exactly the first to run succeeds. |
| Store.AllStale | server/src/model/store.ts:300-304 | Updates that expect a revision other than the stored one all fail, and the state is unchanged. |
| CampApi.CreateCamp | server/src/datasources/camp-api.ts:94-122 | An unauthenticated caller fails first. A batch without a CREATE_CAMP name fails with "No name". A rest of the batch the projection rejects fails with "unknown operation". A create under an unused id returns ALL_GOOD with the new id, and the log is exactly the batch. The stored record is the name, the lists of the rest of the batch applied to an empty camp, and `opCount = ops.length`. Reading it back reports revision `ops.length`. |
| CampApi.WriteClientOps | server/src/datasources/camp-api.ts:66-91 | Over a log `log` and concurrent commits `committed`, there are three outcomes. If `opIndex` equals the new length, the result is ALL_GOOD, the log becomes `log + committed + clientOps`, and the record holds the name and lists of `applyOperationsToCamp(oldCamp, clientOps)` with `opCount = opIndex + clientOps.length`. Otherwise nothing of ours is written, and the re-read runs after the `later` commits. If `opIndex` is below the length of `log + committed + later commits`, NEED_UPDATE returns that log from `opIndex` on. When `opIndex` was the length at the read, that is `committed` followed by the later commits (`CampApi.BeatenOutcome`). If `opIndex` is not below it, the result is "Something terrible happened". A batch the projection rejects fails with "unknown operation". |
| CampApi.BeatenOutcome | server/src/datasources/camp-api.ts:70-91 | A write that was up to date at the handler's read (`opIndex == |log|`) but was beaten by a non-empty `committed` yields NEED_UPDATE with `committed` followed by the later commits: the foreign operations and nothing else. The store is the one the re-read saw. |
| CampApi.SyncCamp | server/src/datasources/camp-api.ts:35-92 | The whole decision tree. Authentication comes first; CREATE_CAMP is only accepted at revision 0, where the create outcomes of `CreateCamp` apply, "No name" and the stored record included. `opIndex < 1` or an empty id is rejected; a missing camp is rejected. Unseen server operations mean NEED_UPDATE with exactly `log[opIndex..]` and no write. With nothing to send and nothing new the result is ALL_GOOD and nothing is written. Otherwise the batch goes to the conditional write applied to the camp as read, with the three outcomes of `WriteClientOps`, the lost-changes error included. A write beaten when it was up to date gets back the commits that beat it, then those made before its re-read. |
| CampManagers.CreateNewCamp | client/src/model/campManager.ts:22-39 | A new local camp has its create op pending, revision 1, no confirmed snapshot and no request in flight. |
| CampManagers.ConnectCamp | client/src/model/campManager.ts:41-50 | A loaded camp has the speculative and confirmed snapshots equal, nothing pending, and `lastServerOperation` equal to the revision. |
| CampManagers.ResetCampManager | client/src/model/campManager.ts:52-57 | Only `synchronizing` changes, and it becomes false. |
| CampManagers.SynchronizeCamp | client/src/model/campManager.ts:67-88 | A manager already synchronizing is returned unchanged and sends nothing, so at most one request is in flight. Otherwise only the flag is set, and the request carries the id, the revision and all pending ops. |
| CampManagers.ApplyUserOperation | client/src/model/campManager.ts:163-170 | A projectable op is appended to the pending ops and applied to `current`, and nothing else changes. Any other op fails. |
| CampManagers.SyncResponse | client/src/model/campManager.ts:108-161 | RETRY changes only the flag. ALL_GOOD drops the sent ops, advances the revision by their count, sets `server := current`, and takes a returned camp id. NEED_UPDATE is catastrophic without a confirmed snapshot and server ops, or when an id comes back. Otherwise it succeeds exactly when the server ops and then the remaining client ops both apply. It then rolls `server` forward, drops the sent ops, recomputes `current` from the rest, and advances the revision by the server ops' count. The only failures are "catastrophic" and "unknown operation". |
| CampManagers.ConnectCampConsistent | client/src/model/campManager.ts:41-50 | A loaded camp satisfies `current == apply(server, pending)`. |
| CampManagers.ApplyUserOperationConsistent | client/src/model/campManager.ts:163-170 | A local edit keeps `current == apply(server, pending)`. |
| CampManagers.AllGoodConsistent | client/src/model/campManager.ts:124-142 | ALL_GOOD for a round that carried every pending op leaves nothing pending and a consistent manager. |
| CampManagers.NeedUpdateConsistent | client/src/model/campManager.ts:143-157 | After NEED_UPDATE, `current == apply(server, pending)` holds again, whatever held before. `current` is the old confirmed snapshot with the server ops and then the unsent client ops applied in one fold. |
| CampManagers.RoundTripKeepsLaterOps | client/src/model/campManager.ts:124-142 | Over a full round, ALL_GOOD confirms exactly the ops the request carried. Ops added while it was in flight stay pending, in order, and the revision advances by the number sent. |
| CampManagers.NeedUpdateDropsSentOps | client/src/model/campManager.ts:143-157 | NEED_UPDATE after a round that carried every pending op leaves nothing pending, and `current` is the rolled-forward server snapshot. The sent ops are not rebased. |
| CampManagers.AllGoodWithLaterOpsIsInconsistent | client/src/model/campManager.ts:127-141 | With an op added during the round, ALL_GOOD makes `server` include that unsent op, so `current == apply(server, pending)` can break. A concrete two-list camp, consistent before the response, shows it breaking. |
| CampStores.NewCampStore | client/src/model/campStore.ts:5-16 | A new store holds the camp as `current`, with no confirmed snapshot, revision 0, no ops, start index 0, and not synchronizing. |
| CampStores.ApplyUserOperation | client/src/model/campStore.ts:18-22 | The op is queued whether or not the projection throws. On success `current` is the projected camp; on a throw `current` is unchanged and the error is "unknown operation". |
| CampStores.Synchronize | client/src/model/campStore.ts:24-31 | While synchronizing nothing changes; otherwise only the flag is set. |
| CampStores.SynchronizeIdempotent | client/src/model/campStore.ts:24-31 | Calling `synchronize` twice has the effect of calling it once. |
| CampStores.ApplyAgreesWithManager | client/src/model/campStore.ts:18-22 | On a projectable op the class and record forms agree. On any other op the class still queues it, while the record form fails. |
| CampReducer.Reduce | client/src/redux/reducers/campReducer.ts:12-92 | CREATE_CAMP appends and selects the manager. LOGIN connects one manager per camp, in order, and clears both selections. LOGOUT gives the initial state. Open and close actions touch only the selection. SYNCHRONIZE_START sets only the flag of matching managers. A response for an unknown camp and any unknown action change nothing. |
| CampReducer.SynchronizeStartMatchesManager | client/src/redux/reducers/campReducer.ts:17-24 | SYNCHRONIZE_START marks a matching manager exactly as `synchronizeCamp` does. |
| CampReducer.SynchronizeStartIdempotent | client/src/redux/reducers/campReducer.ts:17-24 | SYNCHRONIZE_START twice is SYNCHRONIZE_START once. |
| CampReducer.SynchronizeResponseReplaces | client/src/redux/reducers/campReducer.ts:25-41 | A response for a held camp puts the new manager in every slot of that camp and keeps the others and the list selection. The camp selection follows the new id only when that camp was selected. |
| CampReducer.UpdateCampReplaces | client/src/redux/reducers/campReducer.ts:73-80 | UPDATE_CAMP replaces the managers with the same id, and keeps the number of managers, their order and the selection. |
| CampReducer.LoginConnectsAll | client/src/redux/reducers/campReducer.ts:81-86 | After LOGIN every manager is consistent and idle, has nothing pending, and carries its camp's id. |
| UserReducer.Reduce | client/src/redux/reducers/userReducer.ts:10-34 | LOGIN sets the token and the user info and drops `isLoggingIn`. LOGOUT clears the session. Any other action changes nothing. |
| UserReducer.LoginUsesDisplayName | client/src/redux/reducers/userReducer.ts:20 | The stored username is the user's display name, so it differs from the account username whenever the two differ. |
| UserReducer.LogoutForgetsLogin | client/src/redux/reducers/userReducer.ts:15-30 | LOGIN followed by LOGOUT leaves the initial state, whatever came before. |
| Selectors.SelectedCamp | client/src/redux/selectors/index.ts:4-10 | The selected camp is the `current` of the first manager with the selected id. There is none exactly when nothing is selected or no manager matches. |
| Selectors.SelectedList | client/src/redux/selectors/index.ts:12-18 | There is no list without a camp. Otherwise the selected list is the first list with the selected id, and there is none exactly when no list has it. |
| Selectors.CreateCampSelectsIt | client/src/redux/reducers/campReducer.ts:66-72 | After CREATE_CAMP of a new id, the selected camp is the new manager's snapshot. |
| Selectors.CloseCampSelectsNothing | client/src/redux/reducers/campReducer.ts:48-53 | After CLOSE_CAMP neither a camp nor a list is selected. |
| Selectors.LoginSelectsNothing | client/src/redux/reducers/campReducer.ts:81-86 | After LOGIN no camp is selected. |

## Left out

- Transform.Later: characters are compared as Unicode code points. JavaScript compares UTF-16 code units, which orders differently only when a character outside the Basic Multilingual Plane meets one in U+E000..U+FFFF. Timestamps come from `Date.toJSON` (client/src/model/util.ts:20), which is ASCII.
- CampManagers.AllGoodWithLaterOpsIsInconsistent: it shows one camp where the invariant breaks. It does not characterise when it breaks; an op added during the round that leaves the camp unchanged, such as an item change on a missing list, keeps it.
- Transform.TransformOp: the IDENTITY made from an absorbed op keeps only its id and timestamp. The source's object spread also carries the old payload fields, but no code reads them from an IDENTITY.
- Camps.ApplyOperationToCamp: a list is replaced by reference identity (`l === list`). The model replaces the first list with the id, which is the same list as long as list objects are distinct.
- Lists are `List(id, name, items)` with items defaulting to empty. The List class file (common/src/model/list.ts) is not part of this model.
- CampManagers.SyncResponse: an unknown sync status is unrepresentable, because the status is a three-value datatype. The source throws "Unknown sync state".
- CampApi.SyncCamp: `lastOp` is ignored, as in the source. Adding the camp to the user's record (`addCampToUser`) is not modelled.
- MongoDB plumbing is not modelled: connections, collections, ObjectID parsing, user CRUD, and the driver's `withTransaction` retries. A transaction is one atomic step, and a thrown error inside it (a duplicate chunk insert, or an empty batch reading `newOps[0]`) rolls the whole write back.
- Store.OneWriterWins: concurrency is a sequence of atomic writes. The store's own test runs ten writes with different expected revisions, and its "exactly one succeeds" outcome comes from MongoDB transaction write conflicts, which the model does not have.
- Store.GetCampWithOps: `nextOp` is a natural number. A negative `nextOp` cannot reach it through `syncCamp`, which rejects `opIndex < 1` first.
- The GraphQL/Apollo transport is not modelled. That includes the mapping of `updatedOps` to `serverOps`, the RPC in `startSync`, and its fallback to RETRY when the call throws.
- Debounced timers (`lazySynchronize`), redux dispatch and localStorage persistence are not modelled; a debounced call changes no state.
- Authentication is not modelled: the caller is just a possibly empty user id.
- Ids and timestamps are parameters. The uuid and `Date` helpers are not modelled, and the fresh camp id a create receives is a parameter too.
- The server's `camp.ts` `syncCamp` and `createCamp`, and the client action creators, are not modelled. They are written against older versions of the store and action APIs.
