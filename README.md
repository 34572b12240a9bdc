# Local-first text anchors and delta-sync client, modelled in Dafny

This project models two pieces of a local-first toolkit and proves properties about them.

**Position ⇄ location translation for the tree text CRDT** (`packages/text-crdt/loc.js`).
A document is a forest of nodes. Each node has:

- an id `[counter, site]`, which names the first character of its run of text;
- the text, a `deleted` flag and its children;
- the key of its parent, where `0:root` means top level;
- a cached `size`: the number of live characters in the node and all its descendants.

The document also keeps a key → node map.

- `posToLoc` turns a linear offset into a stable anchor, walking the forest with the size caches:
  - a *pre* anchor names the character left of the offset;
  - a *post* anchor names the character right of it;
  - `[0, root]` and `[1, root]` are the start and end sentinels.
- `locToPos` goes back the other way:
  - it finds the node whose run owns the anchor, scanning counters downward (`nodeForLoc`);
  - it counts the live characters before that node along its ancestor chain (`charactersBeforeNode`);
  - it adds the offset into the run, plus one for a pre anchor.

The model has three modules:

- `TextTree`: the document and its well-formedness invariants.
- `TextLoc`: one recursive specification function per procedure, plus every procedure as a method that runs the source's loops. Each method is proved to compute its function.
- `TextLocProofs`: the properties, up to the round trip `locToPos(posToLoc(pos)) == pos`.

**Client-side delta-sync collections** (`examples/simple-example/client/src/client.js`).
A client owns named collections. Each collection has:

- a hybrid logical clock;
- an id → document map;
- a queue of local deltas waiting to be sent;
- listener lists.

How the client updates them:

- `applyDeltas` folds a batch of deltas into the documents, creating empty documents on first sight, then calls the collection listeners with one change list.
- A `'sync'` message applies deltas and advances the clock with their greatest stamp.
- A `'full'` message merges or adopts snapshots and advances the clock with their greatest latest stamp.
- `save`, `setAttribute` and `delete` stamp a local change and apply it. The first two also queue it.

The CRDT and the clock are uninterpreted: they are records of total functions (`SyncSpec.CrdtImpl`, `SyncSpec.ClockImpl`). Stamps are strings compared with JavaScript's `<` (`JsString.Less`).

How the code is organised:

- `SyncSpec` holds the state of one collection as a value, plus one transition function per operation and the lemmas about them.
- `SyncClient` holds the classes `Collection` and `Client`:
  - their fields are updated in place;
  - each method ensures that its new `State()` is the matching transition of the old one.
- `Wrappers` holds `Option` and `Result`.

## Model

| member | source | states |
|---|---|---|
| TextTree.Own | packages/text-crdt/loc.js:36-41 | a node contributes no own characters exactly when it is deleted or its text is empty |
| TextTree.IndexOf | packages/text-crdt/loc.js:155 | `indexOf` gives -1 exactly when the node is not among the siblings, and otherwise the index of its first occurrence |
| TextTree.IndexFrom | packages/text-crdt/loc.js:155 | the search from index `i` on finds a node exactly when it occurs in `s[i..]`, and then at its first occurrence there |
| TextTree.Length | packages/text-crdt/loc.js:123-124 | the sum of the roots' cached sizes is the length of the document's visible text whenever every root's size cache is consistent |
| TextTree.SizeCountsText | packages/text-crdt/loc.js:29-54 | a node with consistent size caches has as `size` the length of the visible text of its subtree |
| TextTree.SizesCountText | packages/text-crdt/loc.js:60-66 | the cached sizes of the first `k` siblings add up to the length of their visible text |
| TextTree.IndexOfDistinct | packages/text-crdt/loc.js:155 | among siblings with distinct ids, `indexOf` finds a node at its own index |
| TextLoc.LocOf | packages/text-crdt/loc.js:113-131 | a successful `posToLoc` result is anchored on the side asked for (`pre == anchorLeft`) |
| TextLoc.PosToPreLocForNode | packages/text-crdt/loc.js:29-54 | the loop that decrements `pos` over the children computes the node's pre anchor `PreLocInNode`, including its two throws |
| TextLoc.PosToPreLoc | packages/text-crdt/loc.js:57-68 | the loop over the roots computes `PreLoc`: the start sentinel at 0, otherwise the descent into the first root that holds the position, otherwise out of bounds |
| TextLoc.PosToPostLocForNode | packages/text-crdt/loc.js:70-95 | the children loop computes the node's post anchor `PostLocInNode`, including its two throws |
| TextLoc.PosToPostLoc | packages/text-crdt/loc.js:98-109 | the loop over the roots computes `PostLoc`: the descent into the first root with `pos < size`, otherwise the end sentinel when exactly the length is left, otherwise out of bounds |
| TextLoc.PosToLoc | packages/text-crdt/loc.js:113-131 | the bounds check followed by the side's walk computes `LocOf` |
| TextLoc.NodeForLoc | packages/text-crdt/loc.js:133-143 | the descending counter loop computes `Owner`, which is characterised by `TextLocProofs.OwnerIsLatest` |
| TextLoc.SizesBefore | packages/text-crdt/loc.js:163-165 | the loop over the preceding siblings adds up exactly their cached sizes |
| TextLoc.ClimbOne | packages/text-crdt/loc.js:150-173 | one pass of the walk either settles `CharsBefore` (a top-level node, a missing parent, a node missing from its siblings) or moves to the parent, reducing `CharsBefore` of the node to that of a strictly heavier parent plus a fixed amount |
| TextLoc.CharsBeforeStop | packages/text-crdt/loc.js:151-167 | where the walk stops, `CharsBefore` is a missing-parent failure, a not-in-parent failure, or the sizes of the preceding roots |
| TextLoc.CharactersBeforeNode | packages/text-crdt/loc.js:145-176 | the walk up the parent chain computes `CharsBefore`. The model's walk terminates because each parent weighs more than its child. It fails when a parent key has no entry or a node is missing from its siblings |
| TextLoc.LocToPos | packages/text-crdt/loc.js:178-192 | the straight-line `locToPos` computes `PosOf` |
| TextLoc.HeavierShrinks | packages/text-crdt/loc.js:150-173 | moving from a node to its parent strictly shrinks the set of heavier map entries, so the parent walk ends |
| TextLocProofs.OwnerIsLatest | packages/text-crdt/loc.js:133-143 | `nodeForLoc` finds nothing exactly when no entry `[j, site]` exists for `0 <= j <= loc.id`; otherwise it finds the entry with the largest such `j` |
| TextLocProofs.OwnerInRun | packages/text-crdt/loc.js:137-141 | inside a run that no later node of the site starts within, the owner is the run's node |
| TextLocProofs.OwnerOfRunChar | packages/text-crdt/loc.js:133-143 | when runs are disjoint, every character of a linked node's run is owned by that node |
| TextLocProofs.PosOfOwned | packages/text-crdt/loc.js:183-191 | the position of a character owned by `n` is the characters before `n`, plus the offset into the run, plus one when pre |
| TextLocProofs.PosOfRunChar | packages/text-crdt/loc.js:178-192 | `locToPos` of a character in a linked node's run, for disjoint runs |
| TextLocProofs.CharsBeforeNotNoSuchLoc | packages/text-crdt/loc.js:145-176 | `charactersBeforeNode` has no "loc does not exist" failure; only `locToPos`'s own owner check raises it |
| TextLocProofs.LocToPosCases | packages/text-crdt/loc.js:178-186 | a root location gives 0 for id 0 and the length otherwise. Any other location fails with "does not exist" exactly when its site has no node from `loc.id` down to 0 |
| TextLocProofs.LocToPosAtLatest | packages/text-crdt/loc.js:183-191 | otherwise the result is the latest such node's `charactersBeforeNode`, plus `loc.id - node.id[0]`, plus one for a pre anchor |
| TextLocProofs.RootCharsBefore | packages/text-crdt/loc.js:151-167 | a top-level node is preceded by exactly the sizes of the roots before it |
| TextLocProofs.ChildCharsBefore | packages/text-crdt/loc.js:163-172 | a child is preceded by what precedes its parent, plus the parent's live text, plus the sizes of its earlier siblings |
| TextLocProofs.SizeCachesSuffice | packages/text-crdt/loc.js:42-53 | when size caches are consistent, a pre position in `1..size` and a post position in `0..size-1` always resolve, so the "size caches must have been miscalculated" throw cannot happen |
| TextLocProofs.PreChildrenSuffice | packages/text-crdt/loc.js:42-48 | the pre children loop finds a child whenever the remaining position is within the remaining children's sizes |
| TextLocProofs.PostChildrenSuffice | packages/text-crdt/loc.js:83-89 | the post children loop finds a child whenever the remaining position is below the remaining children's sizes |
| TextLocProofs.LiveRunAnchors | packages/text-crdt/loc.js:36-39 | when a live node's own text covers the position, the pre anchor is `[id[0] + pos - 1, site]` and the post anchor is `[id[0] + pos, site]` (also loc.js:77-80) |
| TextLocProofs.NodeWalkInBounds | packages/text-crdt/loc.js:29-54 | the walk inside a node never reports out of bounds (likewise loc.js:70-95) |
| TextLocProofs.PreRootsInBounds | packages/text-crdt/loc.js:61-67 | the pre roots loop never falls off the end for a position up to the total size |
| TextLocProofs.PostRootsInBounds | packages/text-crdt/loc.js:99-108 | the post roots loop never reports out of bounds for a position up to the total size |
| TextLocProofs.OutOfBoundsExactly | packages/text-crdt/loc.js:123-126 | for every document and non-negative position, `posToLoc` reports out of bounds exactly when `pos > length` |
| TextLocProofs.PostRootsAtEnd | packages/text-crdt/loc.js:99-107 | with exactly the length left, the post roots loop ends at the end sentinel `[1, root]` |
| TextLocProofs.RootSentinels | packages/text-crdt/loc.js:15-27 | position 0 anchored left is `{0, root, pre}`, and the length anchored right is `{1, root, post}` (loc.js:57-60, 98-108) |
| TextLocProofs.PreChildSelect | packages/text-crdt/loc.js:42-48 | the pre children loop recurses into the first child with `pos <= child.size`, subtracting the sizes of the skipped siblings |
| TextLocProofs.PostChildSelect | packages/text-crdt/loc.js:83-89 | the post children loop recurses into the first child with `pos < child.size`, subtracting the sizes of the skipped siblings |
| TextLocProofs.PreRootSelect | packages/text-crdt/loc.js:61-66 | the pre roots loop descends into the first root that holds the position |
| TextLocProofs.PostRootSelect | packages/text-crdt/loc.js:99-104 | the post roots loop descends into the first root that holds the position |
| TextLocProofs.PreNodeFind | packages/text-crdt/loc.js:29-54 | a pre descent from a linked, well-cached node ends on a character of some map entry's run. The characters before that entry are the position minus the offset minus one |
| TextLocProofs.PreDescend | packages/text-crdt/loc.js:40-48 | the same fact for a descent that goes past the node's own text into its children |
| TextLocProofs.PostNodeFind | packages/text-crdt/loc.js:70-95 | a post descent from a linked, well-cached node ends on a character of some map entry's run. The characters before that entry are the position minus the offset |
| TextLocProofs.PostDescend | packages/text-crdt/loc.js:81-89 | the same fact for a descent that goes past the node's own text into its children |
| TextLocProofs.PreDocFind | packages/text-crdt/loc.js:57-68 | the whole-document pre walk ends on a character of a map entry's run |
| TextLocProofs.PostDocFind | packages/text-crdt/loc.js:98-104 | the whole-document post walk ends on a character of a map entry's run |
| TextLocProofs.PreRoundTrip | packages/text-crdt/loc.js:57-68 | for every `1 <= pos <= length`, `locToPos` of the pre anchor of `pos` is `pos` |
| TextLocProofs.PostRoundTrip | packages/text-crdt/loc.js:98-109 | for every `0 <= pos < length`, `locToPos` of the post anchor of `pos` is `pos` |
| TextLocProofs.NegativePositionEscapes | packages/text-crdt/loc.js:123-126 | a negative position passes the bounds check: on a well-formed one-run document, position -1 gives a location that `locToPos` rejects |
| TextLocProofs.LocRoundTrip | packages/text-crdt/loc.js:113-131 | on a well-formed document, for every `0 <= pos <= length` and both sides, `posToLoc` succeeds and `locToPos` of its result is `pos` (with loc.js:178-192) |
| JsString.Less | examples/simple-example/client/src/client.js:123-123 | `stamp > maxStamp` on strings holds exactly when one is a proper prefix of the other or has the larger character at the first index where they differ (also client.js:153) |
| JsString.LexicographicHead | examples/simple-example/client/src/client.js:123-123 | strings that differ in their first character are ordered by it |
| JsString.LexicographicTail | examples/simple-example/client/src/client.js:123-123 | strings with the same first character are ordered as their tails |
| JsString.LessIrreflexive | examples/simple-example/client/src/client.js:123 | no stamp is greater than itself |
| JsString.LessTransitive | examples/simple-example/client/src/client.js:123 | the order `stamp > maxStamp` is transitive |
| JsString.LessTotal | examples/simple-example/client/src/client.js:153 | any two different stamps are ordered one way or the other |
| SyncSpec.NodesOf | examples/simple-example/client/src/client.js:83-87 | definition: the set of ids the batch names; `SyncSpec.FirstOccurrencesSpec` proves that `Object.keys(changed)` lists exactly these ids, and `SyncSpec.ApplyBatchFrame` that they are the keys the batch adds |
| SyncSpec.ApplyBatchFrame | examples/simple-example/client/src/client.js:83-92 | after a batch, exactly the old ids and the batch's ids have documents, and ids the batch does not name keep their documents |
| SyncSpec.ApplyBatchFolds | examples/simple-example/client/src/client.js:84-91 | each document after a batch is the in-order left fold of `applyDelta` over its own deltas. The fold starts from the old document, or from `createEmpty()` |
| SyncSpec.DeltasForAbsent | examples/simple-example/client/src/client.js:83-92 | a batch that never names an id holds no delta for it |
| SyncSpec.ValueOf | examples/simple-example/client/src/client.js:96 | definition: `crdt.value` of the stored document, or none for an id without one; `SyncSpec.ChangeListAt` and `SyncSpec.ChangesReported` prove that each change entry carries it |
| SyncSpec.FirstOccurrencesSpec | examples/simple-example/client/src/client.js:83-94 | `Object.keys(changed)` lists exactly the batch's ids, each once |
| SyncSpec.NodesOfSnoc | examples/simple-example/client/src/client.js:83-87 | the ids of a batch are the ids of all but its last delta, plus the last delta's id |
| SyncSpec.ChangeList | examples/simple-example/client/src/client.js:94-97 | the change list has one entry per changed id, in order |
| SyncSpec.ChangeListAt | examples/simple-example/client/src/client.js:94-97 | the `j`-th entry carries the current value of the `j`-th id |
| SyncSpec.ChangesReported | examples/simple-example/client/src/client.js:93-97 | each change entry names an id of the batch, no other entry names the same id, and its value is the value of the fold of that id's deltas |
| SyncSpec.Fanout | examples/simple-example/client/src/client.js:98-100 | every collection listener is called once, in registration order, with the same change list |
| SyncSpec.ItemFanout | examples/simple-example/client/src/client.js:104-106 | the item listeners of one id are called once each, in order, with that id's value |
| SyncSpec.ItemCallsSpec | examples/simple-example/client/src/client.js:102-108 | an item listener is called with a value exactly when it is registered for a changed id and the value is that id's value |
| SyncSpec.NoItemCalls | examples/simple-example/client/src/client.js:102-108 | without item registrations, no item listener is called |
| SyncSpec.Without | examples/simple-example/client/src/client.js:217-218 | filtering out `fn` leaves no registration of `fn`, and every other listener is kept as many times as it was registered |
| SyncSpec.OffAfterOn | examples/simple-example/client/src/client.js:215-218 | registering a new listener and then calling the returned unsubscribe restores the listener list |
| SyncSpec.WithoutAppend | examples/simple-example/client/src/client.js:217-218 | filtering distributes over concatenation, so the kept listeners stay in their registration order |
| SyncSpec.WithoutSnoc | examples/simple-example/client/src/client.js:217-218 | filtering a list is filtering all but its last listener, then keeping the last one unless it is `fn` |
| SyncSpec.WithoutOne | examples/simple-example/client/src/client.js:217-218 | a single registration is dropped exactly when it is `fn` |
| SyncSpec.WithoutAbsent | examples/simple-example/client/src/client.js:217-218 | unsubscribing a listener that is not registered changes nothing |
| SyncSpec.MergeSnapshots | examples/simple-example/client/src/client.js:140-147 | after a `'full'` merge, the key set is the union of the local and incoming keys |
| SyncSpec.MergeOneMore | examples/simple-example/client/src/client.js:141-147 | one step of the merge loop updates only its own id: merged when present, adopted otherwise |
| SyncSpec.LaterIsMax | examples/simple-example/client/src/client.js:123-125 | taking `stamp` when `maxStamp` is unset or below it keeps `maxStamp` the greatest stamp seen so far, or empty when every stamp seen is empty |
| SyncSpec.MaxStampUnique | examples/simple-example/client/src/client.js:120-126 | the greatest stamp is unique, so the clock is advanced with a well-defined stamp |
| SyncSpec.MaxStampTruthy | examples/simple-example/client/src/client.js:127 | the greatest stamp is truthy exactly when some stamp is non-empty |
| SyncSpec.MaxStampExists | examples/simple-example/client/src/client.js:150-156 | every finite set of stamps has a greatest element |
| SyncSpec.MaxStampIn | examples/simple-example/client/src/client.js:150-156 | the chosen stamp is the greatest one |
| SyncSpec.DeltaStamps | examples/simple-example/client/src/client.js:121-122 | definition: the stamps of the batch's deltas; `SyncClient.LatestDeltaStamp` proves the accumulator loop returns their greatest element (`SyncSpec.MaxStampIn`, unique by `SyncSpec.MaxStampUnique`), and `SyncSpec.SyncMeaning` that the clock receives it |
| SyncSpec.SnapshotStamps | examples/simple-example/client/src/client.js:151-152 | definition: the latest stamps of the message's snapshots; `SyncClient.LatestSnapshotStamp` proves the accumulator loop returns their greatest element (`SyncSpec.MaxStampIn`, unique by `SyncSpec.MaxStampUnique`), and `SyncSpec.FullMeaning` that the clock receives it |
| SyncSpec.Materialized | examples/simple-example/client/src/client.js:200-209 | definition: the ids whose value is non-null, each with that value; `SyncClient.Collection.LoadAll` proves the loop computes it and agrees with `load` on every id |
| SyncSpec.NewCollection | examples/simple-example/client/src/client.js:34-42 | definition: the clock `init(sessionId, now)`, no documents, no queued deltas and no listeners; `SyncClient.Collection.constructor` and `SyncSpec.MergeIntoEmpty` are stated against it |
| SyncSpec.SyncMeaning | examples/simple-example/client/src/client.js:114-133 | after `'sync'`: the key set is old plus batch ids; each named document is the fold of its deltas; unnamed documents are unchanged; the clock is kept when every stamp is empty, otherwise it is `recv(hlc, unpack(max))`; queue and listeners are unchanged |
| SyncSpec.FullMeaning | examples/simple-example/client/src/client.js:134-163 | after `'full'`: incoming ids are merged when present and adopted when not; absent ids are untouched; no listener is called; the clock is kept on all-empty latest stamps, otherwise it receives the maximum; queue and listeners are unchanged |
| SyncSpec.LocalChange | examples/simple-example/client/src/client.js:171-214 | a local change ticks the clock once with `inc(hlc, now)` and queues exactly its delta when asked. Its document becomes `applyDelta(old or empty, delta)` and every other document stays |
| SyncSpec.EmptyBatchNotifies | examples/simple-example/client/src/client.js:93-101 | an empty batch leaves the documents as they are, yet calls every collection listener with an empty change list |
| SyncSpec.MergeIntoEmpty | examples/simple-example/client/src/client.js:135-138 | adopting `msg.data` into a new collection gives the same documents as merging it into an empty one |
| SyncSpec.MergeTwice | examples/simple-example/client/src/client.js:140-147 | for an idempotent, associative `merge`, receiving the same `'full'` snapshot twice gives the same documents as receiving it once |
| SyncSpec.ItemLoopInert | examples/simple-example/client/src/client.js:102-108 | with no item registrations, `applyDeltas` calls only the collection listeners |
| SyncClient.LatestDeltaStamp | examples/simple-example/client/src/client.js:120-126 | the accumulator loop over the deltas returns the greatest delta stamp |
| SyncClient.DeltaStampsSnoc | examples/simple-example/client/src/client.js:121-122 | one more delta adds exactly its stamp |
| SyncClient.LatestSnapshotStamp | examples/simple-example/client/src/client.js:150-156 | the accumulator loop over the snapshots returns the greatest latest stamp |
| SyncClient.Collection.constructor | examples/simple-example/client/src/client.js:34-42 | a new collection's state is `NewCollection` |
| SyncClient.Collection.ApplyDeltas | examples/simple-example/client/src/client.js:78-109 | the new state is `AfterApply`: documents folded, then the listener calls appended; nothing else changes |
| SyncClient.Collection.FoldBatch | examples/simple-example/client/src/client.js:82-92 | the `forEach` loop leaves the documents at `ApplyBatch` and returns the keys of `changed` |
| SyncClient.Collection.CallListeners | examples/simple-example/client/src/client.js:98-100 | appends one call per collection listener |
| SyncClient.Collection.CallItemListeners | examples/simple-example/client/src/client.js:102-108 | appends the item listeners' calls for each changed id |
| SyncClient.Collection.CallItemListenersOf | examples/simple-example/client/src/client.js:103-107 | appends the calls of one id's item listeners |
| SyncClient.Collection.Ts | examples/simple-example/client/src/client.js:171-174 | the clock becomes `inc(hlc, now)` and the returned stamp packs the new clock |
| SyncClient.Collection.Save | examples/simple-example/client/src/client.js:176-182 | ticks the clock, queues the set-at-root delta and applies it to the document |
| SyncClient.Collection.SetAttribute | examples/simple-example/client/src/client.js:183-196 | ticks the clock, queues the set-at-`[key]` delta and applies it |
| SyncClient.Collection.Delete | examples/simple-example/client/src/client.js:210-214 | ticks the clock and applies a remove delta without queueing it |
| SyncClient.Collection.Load | examples/simple-example/client/src/client.js:197-199 | definition: `SyncSpec.ValueOf` of the collection's documents; `SyncClient.Collection.LoadAll` proves that `loadAll` holds an id exactly when `load` gives a value, and then that value |
| SyncClient.Collection.LoadAll | examples/simple-example/client/src/client.js:200-209 | returns exactly the ids whose `load` is non-null, each with the value `load` gives |
| SyncClient.Collection.OnChanges | examples/simple-example/client/src/client.js:215-216 | appends the listener; nothing else changes |
| SyncClient.Collection.OffChanges | examples/simple-example/client/src/client.js:217-218 | removes every registration of the listener; nothing else changes |
| SyncClient.Collection.Adopt | examples/simple-example/client/src/client.js:138 | a new collection takes `msg.data` as its documents |
| SyncClient.Collection.MergeFull | examples/simple-example/client/src/client.js:140-147 | an existing collection's documents become `MergeSnapshots`; nothing else changes |
| SyncClient.Collection.MergedInto | examples/simple-example/client/src/client.js:141-147 | the merge loop over `Object.keys(msg.data)` computes `MergeSnapshots` |
| SyncClient.Collection.ReceiveSync | examples/simple-example/client/src/client.js:119-133 | the collection's new state is `AfterSync` |
| SyncClient.Collection.ReceiveFull | examples/simple-example/client/src/client.js:135-163 | the collection's new state is `AfterFull`, whether it adopts (a new, empty collection) or merges |
| SyncClient.Collection.Recv | examples/simple-example/client/src/client.js:127-133 | the clock becomes `recv(hlc, unpack(stamp), now)` |
| SyncClient.Client.constructor | examples/simple-example/client/src/client.js:66-77 | a new client has no collections |
| SyncClient.Client.GetCollection | examples/simple-example/client/src/client.js:166-170 | returns the existing collection object untouched, or a fresh `NewCollection` stored under the key |
| SyncClient.Client.OnSync | examples/simple-example/client/src/client.js:114-133 | creates the collection if missing; its state becomes `AfterSync` of its old or new state; other collections are unchanged |
| SyncClient.Client.OnFull | examples/simple-example/client/src/client.js:134-163 | creates and adopts, or merges; the state becomes `AfterFull`; other collections are unchanged |
| SyncClient.Client.OnMessage | examples/simple-example/client/src/client.js:113-165 | dispatches `'sync'` and `'full'` with the guarantees of `OnSync` and `OnFull` |

## Left out

- Source `onItemChange` (client.js:220-233): not modelled. It registers into `col.listeners[id]`, not into `col.itemListeners`. So nothing ever fills `itemListeners`, and the per-item loop of `applyDeltas` calls nothing (`SyncSpec.ItemLoopInert`). Every collection starts with empty item listeners, and every transition keeps them as they are.
- The CRDT operations and the hybrid logical clock come from packages that are not part of this model. They are uninterpreted functions. `createEmpty` is a constant, `crdt.create` and `removeAt` are unused, and `merge` properties are assumed only where a lemma says so (`SyncSpec.MergeTwice`).
- Source `toKey` and `length` (`./utils`) are not part of this model. A key is the id pair itself (`0:root` is `Id(0, "root")`). `length` is the sum of the roots' sizes.
- Finding a node in its siblings (`indexOf`) compares by reference in the source. `TextTree.IndexOf` compares nodes as values. The value model builds in two assumptions under which the two agree. First, each map entry is the very node object held in the tree; `TextTree.Entry`'s `nodeMap[n.id] == n` is the value form of this. A map entry that is only a structurally equal copy makes the source throw "node not found in parents children" (loc.js:156-161), where the model finds the node. Second, the nodes form a finite tree with no sharing and no cycles, and siblings have distinct ids, as `TextTree.DocWF` requires.
- The source's parent walk (`while (node)`, loc.js:150-173) need not terminate when the parent chain is cyclic, for instance two map nodes that each list the other as a child. Datatype values cannot express such a document, so the model does not capture that non-termination.
- The text of the error messages is not modelled. Each throw is a `TextLoc.LocError` constant. Reading a missing parent (a TypeError in the source) is `MissingParent`.
- Text lengths count Dafny characters, and stamps compare by character code. JavaScript counts and compares UTF-16 code units. The two agree on text without surrogate pairs.
- `Date.now()` is a `now` parameter. Per message, one `now` serves both the new collection's `init` and the `recv`.
- Promises are dropped: operations return their results directly. The unused `send` argument is dropped too.
- Listener functions are opaque tokens (`ListenerId`). Calls are recorded in the collection's `log`, not run. Re-entrant listeners are not modelled.
- `SyncClient.Collection.OffChanges`: the source returns the unsubscribe closure from `onChanges`. The model is a method that does what the closure does.
- A null `maxStamp` is the empty string. In the source, both are falsy, so every branch behaves the same.
- `SyncSpec.ValueOf`: for an id without a document, `load` calls `crdt.value(undefined)`. The model gives none, because `value` is not defined on a missing document.
- Truthiness of a stored document (`if (!col.data[id])`) is modelled as the key being present, for own keys. This takes CRDT documents to be objects, which are always truthy.
- Ids and collection names are own keys of plain objects only. In the source, `collections`, `col.data` and `changed` are plain objects, so a name inherited from `Object.prototype` (`"constructor"`, `"toString"`, `"__proto__"`) is truthy before anything is stored under it (client.js:84, 103-104, 115-119, 135, 167). The model treats such a name as absent, so those names are outside the model.
- Positions, counters, sizes and text lengths are JavaScript numbers, which are exact only below 2^53. The model uses unbounded integers.
- `TextLocProofs.OutOfBoundsExactly` and `TextLocProofs.LocRoundTrip` are stated for `pos >= 0` only. The source checks only the upper bound (loc.js:124), so a negative position reaches the tree walk; `TextLocProofs.NegativePositionEscapes` shows one that `locToPos` then rejects.
- The order of `Object.keys` is the order of first occurrence. JavaScript lists integer-like keys first, in ascending order; that ordering is not modelled.
- `setAttribute`'s value has the same type as a document value, and its `full` argument is ignored, as in the source.
- Aliasing is not modelled. A new collection that adopts `msg.data` shares that object with the message, and later mutations are visible through both.
- Server messages other than `'sync'` and `'full'` are ignored by the source and are not represented.
- `SyncClient.Collection.ReceiveFull` requires an empty collection when it adopts. That is the only way the client calls it: on a collection it has just created.
- `col.deltas.push(delta)` queues the bare delta, although the type declaration (client.js:29) says `{node, delta}` entries. The model follows the code.
