# value-ranker: the tier board as a verified Dafny model

value-ranker is a web app where a user ranks a list of items (values, cuisines,
pets, ...) by dragging them from an unranked pool, the "parking lot", into
ordered tiers. The ranking page holds an `ItemsState`:

- a map from container id to an ordered list of items, where `"parking-lot"`
  is the pool and every other key is a tier `tier-<n>`;
- `tierOrder`, the tier ids in rank order;
- optional links to related saved rankings.

Its handlers add and delete items, switch to a predefined topic, move items
and tiers by drag and drop, load a saved ranking or a friend's items, and
build the record that is saved.

The model has six modules, one file each:

| file | module | models |
|---|---|---|
| `item_templates.dfy` | `ItemTemplates` | the topic table of `src/lib/ItemTemplates.tsx`: items and display names per topic, and the lookups with their custom-topic fallback |
| `text.dfy` | `Text` | JavaScript's `trim` and `startsWith`, and the decimal rendering of `tier-${n}` |
| `seqs.dfy` | `Seqs` | the array operations the page relies on: `indexOf`, `splice`, `filter`, `flat`, and the `arrayMove` of `@dnd-kit/sortable` |
| `partition.dfy` | `Partition` | the state and its invariant `Valid`, plus the updates that are not drags: `findContainer`, `addNewValue`, `handleDeleteItem`, the topic-switch guard, save and the two loaders |
| `drag.dfy` | `Drag` | `handleDragEnd`: `Classify` picks the branch the handler takes and one function per branch gives the new state |
| `page.dfy` | `Page` | the component as a class `RankingPage` with the fields `items` and `activeTemplate`; each handler is a method proved equal to the function that specifies it, and the load loop is a `while` loop |

The central invariant `Partition.Valid` says:

- the pool exists;
- `tierOrder` lists every tier exactly once, and no tier is empty;
- every item occurs once in the whole state;
- no item can be mistaken for a container id.

Deleting, switching topic, saving and loading a well-formed record keep the
invariant. Adding keeps it for a value that cannot be mistaken for an id; the
page does not check this, and `Drag.TierShapedItemIsStuck` shows what a
tier-shaped value does. A drop keeps the invariant and the multiset of items
when the clock reading names no existing container, and a load keeps it when
the clock does not go back between tiers (`Partition.RestoreClockStepBack`
shows the collision otherwise). Saving then loading gives back the ranking.

## Model

| member | source | states |
|---|---|---|
| ItemTemplates.PredefinedTopics | src/lib/ItemTemplates.tsx:148-167 | a topic is predefined exactly when it is one of the thirteen table keys, and the display-name table has exactly the same keys |
| ItemTemplates.IsPredefinedTemplate | src/lib/ItemTemplates.tsx:165-167 | defines the topic test as membership among the table's keys; `PredefinedTopics` states which keys those are |
| ItemTemplates.GetTemplateItems | src/lib/ItemTemplates.tsx:169-174 | a predefined topic gives its table items; any other string gives no items |
| ItemTemplates.GetTopicDisplayName | src/lib/ItemTemplates.tsx:176-181 | a predefined topic gives its display name; a custom topic gives itself |
| ItemTemplates.BlankIsEmpty | src/lib/ItemTemplates.tsx:12 | `blank` is predefined and has no items |
| ItemTemplates.TopicList | src/lib/ItemTemplates.tsx:1-142 | a predefined topic's items are one of the thirteen lists of the table |
| ItemTemplates.TemplateItemsWellFormed | src/lib/ItemTemplates.tsx:1-142 | no topic lists an item twice, and every item starts with a capital letter |
| Text.Trim | src/app/rankings/new/page.tsx:145 | the result is no longer than the value and neither starts nor ends with whitespace |
| Text.TrimIsSlice | src/app/rankings/new/page.tsx:145 | the trimmed value is a contiguous part of the value, and only whitespace is cut from each end |
| Text.TrimOfTrimmed | src/app/rankings/new/page.tsx:145 | a string that neither starts nor ends with whitespace is unchanged by trim |
| Text.TrimIdempotent | src/app/rankings/new/page.tsx:145 | trimming twice is trimming once |
| Text.TrimEmpty | src/app/rankings/new/page.tsx:145-146 | the trimmed value is empty exactly when the value is all whitespace, so only such values are ignored |
| Text.StartsWith | src/app/rankings/new/page.tsx:251 | defines `startsWith`: the prefix fits and the first characters are the prefix; `Partition.TierKey` and `Partition.PoolIdIsNotTierId` use it on the page's tier test |
| Text.NatToString | src/app/rankings/new/page.tsx:82 | a number renders as at least one decimal digit, and as exactly one when it is below ten |
| Text.NatToStringInjective | src/app/rankings/new/page.tsx:82 | different numbers render differently |
| Text.NatToStringValue | src/app/rankings/new/page.tsx:82 | the rendered digits, read as a decimal number, give back the number, and a positive number has no leading zero |
| Seqs.IndexOf | src/app/rankings/new/page.tsx:258-259 | -1 exactly when the element is absent; otherwise the position of its first occurrence |
| Seqs.IndexOfUnique | src/app/rankings/new/page.tsx:258-259 | in a list without repetitions, the element at position i is found at i |
| Seqs.SpliceStart | src/app/rankings/new/page.tsx:325-329 | the position `splice` acts on is within the array; a start inside it is kept, and a negative start counts from the end |
| Seqs.RemoveAt | src/app/rankings/new/page.tsx:325 | `splice(i, 1)` leaves one element fewer: those before `i` stay, those after shift down by one, and exactly the element at `i` is lost |
| Seqs.InsertAt | src/app/rankings/new/page.tsx:329 | `splice(i, 0, x)` leaves one element more: `x` is at `i`, those before stay, those after shift up by one |
| Seqs.ArrayMove | src/app/rankings/new/page.tsx:262 | the result has the same length and is a permutation of the input |
| Seqs.ArrayMovePlaces | src/app/rankings/new/page.tsx:262 | the element taken from `from` (from the end when -1) lands at `to` with the rest in order, or at the end when `to` is -1 |
| Seqs.ArrayMoveInverse | src/app/rankings/new/page.tsx:262 | moving from i to j and then from j to i gives back the input |
| Seqs.ArrayMoveUndoUnique | src/app/rankings/new/page.tsx:258-262 | in a list without repetitions, moving by the ids now at the two positions undoes a move |
| Seqs.Without | src/app/rankings/new/page.tsx:223-225 | the filtered list is no longer than the input and holds every other element as often as the input does, and no copy of the removed one; `WithoutAppend` and `WithoutSingle` fix its order |
| Seqs.WithoutAppend | src/app/rankings/new/page.tsx:223-225 | filtering a concatenation filters each part and joins the results, so the kept elements stay in their order |
| Seqs.WithoutSingle | src/app/rankings/new/page.tsx:223-225 | a single element is kept exactly when it is not the one filtered out; with `WithoutAppend` this fixes the whole filtered list |
| Seqs.WithoutSub | src/app/rankings/new/page.tsx:223-225 | the filtered list is a sub-multiset of the input, and holds exactly the input's elements other than the removed one |
| Seqs.WithoutUniqueSplit | src/app/rankings/new/page.tsx:285 | filtering a once-occurring element out cuts the list around it |
| Seqs.Flatten | src/app/rankings/new/page.tsx:111 | the flattening is empty exactly when every inner list is empty |
| Seqs.FlattenContains | src/app/rankings/new/page.tsx:111 | each list is part of the flattened whole |
| Partition.IsTierId | src/app/rankings/new/page.tsx:251-256 | defines the page's tier test `startsWith('tier-')`; `TierKey` shows generated ids pass it and `PoolIdIsNotTierId` that the pool's id fails it |
| Partition.Pool | src/app/rankings/new/page.tsx:178 | defines the pool as `containers['parking-lot'] || []` |
| Partition.Valid | src/app/rankings/new/page.tsx:24-33 | defines the invariant the state's comments describe: the pool exists, `tierOrder` lists each tier once and only tiers, no tier is empty, and every item occurs once and is well named |
| Partition.TierKey | src/app/rankings/new/page.tsx:82 | a generated id passes the page's tier test |
| Partition.TierKeyInjective | src/app/rankings/new/page.tsx:82 | two clock readings give the same tier id exactly when they are equal |
| Partition.ListsOf | src/app/rankings/new/page.tsx:353 | the lists in rank order, one per tier id |
| Partition.ContainersDisjoint | src/app/rankings/new/page.tsx:24-33 | in a valid state no two containers share an item |
| Partition.ContainerUnique | src/app/rankings/new/page.tsx:24-33 | in a valid state no container lists an item twice |
| Partition.Contains | src/app/rankings/new/page.tsx:147-148 | defines the duplicate test as "some container's list holds the value"; `ContainsIsMembership` relates it to all the items |
| Partition.ContainsIsMembership | src/app/rankings/new/page.tsx:147-148 | in a valid state, some container holds a value exactly when the value is among all the items |
| Partition.FindIn | src/app/rankings/new/page.tsx:165 | a hit is a searched key whose list holds the id; a miss means no searched list holds it |
| Partition.FindContainer | src/app/rankings/new/page.tsx:161-166 | an id resolves to itself exactly when it is a container key, and otherwise to a container holding it; a miss means it is neither a key nor in the list of the pool or of any tier `tierOrder` names |
| Partition.FindContainerResolves | src/app/rankings/new/page.tsx:161-166 | in a valid state an item resolves to the one container that holds it, whatever the search order, and the lookup fails exactly when the id is neither a key nor an item |
| Partition.AddValue | src/app/rankings/new/page.tsx:144-159 | an empty trimmed value or one already present leaves the state unchanged; otherwise it is appended to the pool and nothing else changes |
| Partition.AddValueItems | src/app/rankings/new/page.tsx:152-158 | the item sequence after adding is the old one followed by the trimmed value when it is added, and unchanged otherwise |
| Partition.AddValuePreservesValid | src/app/rankings/new/page.tsx:144-159 | a well-named value keeps the state valid, and the items gain exactly the trimmed value when it is added |
| Partition.DeleteItem | src/app/rankings/new/page.tsx:207-234 | an id that resolves to the pool is filtered out of it, every copy gone and the other items in order, and nothing else changes; an id in a tier, or one that resolves nowhere, leaves the state unchanged |
| Partition.DeletePreservesValid | src/app/rankings/new/page.tsx:207-234 | deletion keeps the state valid, and a deleted item disappears from the whole collection; an item of the pool resolves to the pool and is cut out of it, the other pool items keeping their order |
| Partition.DeleteFromPool | src/app/rankings/new/page.tsx:210-225 | in a valid state an item of the pool resolves to the pool, and the new pool is the old one with that item cut out at its position |
| Partition.DefaultState | src/app/rankings/new/page.tsx:37-42 | defines `defaultInitialValues`: a pool holding the default topic's items and no tiers; `DefaultStateIsEmpty` states what that is |
| Partition.DefaultStateIsEmpty | src/app/rankings/new/page.tsx:35-42 | the starting state is valid: an empty pool and no tiers |
| Partition.TemplateItemsOk | src/lib/ItemTemplates.tsx:1-142 | every topic's items are distinct and none can be mistaken for a container id |
| Partition.Baseline | src/app/rankings/new/page.tsx:179 | defines the guard's baseline as the active topic's table items, none for a custom topic |
| Partition.HasCustomItems | src/app/rankings/new/page.tsx:178-183 | defines the guard's custom-items test: the pool's and the baseline's sets differ in size, or the pool holds an item the baseline lacks |
| Partition.NeedsConfirmation | src/app/rankings/new/page.tsx:176-185 | defines when the switch asks for confirmation: there are ranked tiers or custom items |
| Partition.CustomItemsMeansDifferentSet | src/app/rankings/new/page.tsx:178-183 | the guard's size-or-extra-item test holds exactly when the pool's set differs from the active topic's set |
| Partition.RequestReset | src/app/rankings/new/page.tsx:175-204 | the switch is cancelled exactly when work would be lost and the user declines; otherwise the new topic is active, there are no tiers, the pool is the shuffled topic items and the links are kept |
| Partition.ResetIsValid | src/app/rankings/new/page.tsx:196-203 | a reset state is valid and holds exactly the topic's items |
| Partition.Save | src/app/rankings/new/page.tsx:353-354 | the record has one list per tier in rank order and the pool as unranked items, so together they are all the state's items |
| Partition.SavedLinks | src/app/rankings/new/page.tsx:360-374 | editing keeps the state's links; otherwise the link is the originating ranking's id when there is a non-empty one, and an empty list if not |
| Partition.SaveIsWellFormed | src/app/rankings/new/page.tsx:353-374 | a valid state saves a record without empty tiers or repeated or id-like items |
| Partition.TierIds | src/app/rankings/new/page.tsx:81-83 | one tier id per saved tier, `tier-${reading + index}` with the clock read again for every tier |
| Partition.TierIdsUnique | src/app/rankings/new/page.tsx:81-83 | while the clock does not go back, the load's tier ids are distinct |
| Partition.TierIdsSnoc | src/app/rankings/new/page.tsx:81-83 | each further tier adds the id of its own reading, which differs from the earlier ids while the clock does not go back |
| Partition.RestoreTiersHolds | src/app/rankings/new/page.tsx:79-85 | the loop's map has exactly the new ids as keys, and each id holds the saved tier of its last occurrence |
| Partition.Restore | src/app/rankings/new/page.tsx:79-89 | the saved tiers get the per-tier ids in saved order, a repeated id holds the later tier, the unranked items become the pool, and the record's links are kept |
| Partition.SaveRestore | src/app/rankings/new/page.tsx:79-89 | while the clock does not go back, loading a record and saving it again gives back the same record |
| Partition.RestoreClockStepBack | src/app/rankings/new/page.tsx:81-84 | a clock that steps back by one between two tiers gives both the same id: the second tier overwrites the first, the id is listed twice, and the state is not valid |
| Partition.RestoreIsValid | src/app/rankings/new/page.tsx:79-89 | while the clock does not go back, a well-formed record loads into a valid state with the record's items in order |
| Partition.RestoreSave | src/app/rankings/new/page.tsx:79-89 | saving a valid state and loading it again, with a clock that does not go back, keeps the ranked lists in order, the pool and the links; only the tier ids are new |
| Partition.FromFriend | src/app/rankings/new/page.tsx:111-118 | no tiers, only the pool and no links; the pool holds the friend's ranked and unranked items |
| Partition.FromFriendIsValid | src/app/rankings/new/page.tsx:111-118 | a friend's well-formed record gives a valid state holding the friend's items in order |
| Drag.Classify | src/app/rankings/new/page.tsx:245-317 | which branch is taken: no target, a tier on the new-tier zone, tier against tier, an unresolved id, an item onto the new-tier zone, the same container or different containers, each with the container facts that select it, including the unresolved dragged id and the unresolved target |
| Drag.MoveTier | src/app/rankings/new/page.tsx:255-265 | the dragged tier takes the target tier's place and the other tiers keep their order; an absent target sends it to the end; containers are untouched |
| Drag.Spawn | src/app/rankings/new/page.tsx:271-296 | the new tier `tier-${now}` is listed last, and the links are kept |
| Drag.SpawnFresh | src/app/rankings/new/page.tsx:271-296 | with a fresh id the item alone fills the new last tier; the source keeps the rest, or is removed from both the map and the order as an emptied tier; every other container is kept |
| Drag.ReorderIn | src/app/rankings/new/page.tsx:301-317 | within one container the moved item takes the target's place with the rest in order, or goes last when the target is the container itself; nothing else changes |
| Drag.TakenFrom | src/app/rankings/new/page.tsx:324-325 | the splice takes the dragged item, or the last item when the dragged id is absent |
| Drag.DropAt | src/app/rankings/new/page.tsx:327-328 | the insertion point is the target's first position, or the end when the target is absent |
| Drag.MoveAcross | src/app/rankings/new/page.tsx:319-346 | the taken item is inserted into the destination at the target's place; the source keeps the rest, or is deleted as an emptied tier; every other container is kept |
| Drag.DraggableResolves | src/app/rankings/new/page.tsx:161-166 | in a valid state a tier is its own container and an item resolves to the non-empty list holding it |
| Drag.DragEnd | src/app/rankings/new/page.tsx:240-348 | every ignored branch leaves the state unchanged; the links are always kept |
| Drag.MoveTierPreservesValid | src/app/rankings/new/page.tsx:255-265 | a tier reorder keeps the state valid and every item |
| Drag.ReorderInPreservesValid | src/app/rankings/new/page.tsx:301-317 | a reorder within one container keeps the state valid and every item |
| Drag.SpawnPreservesValid | src/app/rankings/new/page.tsx:271-296 | spawning a tier with a fresh id keeps the state valid and every item |
| Drag.MoveAcrossPreservesValid | src/app/rankings/new/page.tsx:319-346 | a move between containers keeps the state valid and every item |
| Drag.DragEndPreservesValid | src/app/rankings/new/page.tsx:240-348 | with a fresh clock id, every drop keeps the state valid and the same multiset of items |
| Drag.ItemResolves | src/app/rankings/new/page.tsx:161-166 | an item of a valid state is well named, not a key, and resolves to its container |
| Drag.ClassifyItemDrop | src/app/rankings/new/page.tsx:268-317 | an item dropped on the new-tier zone spawns a tier, on itself does nothing, on a container or an item reorders or moves by whether the containers match, and on an unknown id does nothing |
| Drag.ClassifyTierDrop | src/app/rankings/new/page.tsx:250-317 | a tier dropped on the new-tier zone is refused, on itself does nothing, on another tier reorders the tiers, and on the pool or an item is treated as a container move |
| Drag.TierDropMovesLastItem | src/app/rankings/new/page.tsx:319-329 | a tier dropped on an item moves the tier's last item to the target's place instead of the tier |
| Drag.MoveTierUndo | src/app/rankings/new/page.tsx:255-265 | dropping the tier back on the tier that now holds its old place restores the state |
| Drag.ReorderInUndo | src/app/rankings/new/page.tsx:301-317 | within one container, moving the item back onto the item that now holds its old place restores the state |
| Drag.ReorderWithinUndo | src/app/rankings/new/page.tsx:301-317 | the same as a whole drop: the second drag undoes the first |
| Drag.TierShapedItemIsStuck | src/app/rankings/new/page.tsx:144-159 | a value whose trimmed text looks like a tier id is accepted, but the state is then not valid and the item counts as a tier when dropped on the new-tier zone |
| Page.RestoreItems | src/app/rankings/new/page.tsx:79-86 | the load loop, reading the clock once per tier, builds exactly the state `Restore` specifies |
| Page.RankingPage.constructor | src/app/rankings/new/page.tsx:35-50 | the page starts valid, with the default topic and its state |
| Page.RankingPage.LoadDefault | src/app/rankings/new/page.tsx:136-139 | without a ranking to load, the state is the default one |
| Page.RankingPage.LoadRankingForEdit | src/app/rankings/new/page.tsx:77-90 | the state becomes the loaded ranking, which is valid when the record is well formed and the clock does not go back during the load |
| Page.RankingPage.LoadValuesFromOriginFriend | src/app/rankings/new/page.tsx:109-119 | the state becomes the friend's items in the pool, which is valid when the record is well formed |
| Page.RankingPage.AddNewValue | src/app/rankings/new/page.tsx:144-159 | the state is updated as `AddValue` says; a duplicate is reported exactly when the trimmed value is non-empty and already present; validity is kept for well-named values |
| Page.RankingPage.HandleChangeTemplate | src/app/rankings/new/page.tsx:175-204 | the switch cancels or proceeds as `RequestReset` decides; a reset state is valid |
| Page.RankingPage.HandleDeleteItem | src/app/rankings/new/page.tsx:207-234 | the state is updated as `DeleteItem` says, a refusal is reported exactly when the id resolves to a container other than the pool, and validity is kept |
| Page.RankingPage.HandleDragEnd | src/app/rankings/new/page.tsx:240-348 | the state is updated as `DragEnd` says; with a fresh clock id it stays valid with the same items |
| Page.RankingPage.FinishRanking | src/app/rankings/new/page.tsx:350-374 | the saved record is `Save` of whatever state the page holds, valid or not, with the links `SavedLinks` picks; it is well formed when the state is valid |

## Left out

- Database calls, routing, the loading and saving flags, the `current` flag that drops results after unmount, and all logging. The loaders take the fetched record as a parameter, and a missing record or failed fetch, which redirects, is not modelled.
- Which loader runs, chosen by the URL parameters `id` and the origin id (page.tsx:132-139), is left to the caller. The `targetRankingId` branch of the save, after line 374, is a network update of the same record and is left out.
- `window.confirm` is the `confirmed` parameter, `alert` is the `duplicate` result, and the dropdown reset on cancel is left out.
- `Date.now()` is a parameter: `now` for a drop, and `nows`, one reading per saved tier, for a load. Two drops in the same millisecond would reuse an id, and the contracts of `Spawn` and `DragEndPreservesValid` speak of a fresh id only. A load's state is proved valid only for readings that do not go back; `RestoreClockStepBack` shows the collision when they do. Whether a load's ids meet ids of the state it replaces does not matter, since the load replaces every container.
- The random sort is the `shuffled` parameter, any permutation of the topic items. That `sort` reorders the `TEMPLATES` array in place, so later baselines see a shuffled array, is not modelled; the guard compares sets, so this does not change any decision.
- Object key order: `findContainer` searches the pool and then the tiers in rank order. In a valid state each item is in one container, and `FindContainerResolves` shows the order does not matter. JavaScript prototype names such as `toString`, which `in` finds on every object, are not modelled as keys. On the page an item with such a name resolves to itself, and a drag of it or onto it throws (at page.tsx:275 or 321-322); `WellNamed` excludes these names, so `AddValuePreservesValid` does not cover adding one. A drop target is assumed to be an id the board renders, so `over` is never such a name either.
- The handlers read `items` from the render-time closure but update the `prev` state. The model applies both to one state, so handler calls are treated as sequential.
- The `|| []` fallbacks for a record without unranked items: a record always has an `unrankedItems` list. Extra record fields that the `...data` spread copies into the state, such as the database id, are not modelled.
- `arrayMove` comes from `@dnd-kit/sortable`, whose source is not part of this model. `Seqs.ArrayMove` follows its published behaviour: splice out at `from`, splice in at `to`, with negative indices counted from the end.
- `handleDragStart`, the drag overlay's `activeDraggedId`, and the rendering components are left out.
- ItemTemplates.GetTemplateItems: like `ItemTemplates.IsPredefinedTemplate`, `ItemTemplates.GetTopicDisplayName` and `ItemTemplates.PredefinedTopics`, it treats only the thirteen table keys as predefined. In the source, `topic in TEMPLATES` also holds for `Object.prototype` names such as `constructor`, `toString` or `__proto__`. For those, `isPredefinedTemplate` is true, and `getTemplateItems` and `getTopicDisplayName` return a function or an object, not `[]` or the topic. A value that is not a list of strings or a string has no counterpart in the model, so such topics are modelled as custom topics.
- Page.RankingPage.FinishRanking: requires every id in `tierOrder` to name a container. If one did not, the source would save `undefined` in its place, and a `Ranking` record here has no such value.
- Partition.AddValuePreservesValid: requires the trimmed value to be well named. The page accepts a value shaped like a tier id, `parking-lot`, `new-tier-drop-zone` or a prototype name, and then the state is not valid; `Drag.TierShapedItemIsStuck` shows the consequence.
- Drag.DragEnd: requires a valid state and a dragged id that the board renders (a tier or an item). Otherwise the page can splice `undefined` out of an empty list, or call `includes` on a missing container.
- Partition.FromFriend: its contract gives the pool's multiset; `FromFriendIsValid` gives the pool's exact order for well-formed records.
- Drag.SpawnFresh: states the new tier's contents and the kept containers for a fresh clock id only, because a clock id that names an existing container overwrites it.
- Page.RankingPage.HandleDragEnd: the multiset of items is kept only when the clock id is fresh, as above.
