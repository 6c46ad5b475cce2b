# Drag-index bookkeeping of the egui drag-and-drop lists

This project models the bookkeeping behind the drag-and-drop lists of `egui-playground`. The
drag-and-drop engine (`hello_egui::dnd`) knows only a flat run of slots numbered 0, 1, 2, …. It
reports a drag as a pair `(from, to)` of slot numbers. The lists on top of it must therefore:

- hand out slot numbers while drawing;
- record which range of numbers each list occupies;
- map the two reported numbers back to lists and indices;
- apply the move to their own data.

None of the egui drawing remains. The flags egui supplies (an item is collapsed, an item is being
dragged) and the engine's reported pair are plain inputs.

The model follows the program's files:

- **Hierarchical lists** (`crates/dnd_custom/src/ghl.rs`).
  - `GhlModel` is the pre-order walk of `draw_list` / `draw_item`, as functions and as the
    `UiState` class whose methods update the counter and the two maps in place. Each item with a
    child list gets its own slot and an `item_states` entry. Each walked list gets inclusive
    bounds, and a sub-list ends on its footer slot.
  - `GhlSearch` is `find_start`, `find_end` and the decision in `ui`. Each search is a `while`
    loop proved equal to a recursive specification function.
  - `GhlTree`, `GhlLayout` and `GhlRoundTrip` prove what the walk and the searches promise
    together:
    - every drawn item's slot resolves back to its list and index;
    - every drawn sub-list's footer resolves to a push onto that list;
    - no move starts or lands inside the subtree of the item being dragged.
- **The earlier walk** (`crates/dnd_custom/src/generic_list.rs`) is `GenericList`. There, items
  never advance the counter and only footers do.
- **The tree store** (`crates/dnd_custom/examples/ghl_vertical/item_cache.rs`):
  - `GhlItemCache` holds `handle_update` and `add_item`.
  - `GhlRemoval` holds the mutually recursive subtree deletion.
  - `GhlNewList` holds the demo generator.
  - `GhlStore` is the `ItemCache` class whose methods change its maps and counters as these
    functions say.
- **The one-counter store** (`crates/dnd_custom/examples/vertical/item_cache.rs`) is
  `VerticalItemCache`.
- **Flat lists**:
  - `MultipleLists` covers `crates/dnd/src/multiple_lists.rs`: bounds filling, the position
    lookup, and the apply step with item conservation.
  - `AppMultipleLists` covers the application's copy in `src/dnd/multiple_lists.rs`. Its bounds
    filling is proved to give the same layout. Its lookup and apply code are textually the same
    as the crate's and are reused.
  - `DndUtil` covers `move_elements_2` of `crates/dnd/src/util.rs`.
- **Shared pieces**:
  - `VecOps` is `Vec::remove` and `Vec::insert` on sequences, plus the only assumption made about
    the foreign `shift_vec` (it keeps length and elements).
  - `ListTree` is the view of a hierarchical list that the walks obtain through
    `get_list_contents` and `get_child_list_id`.

Both walks recurse only into the child lists of items that are open (neither collapsed nor, in
ghl, dragged), so a cycle through open items makes a walk recurse forever, while a cycle through a
collapsed item is harmless. `find_start` descends into an item's child list without looking at
the dragging flag, so a cycle through a dragged item can make it loop. The model
takes a ghost `rank` on lists, under which every child list ranks below the list that holds its
item (`ListTree.Ranked`). The searches terminate by the same rank. The round-trip theorems also
assume `GhlTree.Forest`: every listed item has a child list, and no two occurrences of items share
one. The demo generators build trees with this shape.

## Model

| member | source | states |
|---|---|---|
| VecOps.Remove | crates/dnd_custom/examples/ghl_vertical/item_cache.rs:182-185 | `Vec::remove(i)`: one element shorter; elements before `i` stay; later ones move down by one; the multiset loses exactly the removed element |
| VecOps.Insert | crates/dnd_custom/examples/ghl_vertical/item_cache.rs:189-192 | `Vec::insert(i, x)`: one longer; `x` at `i`; earlier elements stay; later ones move up by one; the multiset gains exactly `x` |
| VecOps.InsertRemove | crates/dnd_custom/examples/ghl_vertical/item_cache.rs:200-204 | re-inserting a removed element at the index it came from restores the vector |
| DndUtil.MoveElements2 | crates/dnd/src/util.rs:25-51 | each of the four branches, decided on the original length of `list_1`: shift inside list 1; move from list 1 into list 2 at `to - (len1 + between)`; shift inside list 2 with both indices offset; move from list 2 into list 1 at `to`. The combined length and the combined multiset are conserved |
| MultipleLists.ItemListUi | crates/dnd/src/multiple_lists.rs:27-69 | a header takes one slot before `start`; each item takes one slot; `end` is the last item slot and the counter ends at `end + 1`; callers must avoid the `- 1` underflow |
| MultipleLists.LayoutOf | crates/dnd/src/multiple_lists.rs:114-124 | the layout of a frame: list 0 starts at 0, each list spans its items, and list `i + 1` starts at `end_i + 2` |
| MultipleLists.LaidUnique | crates/dnd/src/multiple_lists.rs:114-124 | those layout rules determine the bounds completely |
| MultipleLists.FillBounds | crates/dnd/src/multiple_lists.rs:114-124 | the bounds loop of `ui` (list 0 without a header, the rest with one) produces exactly that layout |
| MultipleLists.LaidOrdered | crates/dnd/src/multiple_lists.rs:114-124 | under the layout, every list ends at least two slots before any later list starts |
| MultipleLists.ConvertFrom | crates/dnd/src/multiple_lists.rs:155-186 | the lookup's scan. For a source, it finds something iff some list contains `p`, returns the first such list, and the internal index is `p - start`. For insertion, it gives the first list that contains `p` or whose end `p` lies past (with the next list starting later, or no next list) |
| MultipleLists.ScanSkips | crates/dnd/src/multiple_lists.rs:160-183 | the scan passes over lists that neither contain `p` nor, for insertion, end just before it |
| MultipleLists.SourceInRange | crates/dnd/src/multiple_lists.rs:164-169 | a source lookup on a laid-out frame names an existing item |
| MultipleLists.HeaderSlotAppends | crates/dnd/src/multiple_lists.rs:171-181 | the header slot of list `i + 1` is never a source; as a destination it means "append to list `i`" (index equal to its length) |
| MultipleLists.InsertionInRange | crates/dnd/src/multiple_lists.rs:171-181 | an insertion lookup gives an index of at most the found list's length when that list is not the last one, or when the position is at most one past the list's end |
| MultipleLists.ApplyUpdate | crates/dnd/src/multiple_lists.rs:126-151 | the apply step: no change unless both lookups succeeded; only the source and target lists change; list ids and the number of lists are kept (what the two lists become is stated by `ApplyMovesItem`) |
| MultipleLists.RemoveLowersItems | crates/dnd/src/multiple_lists.rs:143-145 | removing an item lowers the multiset of all items by exactly that item |
| MultipleLists.InsertRaisesItems | crates/dnd/src/multiple_lists.rs:146-148 | inserting an item raises the multiset of all items by exactly that item |
| MultipleLists.ApplyMovesItem | crates/dnd/src/multiple_lists.rs:136-149 | within one list, that list becomes `shift_vec`'s result; across lists, the source loses the entry at the drag-start index and the target has that entry inserted at the insertion index |
| MultipleLists.ApplyConservesItems | crates/dnd/src/multiple_lists.rs:126-151 | applying a move neither loses nor duplicates an item (multiset of all items unchanged) |
| MultipleLists.DemoItems | crates/dnd/src/multiple_lists.rs:95-99 | `n` items with consecutive ids from `offset`, each with the description `Item::new` gives |
| MultipleLists.MultipleLists.constructor | crates/dnd/src/multiple_lists.rs:90-112 | `new`: list `i` is named `multi_list_{i}` and holds ids `start_id + i * n ..`; every bound starts as `[0, 0]` |
| MultipleLists.MultipleLists.Ui | crates/dnd/src/multiple_lists.rs:114-152 | one frame: the bounds become the layout of the lists; the lists become the apply step of the two lookups; the multiset of all items is kept |
| AppMultipleLists.DrawList | src/dnd/multiple_lists.rs:66-97 | the `draw_list` closure: an optional header slot, `start` after it, one slot per item, `end = idx - 1`; no other list's bounds change |
| AppMultipleLists.FillBoundsApp | src/dnd/multiple_lists.rs:99-106 | the one-list and two-or-more-lists branches both produce the same layout as the crate's widget |
| AppMultipleLists.Ui | src/dnd/multiple_lists.rs:59-134 | one frame of the application's widget (non-empty `lists`, since `lists[0]` is read): same bounds, same move and same item conservation as the crate's `ui`; the lookup at src/dnd/multiple_lists.rs:138-169 is textually the crate's |
| GenericList.WalkList | crates/dnd_custom/src/generic_list.rs:136-185 | `draw_list`. A missing list records `[start, start]` and changes nothing else. The root records `[start, start]` whatever its contents. A sub-list registers its footer at the counter, ends its bounds there and advances the counter by one. Earlier registrations are kept |
| GenericList.WalkListFooters | crates/dnd_custom/src/generic_list.rs:157-182 | every footer a walk of a list registers belongs to that list or to one of lower rank; the root registers no footer, so none of the footers its walk adds is the root's |
| GenericList.WalkItemsFooters | crates/dnd_custom/src/generic_list.rs:150-155 | the footers the item loop registers belong to lists ranked below the bound |
| GenericList.WalkItemFooters | crates/dnd_custom/src/generic_list.rs:187-233 | the footers registered below an item belong to its child list or to lists below it |
| GenericList.WalkItems | crates/dnd_custom/src/generic_list.rs:150-155 | the item loop keeps the log footer-counted and only extends it |
| GenericList.WalkItem | crates/dnd_custom/src/generic_list.rs:187-233 | `draw_item`: an item without a child list changes nothing. Otherwise the item is registered at the current counter without advancing it. Its child list is walked (and gets bounds starting at that counter) only when the item is neither dragged nor reported collapsed |
| GenericList.ItemSharesNextPosition | crates/dnd_custom/src/generic_list.rs:200-204 | an item registration never advances the position: the next registration, or the final counter, has the same number |
| GenericList.FooterPositionsIncrease | crates/dnd_custom/src/generic_list.rs:165-179 | footers are the only registrations that advance the position, so a footer's number is below every later registration's |
| GenericList.GenericUi.constructor | crates/dnd_custom/src/generic_list.rs:101-102 | the walk starts at counter 0 with no bounds and no registrations |
| GenericList.GenericUi.DrawList | crates/dnd_custom/src/generic_list.rs:136-185 | the in-place `draw_list` leaves the state exactly as `WalkList` says |
| GenericList.GenericUi.DrawItem | crates/dnd_custom/src/generic_list.rs:187-233 | the in-place `draw_item` leaves the state exactly as `WalkItem` says |
| GenericList.Ui | crates/dnd_custom/src/generic_list.rs:92-120 | `ui`: every registration sits at the number of footers registered before it, the counter equals the number of footers, the root's bounds are `[0, 0]` and no registered footer is the root's |
| GhlModel.WalkList | crates/dnd_custom/src/ghl.rs:207-264 | `draw_list`: bounds `[counter on entry, counter after the contents]`, then one more slot; a sub-list's last registration is its footer at `end`; registrations stay strictly increasing and below the counter |
| GhlModel.WalkListSlots | crates/dnd_custom/src/ghl.rs:230-263 | every registration a walk of a list adds sits between the counter on entry and the counter on exit; the root registers no footer, so nothing it adds sits at the root's `end` |
| GhlModel.WalkItemsSlots | crates/dnd_custom/src/ghl.rs:217-222 | the registrations the item loop adds sit between the counters on entry and on exit |
| GhlModel.WalkItemSlots | crates/dnd_custom/src/ghl.rs:275-314 | the registrations `draw_item` adds sit between the counters on entry and on exit |
| GhlModel.OpenItemSlots | crates/dnd_custom/src/ghl.rs:304-314 | walking an open item's child list keeps the item's own registration inside the range and adds only registrations beyond it |
| GhlModel.WalkItems | crates/dnd_custom/src/ghl.rs:217-228 | the `ui_items` loop only extends the registrations, keeping them increasing and below the counter |
| GhlModel.WalkItem | crates/dnd_custom/src/ghl.rs:266-321 | `draw_item`: an item without a child list changes nothing. Otherwise it is registered at the counter and gets an `item_states` entry with that slot and its two flags, and the counter advances by one. Its child list is walked, with bounds from the next slot, only when neither collapsed nor dragged. That an open item keeps its entry after the walk of its child list is stated by `GhlLayout.WalkItemOwnState` |
| GhlModel.DrawRoot | crates/dnd_custom/src/ghl.rs:147-161 | the walk `ui` performs: the root's bounds are `[0, counter - 1]`, every registration has its own slot, and none sits at the root's `end`, the root having no footer |
| GhlModel.UiState.constructor | crates/dnd_custom/src/ghl.rs:147-149 | the walk starts at counter 0 with empty maps |
| GhlModel.UiState.DrawList | crates/dnd_custom/src/ghl.rs:207-264 | the in-place `draw_list` leaves the state exactly as `WalkList` says |
| GhlModel.UiState.DrawItems | crates/dnd_custom/src/ghl.rs:217-228 | the `ui_items` closure's loop leaves the state exactly as `WalkItems` says |
| GhlModel.UiState.DrawItem | crates/dnd_custom/src/ghl.rs:266-321 | the in-place `draw_item` leaves the state exactly as `WalkItem` says |
| GhlSearch.SearchStart | crates/dnd_custom/src/ghl.rs:335-340 | `None` when the query is outside the current list's bounds; a result `(l, idx)` is an existing entry whose recorded slot equals the query |
| GhlSearch.ScanStart | crates/dnd_custom/src/ghl.rs:341-363 | a result of the item scan is an existing entry whose recorded slot equals the query |
| GhlSearch.FindStart | crates/dnd_custom/src/ghl.rs:323-370 | the labelled loop with `break` / `continue` returns exactly the search from the root |
| GhlSearch.SearchEnd | crates/dnd_custom/src/ghl.rs:385-389 | a query equal to the searched list's end is `Push` of that list, before any item; `Push(l)` is returned only for such a query; `Within(idx)` names an entry of the drag-start list, and `Insert` an entry of another list, whose slot equals the query |
| GhlSearch.ScanEnd | crates/dnd_custom/src/ghl.rs:391-418 | the item scan's `Within` / `Insert` / `Push` results, with the same guarantees |
| GhlSearch.FindEnd | crates/dnd_custom/src/ghl.rs:372-425 | the labelled loop returns exactly the search from the root |
| GhlSearch.Decide | crates/dnd_custom/src/ghl.rs:163-182 | no update when the engine reports none or `from == to`. A result's two halves are what the two searches return. When both searches succeed there is a result |
| GhlSearch.Ui | crates/dnd_custom/src/ghl.rs:137-183 | `ui` returns the decision on the frame its walk from the root produced |
| GhlTree.SiblingsDisjoint | crates/dnd_custom/src/ghl.rs:306-314 | in a forest, the subtrees of two different entries of one list share no list and no item, so walking one cannot disturb the other's bookkeeping |
| GhlLayout.ItemNotUnderOwnChild | crates/dnd_custom/src/ghl.rs:306-316 | on an acyclic tree an item never lies below its own child list, so walking that list cannot overwrite the item's entry |
| GhlLayout.WalkItemOwnState | crates/dnd_custom/src/ghl.rs:275-304 | after `draw_item`, every item with a child list, open or closed, has the `item_states` entry holding its collapsed flag, the position it was registered at and its dragging flag |
| GhlLayout.WalkListFrame | crates/dnd_custom/src/ghl.rs:207-264 | walking a list writes only the bounds and item states of keys inside its subtree |
| GhlLayout.DrawRootLaid | crates/dnd_custom/src/ghl.rs:147-161 | in a forest, the frame of the walk from the root is laid out. Every walked list starts at its first entry's slot, and every entry records its flags. An open entry's child list occupies exactly the slots between the entry and the next entry (or the list's end). A closed entry's child list has no bounds, and the next slot directly follows it |
| GhlRoundTrip.ItemWithin | crates/dnd_custom/src/ghl.rs:278-304 | in a laid-out list, each entry's slot lies inside the list's bounds and before the next entry's slot |
| GhlRoundTrip.ReachedWithin | crates/dnd_custom/src/ghl.rs:254-263 | a list reached through open items has bounds inside the bounds of the list it was reached from, ending strictly earlier |
| GhlRoundTrip.FindStartRoundTrip | crates/dnd_custom/src/ghl.rs:341-359 | every drawn entry's slot resolves, through `find_start`, to exactly its list and index |
| GhlRoundTrip.FindEndRoundTrip | crates/dnd_custom/src/ghl.rs:395-413 | every drawn entry's slot resolves, through `find_end`, to `Within(idx)` when the drag started in its list and to `Insert(list, idx)` otherwise |
| GhlRoundTrip.FindEndPush | crates/dnd_custom/src/ghl.rs:386-389 | a drawn list's end slot (a sub-list's footer) resolves to `Push` of that list |
| GhlRoundTrip.SearchStartReaches | crates/dnd_custom/src/ghl.rs:352-358 | on a laid-out frame, `find_start` names a list reached from the root through open items (neither collapsed nor dragged) |
| GhlRoundTrip.SearchEndReaches | crates/dnd_custom/src/ghl.rs:406-413 | on a laid-out frame, `find_end`'s destination list is reached from the root through open items |
| GhlRoundTrip.DecideMovesOntoItem | crates/dnd_custom/src/ghl.rs:163-182 | dragging one drawn entry onto another produces the move from the first to the second (`Within` in one list, `Insert` across lists) |
| GhlRoundTrip.DecideMovesOntoFooter | crates/dnd_custom/src/ghl.rs:163-182 | dragging a drawn entry onto a drawn list's end slot produces a `Push` onto that list |
| GhlRoundTrip.DecideAvoidsDragged | crates/dnd_custom/src/ghl.rs:406-410 | when the root has no parent, no resulting move starts or lands inside the subtree of a dragged item |
| GhlItemCache.ApplyUpdate | crates/dnd_custom/examples/ghl_vertical/item_cache.rs:181-211 | `handle_update`: the result is `true` iff the source and destination lists exist; a missing source changes nothing; the set of lists is kept |
| GhlItemCache.PutBack | crates/dnd_custom/examples/ghl_vertical/item_cache.rs:187-205 | the removed entry goes back iff the destination list exists |
| GhlItemCache.UpdateTouchesTwoLists | crates/dnd_custom/examples/ghl_vertical/item_cache.rs:187-205 | only the source and destination lists change, and only in their entries |
| GhlItemCache.UpdateWithinList | crates/dnd_custom/examples/ghl_vertical/item_cache.rs:200-204 | a move that ends in its own list keeps that list's length and multiset and puts the entry at the requested place |
| GhlItemCache.UpdateAcrossLists | crates/dnd_custom/examples/ghl_vertical/item_cache.rs:185-210 | a move between lists takes exactly one entry out of the source. An existing destination gains exactly that entry, at the index or at the end. Otherwise the entry is lost |
| GhlItemCache.WithinReorders | crates/dnd_custom/examples/ghl_vertical/item_cache.rs:200-204 | a `Within` move back to its own index changes nothing |
| GhlItemCache.AddItemTo | crates/dnd_custom/examples/ghl_vertical/item_cache.rs:213-240 | `add_item`: both counters advance by one when the list is found; otherwise the two fresh entries are removed again and the counters stay |
| GhlItemCache.AddItemFound | crates/dnd_custom/examples/ghl_vertical/item_cache.rs:213-235 | a found list gets one fresh item (its `id` field holds the child list id) and one fresh empty child list; nothing else changes |
| GhlItemCache.AddItemPlaces | crates/dnd_custom/examples/ghl_vertical/item_cache.rs:222-232 | the new id lands at index 0, at the end or at `idx`, with the other entries kept in order around it (`before[..idx] + [n] + before[idx..]` for `At`) |
| GhlItemCache.AddItemMissing | crates/dnd_custom/examples/ghl_vertical/item_cache.rs:236-239 | on a store whose counters are fresh, `add_item` on a missing list changes nothing |
| GhlItemCache.AddItemValid | crates/dnd_custom/examples/ghl_vertical/item_cache.rs:213-240 | `add_item` keeps both counters above every key |
| GhlRemoval.RemoveList | crates/dnd_custom/examples/ghl_vertical/item_cache.rs:269-280 | `remove_list`: the list is gone, and the store only shrank with every deletion finished (a removed list's entries and a removed item's child list are gone) |
| GhlRemoval.RemoveListUnfold | crates/dnd_custom/examples/ghl_vertical/item_cache.rs:269-280 | `remove_list` equals deleting the taken entries, front to back, from the store without the list; a missing list gives no entries |
| GhlRemoval.DeleteAll | crates/dnd_custom/examples/ghl_vertical/item_cache.rs:276-279 | the loop of `remove_list`: every id of the taken entries is gone, and the store only shrank |
| GhlRemoval.DeleteItem | crates/dnd_custom/examples/ghl_vertical/item_cache.rs:256-264 | `delete_item_and_children`: the item is gone, and the store only shrank with every deletion finished |
| GhlRemoval.RemoveListDeletesBelow | crates/dnd_custom/examples/ghl_vertical/item_cache.rs:269-280 | every item reachable from the list through child lists is gone |
| GhlRemoval.DeleteItemDeletesBelow | crates/dnd_custom/examples/ghl_vertical/item_cache.rs:256-264 | deleting an item removes its child list and everything reachable below it |
| GhlRemoval.RemoveListRemovesOnly | crates/dnd_custom/examples/ghl_vertical/item_cache.rs:269-280 | `remove_list` removes only the list, items reachable from its entries, and their child lists |
| GhlRemoval.DeleteAllRemovesOnly | crates/dnd_custom/examples/ghl_vertical/item_cache.rs:276-279 | the deletion loop removes only what is reachable from the taken entries |
| GhlRemoval.DeleteItemRemovesOnly | crates/dnd_custom/examples/ghl_vertical/item_cache.rs:256-264 | deleting an item removes only what is reachable from it |
| GhlRemoval.RemoveListSpares | crates/dnd_custom/examples/ghl_vertical/item_cache.rs:269-280 | an item not reachable from the list survives unchanged |
| GhlRemoval.Position | crates/dnd_custom/examples/ghl_vertical/item_cache.rs:245 | `iter().position`: the first index holding the id, or none iff the id is absent |
| GhlRemoval.Detach | crates/dnd_custom/examples/ghl_vertical/item_cache.rs:244-250 | detaching changes neither items nor counters nor the set of lists |
| GhlRemoval.DetachFirst | crates/dnd_custom/examples/ghl_vertical/item_cache.rs:244-250 | exactly the first occurrence is removed from the parent, other lists are kept, and a missing list or id changes nothing |
| GhlRemoval.RemoveFromParentAndDelete | crates/dnd_custom/examples/ghl_vertical/item_cache.rs:243-253 | the item is gone after detaching; the subtree is deleted even when the parent list is missing |
| GhlNewList.NewList | crates/dnd_custom/examples/ghl_vertical/item_cache.rs:282-326 | `new_list` returns the list counter's value on entry and advances both counters (the list counter strictly) |
| GhlNewList.NewItems | crates/dnd_custom/examples/ghl_vertical/item_cache.rs:290-310 | `k` rounds of the loop give `k` entries and draw at least `k` item ids |
| GhlNewList.NewListGrows | crates/dnd_custom/examples/ghl_vertical/item_cache.rs:282-326 | older keys are untouched. Every id drawn is present: an item keyed by its own id, whose child list was drawn too, or a list keyed by its own id. The returned list is empty at depth 0 and otherwise holds `list_len` strictly increasing fresh ids |
| GhlNewList.NewItemsGrows | crates/dnd_custom/examples/ghl_vertical/item_cache.rs:290-310 | the loop builds its entries fresh and in increasing order and touches nothing older |
| GhlNewList.CloseList | crates/dnd_custom/examples/ghl_vertical/item_cache.rs:312-323 | inserting the finished list completes the ids drawn by the call |
| GhlNewList.GrowsValid | crates/dnd_custom/examples/ghl_vertical/item_cache.rs:282-326 | what `new_list` builds keeps the counters above every key |
| GhlNewList.NewListValid | crates/dnd_custom/examples/ghl_vertical/item_cache.rs:282-326 | `new_list` keeps the counters fresh |
| GhlNewList.DemoNewShape | crates/dnd_custom/examples/ghl_vertical/item_cache.rs:83-108 | `demo_new`: root list 0 of the requested length, fresh counters, and every entry an item whose child list exists |
| GhlStore.ItemCache.DemoNew | crates/dnd_custom/examples/ghl_vertical/item_cache.rs:83-108 | the store is what `new_list` builds from an empty store, and the root list id is 0 |
| GhlStore.ItemCache.NewList | crates/dnd_custom/examples/ghl_vertical/item_cache.rs:282-326 | the in-place generator, with its `for` loop and recursion, ends in the state `NewList` says |
| GhlStore.ItemCache.HandleUpdate | crates/dnd_custom/examples/ghl_vertical/item_cache.rs:181-211 | the lists and the flag are those of `ApplyUpdate`; items and counters stay |
| GhlStore.ItemCache.AddItem | crates/dnd_custom/examples/ghl_vertical/item_cache.rs:213-240 | the store becomes `AddItemTo` of the old one |
| GhlStore.ItemCache.RemoveItemFromParentAndDelete | crates/dnd_custom/examples/ghl_vertical/item_cache.rs:243-253 | the store becomes `RemoveFromParentAndDelete` of the old one |
| GhlStore.ItemCache.DeleteItemAndChildren | crates/dnd_custom/examples/ghl_vertical/item_cache.rs:256-264 | the store becomes `DeleteItem` of the old one |
| GhlStore.ItemCache.RemoveList | crates/dnd_custom/examples/ghl_vertical/item_cache.rs:269-280 | the `mem::take` and the deletion loop leave the store as `RemoveList` says |
| GhlStore.ItemCache.TakeList | crates/dnd_custom/examples/ghl_vertical/item_cache.rs:270-276 | it returns the list's entries, or nothing when the list is missing, and the store loses exactly that list |
| GhlStore.ItemCache.GetChildListId | crates/dnd_custom/examples/ghl_vertical/item_cache.rs:337-339 | the item's `children` when the item exists, none otherwise: the tree the walks see |
| GhlStore.ItemCache.GetListContents | crates/dnd_custom/examples/ghl_vertical/item_cache.rs:341-348 | the list's entries when it exists, none otherwise |
| VerticalItemCache.NewList | crates/dnd_custom/examples/vertical/item_cache.rs:62-97 | `new_list` returns the shared counter on entry and advances it |
| VerticalItemCache.NewItems | crates/dnd_custom/examples/vertical/item_cache.rs:73-86 | `k` rounds of the loop give `k` entries and draw at least `k` ids |
| VerticalItemCache.NewListGrows | crates/dnd_custom/examples/vertical/item_cache.rs:62-97 | older keys are untouched. Every drawn id is exactly one of an item (keyed by its id, with a present child list drawn in the same range) or a list (keyed by its id, whose entries are present items drawn in the same range). The returned list is empty at depth 0 and otherwise holds `list_len` increasing ids |
| VerticalItemCache.NewItemsGrows | crates/dnd_custom/examples/vertical/item_cache.rs:73-86 | the loop's entries are fresh present items in increasing order, nothing older touched |
| VerticalItemCache.CloseList | crates/dnd_custom/examples/vertical/item_cache.rs:88-96 | inserting the finished list completes the ids drawn by the call |
| VerticalItemCache.GrowsValid | crates/dnd_custom/examples/vertical/item_cache.rs:62-97 | what `new_list` builds keeps the counter above every key |
| VerticalItemCache.NewListInPlace | crates/dnd_custom/examples/vertical/item_cache.rs:62-97 | the imperative `new_list` over `&mut` counter and maps ends in what `NewList` says |
| VerticalItemCache.ItemCache.DemoNew | crates/dnd_custom/examples/vertical/item_cache.rs:47-60 | the maps are those `new_list` builds from `next_id`, and `root_list_id` equals `next_id` |
| VerticalItemCache.ItemCache.GetChildListId | crates/dnd_custom/examples/vertical/item_cache.rs:108-110 | `items[i].children` when `i` is present, none otherwise |
| VerticalItemCache.DemoNewShape | crates/dnd_custom/examples/vertical/item_cache.rs:47-97 | `demo_new`: the root is `next_id`; item keys and list keys are disjoint and lie in `[next_id, counter)`; each item's `id` is its key and its child list exists; every entry is an item |

## Left out

- All egui drawing and interaction is left out, because it does not affect the bookkeeping. This covers `ui_item`, `ui_list_header`, `ui_list_contents` apart from which callbacks it runs, `handle_modal`, `modal_activated`, frames, menus, text edits and `Item::ui`. The `ui_modal_dialog` and `ui_selected_item` fields are not modelled either.
- The `hello_egui::dnd` engine is not part of this model. `show_custom`, `ItemIterator::next` and `item_state.dragged` become inputs: the registrations log, the `dragging` flag, and the reported `(from, to)` pair. Whether `ui_item` reports an item collapsed is the `collapsed` flag.
- `hello_egui::dnd::utils::shift_vec` is foreign code. It is a function parameter, and all that is known of it is that it keeps length and elements (`VecOps.ShiftVecContract`). Its index convention is not modelled.
- The structural edits `ui_item` makes while drawing (`add_item` and deletion in the same frame) are not modelled. The tree is taken to be the same for the walk and for both searches.
- Counters and slot numbers are unbounded `nat`s. `usize` overflow of `dnd_idx`, `next_item_id`, `next_list_id` or `next_id` is not modelled.
- Panics become preconditions rather than modelled errors:
  - `Vec::remove` / `Vec::insert` out of range in `handle_update`, `add_item`, `move_elements_2` and the multi-list apply step (`UpdateInRange`, `AddInRange`, `MoveInRange`);
  - the `*dnd_idx - 1` underflow for an empty first list (`FirstListNonEmpty`);
  - `lists[0]` on no lists.
- MultipleLists.MultipleLists.Ui requires of the reported pair what `Vec::insert` demands (`UpdateInRange`). An insertion lookup past the last list can give an index beyond that list's length, and the model does not follow the source into that panic.
- GhlSearch.FindStart and GhlSearch.FindEnd, and the functions they are proved against (GhlSearch.SearchStart, GhlSearch.ScanStart, GhlSearch.SearchEnd, GhlSearch.ScanEnd, GhlSearch.Decide, GhlSearch.Ui), require the tree to be acyclic (`Ranked`). `Ranked` excludes every cyclic tree, including cyclic trees the program handles: a cycle through a collapsed item, which no walk or search follows. A cycle through open items makes the walk recurse forever, and a cycle through a dragged item can make `find_start` loop. The demo stores build trees without cycles, but the model does not prove that. Termination is by the ghost rank, not by the width of the bounds.
- GhlModel.WalkList, GhlModel.WalkItems, GhlModel.WalkItem, GhlModel.WalkListSlots, GhlModel.WalkItemsSlots, GhlModel.WalkItemSlots, GhlModel.OpenItemSlots, GhlModel.DrawRoot, GhlModel.UiState.DrawList, GhlModel.UiState.DrawItems and GhlModel.UiState.DrawItem also require `Ranked`. They therefore say nothing about a tree with a cycle through a collapsed or dragged item, which `draw_item` never descends into and the program walks without trouble.
- GenericList.WalkList, GenericList.WalkItems, GenericList.WalkItem, GenericList.WalkListFooters, GenericList.WalkItemsFooters, GenericList.WalkItemFooters, GenericList.GenericUi.DrawList, GenericList.GenericUi.DrawItem and GenericList.Ui require `Ranked` for the same reason. They say nothing about a tree with a cycle through a collapsed item, which `draw_item` never descends into.
- The round-trip lemmas (GhlRoundTrip.FindStartRoundTrip and those after it) assume `GhlTree.Forest`: every listed item has a child list, and each child list has one parent occurrence. They are not proved to follow from `demo_new`. That proof would need two more generator invariants: distinct entries, and injective `children`.
- `println!` diagnostics and the red "not found" labels are output only and are not modelled.
- `root_list_id()` is the `rootListId` field.
- Which map backs `item_states` and `list_bounds` (a `HashMap`) does not matter here. They are Dafny `map`s.
- In `generic_list.rs`, a list the item cache does not have runs no callbacks. This follows the `ui_list_contents` of `crates/dnd_custom/examples/vertical/item_cache.rs:179-215`, so such a list records `[start, start]`. In `ghl.rs` a missing list still runs both callbacks (`crates/dnd_custom/examples/ghl_vertical/item_cache.rs:600-627`), with no items.
