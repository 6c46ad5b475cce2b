/**
 * `crates/dnd_custom/examples/ghl_vertical/item_cache.rs`: the tree store behind the ghl demo.
 * Items and lists live in two maps with one id counter each; drag updates, item insertion and
 * subtree deletion change the maps in place.
 */
module GhlItemCache {
  import VecOps
  import opened ListTree
  import opened GhlSearch

  /** `Item`: an item with its title and the list of its children. */
  datatype Item = Item(id: ItemId, title: string, children: ListId, uiCollapsed: bool)

  /** `ItemList`: a list of item ids. */
  datatype ItemList = ItemList(id: ListId, sortedBy: string, data: seq<ItemId>, uiOutlined: bool)

  /** `ListPosition`: where `add_item` puts the new item. */
  datatype ListPosition = Start | End | At(idx: nat)

  /** The store's maps and counters; `new_list` works on exactly these four. */
  datatype Arena = Arena(items: map<ItemId, Item>, nextItemId: nat, lists: map<ListId, ItemList>, nextListId: nat)

  /** `ItemList::new`. */
  function EmptyList(id: ListId): ItemList
  {
    ItemList(id, "", [], false)
  }

  /** Every key lies below its counter, so the counters are fresh ids. */
  predicate Valid(a: Arena)
  {
    && (forall y :: y in a.items ==> y < a.nextItemId)
    && (forall l :: l in a.lists ==> l < a.nextListId)
  }

  /** The tree the walks in `ghl.rs` see through `get_list_contents` and `get_child_list_id`. */
  function View(a: Arena): Tree
  {
    Tree(map l | l in a.lists :: a.lists[l].data, map y | y in a.items :: a.items[y].children)
  }

  // ---------------------------------------------------------------------------------------------
  // handle_update

  /** The list an update drops into: the source list for `Within`. */
  function DestOf(u: DragUpdate): ListId
  {
    match u.to
    case Insert(loc) => loc.listId
    case Push(l) => l
    case Within(_) => u.from.listId
  }

  /**
   * What `Vec::remove` and `Vec::insert` in `handle_update` demand: the source index is in the
   * source list, and an insertion index is at most the target's length after the removal.
   */
  predicate UpdateInRange(lists: map<ListId, ItemList>, u: DragUpdate)
  {
    u.from.listId in lists ==>
      && u.from.idx < |lists[u.from.listId].data|
      && match u.to
         case Insert(loc) =>
           loc.listId in lists ==>
             loc.idx <= |lists[loc.listId].data| - (if loc.listId == u.from.listId then 1 else 0)
         case Push(_) => true
         case Within(j) => j < |lists[u.from.listId].data|
  }

  /** The lists with the entries of `l` replaced by `d`. */
  function SetData(lists: map<ListId, ItemList>, l: ListId, d: seq<ItemId>): (r: map<ListId, ItemList>)
    requires l in lists
    ensures r.Keys == lists.Keys
  {
    lists[l := lists[l].(data := d)]
  }

  /**
   * `handle_update` on the lists: remove the source entry, then insert or push it into the
   * destination; the flag tells whether the destination was found. When it was not, the
   * removed entry is lost.
   */
  function ApplyUpdate(lists: map<ListId, ItemList>, u: DragUpdate): (r: (map<ListId, ItemList>, bool))
    requires UpdateInRange(lists, u)
    ensures r.0.Keys == lists.Keys
    ensures r.1 <==> u.from.listId in lists && DestOf(u) in lists
    ensures u.from.listId !in lists ==> r.0 == lists
  {
    if u.from.listId !in lists then (lists, false)
    else
      var src := lists[u.from.listId].data;
      var lists1 := SetData(lists, u.from.listId, VecOps.Remove(src, u.from.idx));
      PutBack(lists1, u, src[u.from.idx])
  }

  /** The second half of `handle_update`: the removed entry `x` goes to the destination. */
  function PutBack(lists1: map<ListId, ItemList>, u: DragUpdate, x: ItemId): (r: (map<ListId, ItemList>, bool))
    requires u.from.listId in lists1
    requires u.to.Insert? && u.to.location.listId in lists1 ==> u.to.location.idx <= |lists1[u.to.location.listId].data|
    requires u.to.Within? ==> u.to.to <= |lists1[u.from.listId].data|
    ensures r.0.Keys == lists1.Keys
    ensures r.1 <==> DestOf(u) in lists1
  {
    match u.to
    case Insert(loc) =>
      if loc.listId in lists1 then
        (SetData(lists1, loc.listId, VecOps.Insert(lists1[loc.listId].data, loc.idx, x)), true)
      else (lists1, false)
    case Push(l) =>
      if l in lists1 then (SetData(lists1, l, lists1[l].data + [x]), true)
      else (lists1, false)
    case Within(j) =>
      (SetData(lists1, u.from.listId, VecOps.Insert(lists1[u.from.listId].data, j, x)), true)
  }

  /** A move changes only the entries of the source and the destination list. */
  lemma UpdateTouchesTwoLists(lists: map<ListId, ItemList>, u: DragUpdate)
    requires UpdateInRange(lists, u)
    ensures var r := ApplyUpdate(lists, u).0;
            && (forall l :: l in lists && l != u.from.listId && l != DestOf(u) ==> r[l] == lists[l])
            && (forall l :: l in lists ==> r[l].(data := lists[l].data) == lists[l])
  {
  }

  /**
   * A move that ends in its own list keeps that list's length and entries, and puts the moved
   * entry where the destination says.
   */
  lemma UpdateWithinList(lists: map<ListId, ItemList>, u: DragUpdate)
    requires UpdateInRange(lists, u) && u.from.listId in lists && DestOf(u) == u.from.listId
    ensures var src := lists[u.from.listId].data;
            var x := src[u.from.idx];
            var d := ApplyUpdate(lists, u).0[u.from.listId].data;
            && |d| == |src| && multiset(d) == multiset(src)
            && (u.to.Insert? ==> d[u.to.location.idx] == x)
            && (u.to.Within? ==> d[u.to.to] == x)
            && (u.to.Push? ==> d[|d| - 1] == x)
  {
    var src := lists[u.from.listId].data;
    var removed := VecOps.Remove(src, u.from.idx);
    assert multiset(removed + [src[u.from.idx]]) == multiset(removed) + multiset{src[u.from.idx]};
  }

  /**
   * A move between two lists takes the entry out of the source; when the destination exists it
   * gains exactly that entry, at the given index or at the end, and otherwise the entry is lost.
   */
  lemma UpdateAcrossLists(lists: map<ListId, ItemList>, u: DragUpdate)
    requires UpdateInRange(lists, u) && u.from.listId in lists && DestOf(u) != u.from.listId
    ensures var src := lists[u.from.listId].data;
            var x := src[u.from.idx];
            var r := ApplyUpdate(lists, u);
            && |r.0[u.from.listId].data| + 1 == |src|
            && multiset(r.0[u.from.listId].data) + multiset{x} == multiset(src)
            && (DestOf(u) in lists ==>
                  var d := r.0[DestOf(u)].data;
                  && |d| == |lists[DestOf(u)].data| + 1
                  && multiset(d) == multiset(lists[DestOf(u)].data) + multiset{x}
                  && (u.to.Insert? ==> d[u.to.location.idx] == x)
                  && (u.to.Push? ==> d[|d| - 1] == x))
  {
  }

  /** A `Within` move gives the item back to its list at the new index, keeping the rest in order. */
  lemma WithinReorders(lists: map<ListId, ItemList>, u: DragUpdate)
    requires UpdateInRange(lists, u) && u.from.listId in lists && u.to.Within? && u.to.to == u.from.idx
    ensures ApplyUpdate(lists, u).0 == lists
  {
    var src := lists[u.from.listId];
    VecOps.InsertRemove(src.data, u.from.idx);
    assert src.(data := src.data) == src;
  }

  // ---------------------------------------------------------------------------------------------
  // add_item

  /** What `Vec::insert` in `add_item` demands, on the lists after the child list was added. */
  predicate AddInRange(a: Arena, listId: ListId, pos: ListPosition)
  {
    var lists1 := a.lists[a.nextListId := EmptyList(a.nextListId)];
    pos.At? && listId in lists1 ==> pos.idx <= |lists1[listId].data|
  }

  /**
   * `add_item`: a fresh empty list and a fresh item whose child it is go in; the item's id goes
   * into `listId` at the requested place and both counters advance. When `listId` is not
   * found, the two fresh entries are removed again.
   */
  function AddItemTo(a: Arena, listId: ListId, pos: ListPosition): (r: Arena)
    requires AddInRange(a, listId, pos)
    ensures listId in a.lists || listId == a.nextListId ==>
              r.nextListId == a.nextListId + 1 && r.nextItemId == a.nextItemId + 1
    ensures !(listId in a.lists || listId == a.nextListId) ==>
              r == a.(items := a.items - {a.nextItemId}, lists := a.lists - {a.nextListId})
  {
    var c := a.nextListId;
    var lists1 := a.lists[c := EmptyList(c)];
    var n := a.nextItemId;
    var items1 := a.items[n := Item(c, "", c, false)];
    if listId in lists1 then
      var data := lists1[listId].data;
      var data' := match pos
        case Start => VecOps.Insert(data, 0, n)
        case End => data + [n]
        case At(idx) => VecOps.Insert(data, idx, n);
      Arena(items1, n + 1, lists1[listId := lists1[listId].(data := data')], c + 1)
    else
      Arena(items1 - {n}, n, lists1 - {c}, c)
  }

  /**
   * `add_item` into a list it finds: one fresh item (whose `id` field holds the child list's id,
   * not its own key) and one fresh empty child list, the item id placed as requested, nothing
   * else changed.
   */
  lemma AddItemFound(a: Arena, listId: ListId, pos: ListPosition)
    requires AddInRange(a, listId, pos) && (listId in a.lists || listId == a.nextListId)
    ensures var r := AddItemTo(a, listId, pos);
            var c, n := a.nextListId, a.nextItemId;
            && r.items.Keys == a.items.Keys + {n}
            && r.items[n] == Item(c, "", c, false)
            && (forall y :: y in a.items && y != n ==> r.items[y] == a.items[y])
            && r.lists.Keys == a.lists.Keys + {c}
            && (forall l :: l in a.lists && l != listId && l != c ==> r.lists[l] == a.lists[l])
            && (listId != c ==> r.lists[c] == EmptyList(c))
  {
  }

  /** Where `add_item` puts the new id inside the list it finds. */
  lemma AddItemPlaces(a: Arena, listId: ListId, pos: ListPosition)
    requires AddInRange(a, listId, pos) && (listId in a.lists || listId == a.nextListId)
    ensures var r := AddItemTo(a, listId, pos);
            var n := a.nextItemId;
            var before := if listId == a.nextListId then [] else a.lists[listId].data;
            listId in r.lists &&
            var after := r.lists[listId].data;
            && |after| == |before| + 1 && multiset(after) == multiset(before) + multiset{n}
            && (pos.Start? ==> after[0] == n && after[1..] == before)
            && (pos.End? ==> after == before + [n])
            && (pos.At? ==> pos.idx <= |before| && after == before[..pos.idx] + [n] + before[pos.idx..]
                            && after[pos.idx] == n)
  {
    var before := if listId == a.nextListId then [] else a.lists[listId].data;
    var r := AddItemTo(a, listId, pos);
    if pos.Start? {
      assert r.lists[listId].data[1..] == before;
    }
  }

  /** On a store whose counters are fresh, `add_item` into a missing list changes nothing. */
  lemma AddItemMissing(a: Arena, listId: ListId, pos: ListPosition)
    requires Valid(a) && AddInRange(a, listId, pos) && listId !in a.lists && listId != a.nextListId
    ensures AddItemTo(a, listId, pos) == a
  {
    assert a.items - {a.nextItemId} == a.items;
    assert a.lists - {a.nextListId} == a.lists;
  }

  /** `add_item` keeps the counters fresh. */
  lemma AddItemValid(a: Arena, listId: ListId, pos: ListPosition)
    requires Valid(a) && AddInRange(a, listId, pos)
    ensures Valid(AddItemTo(a, listId, pos))
  {
  }
}
