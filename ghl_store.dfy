/**
 * `ItemCache` in `crates/dnd_custom/examples/ghl_vertical/item_cache.rs` as an object: its maps
 * and counters are fields, and each operation is proved to leave exactly the state that the
 * corresponding function of `GhlItemCache`, `GhlRemoval` or `GhlNewList` describes.
 */
module GhlStore {
  import VecOps
  import opened ListTree
  import opened GhlSearch
  import opened GhlItemCache
  import opened Options
  import GhlRemoval
  import GhlNewList

  class ItemCache {
    var items: map<ItemId, Item>
    var nextItemId: nat
    var lists: map<ListId, ItemList>
    var nextListId: nat
    var rootListId: ListId

    /** The four fields `new_list` and the deletions work on. */
    function Snapshot(): Arena
      reads this
    {
      Arena(items, nextItemId, lists, nextListId)
    }

    /** `demo_new`: build the demo tree from empty maps and counters at zero. */
    constructor DemoNew(depth: nat, listLen: nat)
      ensures Snapshot() == GhlNewList.NewList(Arena(map[], 0, map[], 0), depth, listLen).0
      ensures rootListId == 0
    {
      items := map[];
      nextItemId := 0;
      lists := map[];
      nextListId := 0;
      rootListId := 0;
      new;
      rootListId := NewList(depth, listLen);
    }

    /**
     * `new_list`, with the four `&mut` arguments being this object's maps and counters: reserve
     * the list id, build `list_len` items each with a child list one level shallower, then put
     * the list in.
     */
    method NewList(depth: nat, listLen: nat) returns (listId: ListId)
      modifies this
      ensures (Snapshot(), listId) == GhlNewList.NewList(old(Snapshot()), depth, listLen)
      ensures rootListId == old(rootListId)
      decreases depth
    {
      listId := nextListId;
      nextListId := nextListId + 1;
      ghost var a1 := Snapshot();
      var data: seq<ItemId> := [];
      if depth > 0 {
        for i := 0 to listLen
          invariant (Snapshot(), data) == GhlNewList.NewItems(a1, depth - 1, listLen, i)
          invariant rootListId == old(rootListId)
        {
          var itemId := nextItemId;
          nextItemId := nextItemId + 1;
          var child := NewList(depth - 1, listLen);
          items := items[itemId := Item(itemId, GhlNewList.PlaceholderTitle, child, false)];
          data := data + [itemId];
        }
      }
      lists := lists[listId := ItemList(listId, "", data, false)];
    }

    /**
     * `handle_update`: remove the source entry, then insert or push it into the destination;
     * the result says whether the destination was found.
     */
    method HandleUpdate(update: DragUpdate) returns (ok: bool)
      requires UpdateInRange(lists, update)
      modifies this
      ensures (lists, ok) == ApplyUpdate(old(lists), update)
      ensures items == old(items) && nextItemId == old(nextItemId) && nextListId == old(nextListId)
      ensures rootListId == old(rootListId)
    {
      if update.from.listId in lists {
        var src := lists[update.from.listId];
        var removedItem := src.data[update.from.idx];
        lists := lists[update.from.listId := src.(data := VecOps.Remove(src.data, update.from.idx))];
        match update.to {
          case Insert(to) =>
            if to.listId in lists {
              var list := lists[to.listId];
              lists := lists[to.listId := list.(data := VecOps.Insert(list.data, to.idx, removedItem))];
              return true;
            }
          case Push(to) =>
            if to in lists {
              var list := lists[to];
              lists := lists[to := list.(data := list.data + [removedItem])];
              return true;
            }
          case Within(to) =>
            var list := lists[update.from.listId];
            lists := lists[update.from.listId := list.(data := VecOps.Insert(list.data, to, removedItem))];
            return true;
        }
      }
      return false;
    }

    /** `add_item`. */
    method AddItem(listId: ListId, pos: ListPosition)
      requires AddInRange(Snapshot(), listId, pos)
      modifies this
      ensures Snapshot() == AddItemTo(old(Snapshot()), listId, pos)
      ensures rootListId == old(rootListId)
    {
      ghost var a := Snapshot();
      var childListId := nextListId;
      var lists1 := lists[childListId := EmptyList(childListId)];
      var childId := nextItemId;
      var items1 := items[childId := Item(childListId, "", childListId, false)];
      if listId in lists1 {
        var data := lists1[listId].data;
        match pos {
          case Start => data := VecOps.Insert(data, 0, childId);
          case End => data := data + [childId];
          case At(idx) => data := VecOps.Insert(data, idx, childId);
        }
        assert AddItemTo(a, listId, pos)
            == Arena(items1, childId + 1, lists1[listId := lists1[listId].(data := data)], childListId + 1);
        lists := lists1[listId := lists1[listId].(data := data)];
        items := items1;
        nextListId := nextListId + 1;
        nextItemId := nextItemId + 1;
      } else {
        assert AddItemTo(a, listId, pos) == Arena(items1 - {childId}, childId, lists1 - {childListId}, childListId);
        lists := lists1 - {childListId};
        items := items1 - {childId};
      }
    }

    /** `remove_item_from_parent_and_delete`. */
    method RemoveItemFromParentAndDelete(listId: ListId, itemId: ItemId)
      modifies this
      ensures Snapshot() == GhlRemoval.RemoveFromParentAndDelete(old(Snapshot()), listId, itemId)
      ensures rootListId == old(rootListId)
    {
      if listId in lists {
        var list := lists[listId];
        var itemIdx := GhlRemoval.Position(list.data, itemId);
        if itemIdx.Some? {
          lists := lists[listId := list.(data := VecOps.Remove(list.data, itemIdx.value))];
        }
      }
      DeleteItemAndChildren(itemId);
    }

    /** `delete_item_and_children`. */
    method DeleteItemAndChildren(itemId: ItemId)
      modifies this
      ensures Snapshot() == GhlRemoval.DeleteItem(old(Snapshot()), itemId)
      ensures rootListId == old(rootListId)
      decreases |lists.Keys|, 1
    {
      if itemId in items {
        RemoveList(items[itemId].children);
      }
      items := items - {itemId};
    }

    /** `remove_list`: take the list's entries, drop the list, then delete each entry's subtree. */
    method RemoveList(listId: ListId)
      modifies this
      ensures Snapshot() == GhlRemoval.RemoveList(old(Snapshot()), listId)
      ensures rootListId == old(rootListId)
      decreases |lists.Keys|, 0
    {
      var itemsToRemove := TakeList(listId);
      GhlRemoval.RemoveListUnfold(old(Snapshot()), listId);
      if listId in old(lists) {
        GhlRemoval.DropCard(old(lists), listId);
      }
      for i := 0 to |itemsToRemove|
        invariant GhlRemoval.DeleteAll(Snapshot(), itemsToRemove[i..]) == GhlRemoval.RemoveList(old(Snapshot()), listId)
        invariant |itemsToRemove| > 0 ==> |lists.Keys| < |old(lists).Keys|
        invariant rootListId == old(rootListId)
      {
        assert itemsToRemove[i..][1..] == itemsToRemove[i + 1..];
        ghost var before := Snapshot();
        GhlRemoval.DeleteAllStep(before, itemsToRemove[i..]);
        DeleteItemAndChildren(itemsToRemove[i]);
        GhlRemoval.ShrinksCard(before, Snapshot());
      }
    }

    /** The start of `remove_list`: `mem::take` the list's entries, then drop the list. */
    method TakeList(listId: ListId) returns (taken: seq<ItemId>)
      modifies this
      ensures taken == if listId in old(lists) then old(lists)[listId].data else []
      ensures Snapshot() == old(Snapshot()).(lists := old(lists) - {listId})
      ensures rootListId == old(rootListId)
    {
      taken := [];
      if listId in lists {
        taken := lists[listId].data;
        lists := lists[listId := lists[listId].(data := [])];
      }
      lists := lists - {listId};
      assert old(lists) - {listId} == lists;
    }

    /** `get_child_list_id`: the child list the walk descends into. */
    function GetChildListId(itemId: ItemId): (r: Option<ListId>)
      reads this
      ensures r.Some? <==> itemId in View(Snapshot()).child
      ensures r.Some? ==> r.value == View(Snapshot()).child[itemId]
    {
      if itemId in items then Some(items[itemId].children) else None
    }

    /** `get_list_contents`: the entries the walk iterates over. */
    function GetListContents(listId: ListId): (r: Option<seq<ItemId>>)
      reads this
      ensures r.Some? <==> listId in View(Snapshot()).lists
      ensures r.Some? ==> r.value == Contents(View(Snapshot()), listId)
    {
      if listId in lists then Some(lists[listId].data) else None
    }
  }
}
