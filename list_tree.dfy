/**
 * The view of a hierarchical list that the walks in `generic_list.rs` and `ghl.rs` get from
 * their item cache: `get_list_contents` (the item ids of a list, if the list exists) and
 * `get_child_list_id` (the child list of an item, if the item exists), together with the two
 * per-item flags that egui supplies while drawing.
 */
module ListTree {
  type ItemId = nat
  type ListId = nat

  datatype Tree = Tree(lists: map<ListId, seq<ItemId>>, child: map<ItemId, ListId>)

  /**
   * Per-frame inputs: `collapsed` holds the items whose `ui_item` reports them collapsed,
   * `dragging` the items the drag-and-drop engine reports as being dragged.
   */
  datatype Flags = Flags(collapsed: set<ItemId>, dragging: set<ItemId>)

  /** An item whose child list is walked: neither collapsed nor dragged. */
  predicate Open(f: Flags, y: ItemId)
  {
    y !in f.collapsed && y !in f.dragging
  }

  /** The contents of `l` as the walks see them: a missing list has no items. */
  function Contents(t: Tree, l: ListId): seq<ItemId>
  {
    if l in t.lists then t.lists[l] else []
  }

  function RankOf(rank: map<ListId, nat>, l: ListId): nat
  {
    if l in rank then rank[l] else 0
  }

  /**
   * A witness that the child relation has no cycles: the child list of an item ranks below
   * the list holding the item. The walks recurse into the child lists of open items, so a cycle
   * through open items would never end; `find_start` also descends past dragged items.
   */
  ghost predicate Ranked(t: Tree, rank: map<ListId, nat>)
  {
    forall l, i :: l in t.lists && 0 <= i < |t.lists[l]| && t.lists[l][i] in t.child ==>
      RankOf(rank, t.child[t.lists[l][i]]) < RankOf(rank, l)
  }

  /** Every item of `items` has its child list ranked below `r`. */
  ghost predicate ChildrenBelow(t: Tree, rank: map<ListId, nat>, items: seq<ItemId>, r: nat)
  {
    forall i :: 0 <= i < |items| && items[i] in t.child ==> RankOf(rank, t.child[items[i]]) < r
  }

  lemma ContentsBelow(t: Tree, rank: map<ListId, nat>, l: ListId)
    requires Ranked(t, rank)
    ensures ChildrenBelow(t, rank, Contents(t, l), RankOf(rank, l))
  {
  }
}
