/**
 * `crates/dnd_custom/src/ghl.rs`, drawing half: a pre-order walk over a hierarchical list that
 * hands every item with a child list its own drag position, records each walked list's
 * inclusive bounds (a sub-list's last position is its footer) and remembers, per item, the
 * position and the two flags that the searches need afterwards.
 */
module GhlModel {
  import opened ListTree

  /** `DndIdxBounds`: a first and a last drag position, both inclusive. */
  datatype Bounds = Bounds(start: nat, end: nat)
  {
    /** `DndIdxBounds::contains`. */
    predicate Contains(p: nat)
    {
      p >= start && p <= end
    }
  }

  /** `ItemState`: what the walk remembers of an item it drew. */
  datatype ItemState = ItemState(collapsed: bool, dndIdx: nat, dragging: bool)

  datatype ListConfig = Root | SubList

  /** One registration with the engine's item iterator: an item or a sub-list's footer. */
  datatype Slot = ItemSlot(item: ItemId, pos: nat) | FooterSlot(list: ListId, pos: nat)

  /** `UiState`: the shared drag position, `list_bounds`, `item_states` and the registrations. */
  datatype Frame = Frame(counter: nat, bounds: map<ListId, Bounds>, states: map<ItemId, ItemState>,
                         slots: seq<Slot>)

  /** Registrations sit at strictly increasing positions, all below the counter. */
  ghost predicate Registered(counter: nat, slots: seq<Slot>)
  {
    && (forall i, j :: 0 <= i < j < |slots| ==> slots[i].pos < slots[j].pos)
    && (forall i :: 0 <= i < |slots| ==> slots[i].pos < counter)
  }

  lemma Register(counter: nat, slots: seq<Slot>, s: Slot, counter': nat)
    ensures Registered(counter, slots) && s.pos == counter && counter < counter' ==>
              Registered(counter', slots + [s]) && Registered(counter', slots)
  {
  }

  /** The registrations from index `from` on sit at positions in `[lo, hi)`. */
  ghost predicate SlotsIn(slots: seq<Slot>, from: nat, lo: nat, hi: nat)
  {
    forall i :: from <= i < |slots| ==> lo <= slots[i].pos < hi
  }

  /** A log that extends another keeps the older registrations' positions. */
  lemma SlotsInJoin(a: seq<Slot>, b: seq<Slot>, from: nat, lo: nat, mid: nat, hi: nat)
    requires from <= |a| <= |b| && b[..|a|] == a && lo <= mid <= hi
    requires SlotsIn(a, from, lo, mid) && SlotsIn(b, |a|, mid, hi)
    ensures SlotsIn(b, from, lo, hi)
  {
    forall i | from <= i < |a|
      ensures lo <= b[i].pos < hi
    {
      assert b[i] == b[..|a|][i];
    }
  }

  /** `draw_list`: the list's contents, then bounds `[start, counter]`, then one more position. */
  function WalkList(t: Tree, f: Flags, rank: map<ListId, nat>, l: ListId, config: ListConfig, w: Frame)
    : (r: Frame)
    requires Ranked(t, rank)
    ensures w.counter < r.counter
    ensures l in r.bounds && r.bounds[l] == Bounds(w.counter, r.counter - 1)
    ensures config.SubList? ==> |r.slots| > 0 && r.slots[|r.slots| - 1] == FooterSlot(l, r.bounds[l].end)
    ensures |w.slots| <= |r.slots| && r.slots[..|w.slots|] == w.slots
    ensures Registered(w.counter, w.slots) ==> Registered(r.counter, r.slots)
    decreases RankOf(rank, l), 2, 0
  {
    var start := w.counter;
    var items := Contents(t, l);
    ContentsBelow(t, rank, l);
    var g := WalkItems(t, f, rank, items, |items|, RankOf(rank, l), w);
    var slots := match config
      case Root => g.slots
      case SubList => g.slots + [FooterSlot(l, g.counter)];
    Register(g.counter, g.slots, FooterSlot(l, g.counter), g.counter + 1);
    Frame(g.counter + 1, g.bounds[l := Bounds(start, g.counter)], g.states, slots)
  }

  /** The item loop of `draw_list`, after the first `k` items. */
  function WalkItems(t: Tree, f: Flags, rank: map<ListId, nat>, items: seq<ItemId>, k: nat, r: nat, w: Frame)
    : (g: Frame)
    requires Ranked(t, rank) && ChildrenBelow(t, rank, items, r)
    requires k <= |items|
    ensures w.counter <= g.counter
    ensures |w.slots| <= |g.slots| && g.slots[..|w.slots|] == w.slots
    ensures Registered(w.counter, w.slots) ==> Registered(g.counter, g.slots)
    decreases r, 1, k
  {
    if k == 0 then w
    else
      var h := WalkItems(t, f, rank, items, k - 1, r, w);
      var g := WalkItem(t, f, rank, items[k - 1], r, h);
      assert g.slots[..|w.slots|] == h.slots[..|w.slots|];
      g
  }

  /**
   * `draw_item`: an item with a child list is registered at the current position, gets an
   * `item_states` entry with that position and advances the position by one; its child list
   * is walked only when the item is neither collapsed nor dragged. An item without a child
   * list changes nothing.
   */
  function WalkItem(t: Tree, f: Flags, rank: map<ListId, nat>, y: ItemId, r: nat, w: Frame): (g: Frame)
    requires Ranked(t, rank)
    requires y in t.child ==> RankOf(rank, t.child[y]) < r
    ensures y !in t.child ==> g == w
    ensures y in t.child ==> w.counter < g.counter
    ensures y in t.child && !Open(f, y) ==>
              g == Frame(w.counter + 1, w.bounds,
                         w.states[y := ItemState(y in f.collapsed, w.counter, y in f.dragging)],
                         w.slots + [ItemSlot(y, w.counter)])
    ensures y in t.child && Open(f, y) ==>
              t.child[y] in g.bounds && g.bounds[t.child[y]] == Bounds(w.counter + 1, g.counter - 1)
    ensures y in t.child ==> |g.slots| > |w.slots| && g.slots[|w.slots|] == ItemSlot(y, w.counter)
    ensures w.counter <= g.counter
    ensures |w.slots| <= |g.slots| && g.slots[..|w.slots|] == w.slots
    ensures Registered(w.counter, w.slots) ==> Registered(g.counter, g.slots)
    decreases r, 0, 0
  {
    if y !in t.child then w
    else
      var h := Frame(w.counter + 1, w.bounds,
                     w.states[y := ItemState(y in f.collapsed, w.counter, y in f.dragging)],
                     w.slots + [ItemSlot(y, w.counter)]);
      Register(w.counter, w.slots, ItemSlot(y, w.counter), w.counter + 1);
      if !Open(f, y) then h
      else
        var g := WalkList(t, f, rank, t.child[y], SubList, h);
        assert g.slots[..|w.slots|] == h.slots[..|w.slots|];
        g
  }

  /**
   * Every registration a walk of `l` adds sits between the counter on entry and the counter on
   * exit. The root list registers no footer, so nothing it adds sits at its last position.
   */
  lemma {:induction false} WalkListSlots(t: Tree, f: Flags, rank: map<ListId, nat>, l: ListId, config: ListConfig, w: Frame)
    requires Ranked(t, rank)
    ensures var r := WalkList(t, f, rank, l, config, w);
            && SlotsIn(r.slots, |w.slots|, w.counter, r.counter)
            && (config.Root? ==> SlotsIn(r.slots, |w.slots|, w.counter, r.bounds[l].end))
    decreases RankOf(rank, l), 2, 0
  {
    var items := Contents(t, l);
    ContentsBelow(t, rank, l);
    var g := WalkItems(t, f, rank, items, |items|, RankOf(rank, l), w);
    WalkItemsSlots(t, f, rank, items, |items|, RankOf(rank, l), w);
    SlotsInJoin(g.slots, g.slots + [FooterSlot(l, g.counter)], |w.slots|, w.counter, g.counter, g.counter + 1);
  }

  /** The registrations the item loop adds sit between the counters on entry and on exit. */
  lemma {:induction false} WalkItemsSlots(t: Tree, f: Flags, rank: map<ListId, nat>, items: seq<ItemId>, k: nat, r: nat, w: Frame)
    requires Ranked(t, rank) && ChildrenBelow(t, rank, items, r)
    requires k <= |items|
    ensures var g := WalkItems(t, f, rank, items, k, r, w);
            SlotsIn(g.slots, |w.slots|, w.counter, g.counter)
    decreases r, 1, k
  {
    if k > 0 {
      var h := WalkItems(t, f, rank, items, k - 1, r, w);
      var g := WalkItem(t, f, rank, items[k - 1], r, h);
      WalkItemsSlots(t, f, rank, items, k - 1, r, w);
      WalkItemSlots(t, f, rank, items[k - 1], r, h);
      SlotsInJoin(h.slots, g.slots, |w.slots|, w.counter, h.counter, g.counter);
    }
  }

  /** The registrations `draw_item` adds sit between the counters on entry and on exit. */
  lemma {:induction false} WalkItemSlots(t: Tree, f: Flags, rank: map<ListId, nat>, y: ItemId, r: nat, w: Frame)
    requires Ranked(t, rank)
    requires y in t.child ==> RankOf(rank, t.child[y]) < r
    ensures var g := WalkItem(t, f, rank, y, r, w);
            SlotsIn(g.slots, |w.slots|, w.counter, g.counter)
    decreases r, 0, 0
  {
    if y in t.child {
      var h := Frame(w.counter + 1, w.bounds,
                     w.states[y := ItemState(y in f.collapsed, w.counter, y in f.dragging)],
                     w.slots + [ItemSlot(y, w.counter)]);
      assert SlotsIn(h.slots, |w.slots|, w.counter, h.counter);
      if Open(f, y) {
        var c := t.child[y];
        assert WalkItem(t, f, rank, y, r, w) == WalkList(t, f, rank, c, SubList, h);
        OpenItemSlots(t, f, rank, c, w, h);
      }
    }
  }

  /** The walk of an open item's child list keeps what the item's own registration started. */
  lemma {:induction false} OpenItemSlots(t: Tree, f: Flags, rank: map<ListId, nat>, c: ListId, w: Frame, h: Frame)
    requires Ranked(t, rank)
    requires |w.slots| <= |h.slots| && w.counter <= h.counter
    requires SlotsIn(h.slots, |w.slots|, w.counter, h.counter)
    ensures var g := WalkList(t, f, rank, c, SubList, h);
            SlotsIn(g.slots, |w.slots|, w.counter, g.counter)
    decreases RankOf(rank, c), 3, 0
  {
    var g := WalkList(t, f, rank, c, SubList, h);
    WalkListSlots(t, f, rank, c, SubList, h);
    SlotsInJoin(h.slots, g.slots, |w.slots|, w.counter, h.counter, g.counter);
  }

  /** The frame `ghl::ui` starts from. */
  function EmptyFrame(): Frame
  {
    Frame(0, map[], map[], [])
  }

  /**
   * The walk `ghl::ui` performs from the root list. The root's last position holds no
   * registration, so nothing can be dragged past the root's contents.
   */
  function DrawRoot(t: Tree, f: Flags, rank: map<ListId, nat>, root: ListId): (w: Frame)
    requires Ranked(t, rank)
    ensures w.counter > 0 && root in w.bounds && w.bounds[root] == Bounds(0, w.counter - 1)
    ensures Registered(w.counter, w.slots)
    ensures forall i :: 0 <= i < |w.slots| ==> w.slots[i].pos < w.bounds[root].end
  {
    WalkListSlots(t, f, rank, root, Root, EmptyFrame());
    WalkList(t, f, rank, root, Root, EmptyFrame())
  }

  /** The state `ghl::ui` threads through `draw_list` and `draw_item`. */
  class UiState {
    var dndIdx: nat
    var listBounds: map<ListId, Bounds>
    var itemStates: map<ItemId, ItemState>
    /** What has been registered with the engine's item iterator, in order. */
    var slots: seq<Slot>

    function Snapshot(): Frame
      reads this
    {
      Frame(dndIdx, listBounds, itemStates, slots)
    }

    constructor ()
      ensures Snapshot() == EmptyFrame()
    {
      dndIdx := 0;
      listBounds := map[];
      itemStates := map[];
      slots := [];
    }

    /**
     * `draw_list`, with the item cache's `ui_list_contents` running both callbacks; a missing
     * list has no items.
     */
    method DrawList(t: Tree, f: Flags, ghost rank: map<ListId, nat>, listId: ListId, config: ListConfig)
      requires Ranked(t, rank)
      modifies this
      ensures Snapshot() == WalkList(t, f, rank, listId, config, old(Snapshot()))
      decreases RankOf(rank, listId), 2
    {
      var start := dndIdx;
      ContentsBelow(t, rank, listId);
      DrawItems(t, f, rank, listId, RankOf(rank, listId));
      match config {
        case Root =>
        case SubList =>
          slots := slots + [FooterSlot(listId, dndIdx)];
      }
      listBounds := listBounds[listId := Bounds(start, dndIdx)];
      dndIdx := dndIdx + 1;
    }

    /** The `ui_items` closure of `draw_list`: every item of the list, if the list exists. */
    method DrawItems(t: Tree, f: Flags, ghost rank: map<ListId, nat>, listId: ListId, ghost r: nat)
      requires Ranked(t, rank) && ChildrenBelow(t, rank, Contents(t, listId), r)
      modifies this
      ensures var items := Contents(t, listId);
              Snapshot() == WalkItems(t, f, rank, items, |items|, r, old(Snapshot()))
      decreases r, 1
    {
      if listId in t.lists {
        var items := t.lists[listId];
        for i := 0 to |items|
          invariant Snapshot() == WalkItems(t, f, rank, items, i, r, old(Snapshot()))
        {
          DrawItem(t, f, rank, items[i], r);
        }
      }
    }

    /** `draw_item`. */
    method DrawItem(t: Tree, f: Flags, ghost rank: map<ListId, nat>, itemId: ItemId, ghost r: nat)
      requires Ranked(t, rank)
      requires itemId in t.child ==> RankOf(rank, t.child[itemId]) < r
      modifies this
      ensures Snapshot() == WalkItem(t, f, rank, itemId, r, old(Snapshot()))
      decreases r, 0
    {
      if itemId in t.child {
        var listId := t.child[itemId];
        var itemDragging := itemId in f.dragging;
        var itemCollapsed := itemId in f.collapsed;
        var itemIdx := dndIdx;
        slots := slots + [ItemSlot(itemId, dndIdx)];
        itemStates := itemStates[itemId := ItemState(itemCollapsed, itemIdx, itemDragging)];
        dndIdx := dndIdx + 1;
        ghost var h := Snapshot();
        assert WalkItem(t, f, rank, itemId, r, old(Snapshot()))
            == if Open(f, itemId) then WalkList(t, f, rank, listId, SubList, h) else h;
        if !itemCollapsed && !itemDragging {
          DrawList(t, f, rank, listId, SubList);
        }
      }
    }
  }
}
