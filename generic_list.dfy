/**
 * `crates/dnd_custom/src/generic_list.rs`: the earlier walk over a hierarchical list. An item
 * with a child list is registered with the drag-and-drop engine at the current drag position
 * without advancing it; only a sub-list's footer advances the position. The root list records
 * bounds `[start, start]`. Which callbacks run is decided by the item cache's
 * `ui_list_contents`; the one in `crates/dnd_custom/examples/vertical/item_cache.rs` runs none
 * for a missing list.
 */
module GenericList {
  import opened ListTree

  /** `DndIdxBounds`: a first and a last drag position, both inclusive. */
  datatype Bounds = Bounds(start: nat, end: nat)
  {
    predicate Contains(p: nat)
    {
      p >= start && p <= end
    }
  }

  datatype ListConfig = Root | SubList

  /** One registration with the engine's item iterator: an item or a sub-list's footer. */
  datatype Slot = ItemSlot(item: ItemId, pos: nat) | FooterSlot(list: ListId, pos: nat)

  /** The walk's state: the shared drag position, the recorded bounds and the registrations. */
  datatype Walk = Walk(counter: nat, bounds: map<ListId, Bounds>, slots: seq<Slot>)

  function CountFooters(s: seq<Slot>): (n: nat)
    ensures n <= |s|
  {
    if |s| == 0 then 0 else CountFooters(s[..|s| - 1]) + (if s[|s| - 1].FooterSlot? then 1 else 0)
  }

  /**
   * A log in which every registration sits at the number of footers registered before it, and
   * the counter is the number of footers so far: the drag position only moves at a footer.
   */
  ghost predicate FooterCounted(w: Walk)
  {
    Counted(w.counter, w.slots)
  }

  ghost predicate Counted(counter: nat, slots: seq<Slot>)
  {
    && counter == CountFooters(slots)
    && forall i :: 0 <= i < |slots| ==> slots[i].pos == CountFooters(slots[..i])
  }

  /** Registering `s` at the current position keeps the log footer-counted. */
  lemma Register(w: Walk, s: Slot)
    ensures FooterCounted(w) && s.pos == w.counter ==>
              Counted(w.counter + (if s.FooterSlot? then 1 else 0), w.slots + [s])
  {
    var slots := w.slots + [s];
    assert slots[..|w.slots|] == w.slots;
    forall i | 0 <= i < |w.slots| ensures slots[..i] == w.slots[..i] { }
  }

  /** The footers registered from index `from` on belong to lists ranked below `r`. */
  ghost predicate FootersBelow(rank: map<ListId, nat>, slots: seq<Slot>, from: nat, r: nat)
  {
    forall i :: from <= i < |slots| && slots[i].FooterSlot? ==> RankOf(rank, slots[i].list) < r
  }

  /** A log that extends another keeps the older footers' lists. */
  lemma FootersBelowJoin(rank: map<ListId, nat>, a: seq<Slot>, b: seq<Slot>, from: nat, ra: nat, rb: nat, r: nat)
    requires from <= |a| <= |b| && b[..|a|] == a && ra <= r && rb <= r
    requires FootersBelow(rank, a, from, ra) && FootersBelow(rank, b, |a|, rb)
    ensures FootersBelow(rank, b, from, r)
  {
    forall i | from <= i < |a| && b[i].FooterSlot?
      ensures RankOf(rank, b[i].list) < r
    {
      assert b[i] == b[..|a|][i];
    }
  }

  /** `draw_list` on list `l`. */
  function WalkList(t: Tree, f: Flags, rank: map<ListId, nat>, l: ListId, config: ListConfig, w: Walk)
    : (r: Walk)
    requires Ranked(t, rank)
    ensures FooterCounted(w) ==> FooterCounted(r)
    ensures |w.slots| <= |r.slots| && r.slots[..|w.slots|] == w.slots
    ensures w.counter <= r.counter
    ensures l in r.bounds && r.bounds[l].start == w.counter
    ensures forall m :: m in w.bounds ==> m in r.bounds
    ensures l !in t.lists || config.Root? ==> r.bounds[l].end == w.counter
    ensures l in t.lists && config.SubList? ==>
              && r.bounds[l].end + 1 == r.counter
              && |r.slots| > 0 && r.slots[|r.slots| - 1] == FooterSlot(l, r.bounds[l].end)
    ensures l !in t.lists ==> r == w.(bounds := w.bounds[l := Bounds(w.counter, w.counter)])
    decreases RankOf(rank, l), 2, 0
  {
    var start := w.counter;
    if l !in t.lists then w.(bounds := w.bounds[l := Bounds(start, start)])
    else
      var items := t.lists[l];
      ContentsBelow(t, rank, l);
      var g := WalkItems(t, f, rank, items, |items|, RankOf(rank, l), w);
      match config
      case Root => g.(bounds := g.bounds[l := Bounds(start, start)])
      case SubList =>
        Register(g, FooterSlot(l, g.counter));
        Walk(g.counter + 1, g.bounds[l := Bounds(start, g.counter)], g.slots + [FooterSlot(l, g.counter)])
  }

  /** The item loop of `draw_list`, after the first `k` items. */
  function WalkItems(t: Tree, f: Flags, rank: map<ListId, nat>, items: seq<ItemId>, k: nat, r: nat, w: Walk)
    : (g: Walk)
    requires Ranked(t, rank) && ChildrenBelow(t, rank, items, r)
    requires k <= |items|
    ensures FooterCounted(w) ==> FooterCounted(g)
    ensures |w.slots| <= |g.slots| && g.slots[..|w.slots|] == w.slots
    ensures w.counter <= g.counter
    ensures forall m :: m in w.bounds ==> m in g.bounds
    decreases r, 1, k
  {
    if k == 0 then w
    else
      var h := WalkItems(t, f, rank, items, k - 1, r, w);
      var g := WalkItem(t, f, rank, items[k - 1], r, h);
      assert g.slots[..|w.slots|] == h.slots[..|w.slots|];
      g
  }

  /**
   * `draw_item`: an item with a child list is registered at the current position, which does
   * not move; its child list is walked unless the item is dragged or reported collapsed. An
   * item without a child list changes nothing.
   */
  function WalkItem(t: Tree, f: Flags, rank: map<ListId, nat>, y: ItemId, r: nat, w: Walk): (g: Walk)
    requires Ranked(t, rank)
    requires y in t.child ==> RankOf(rank, t.child[y]) < r
    ensures FooterCounted(w) ==> FooterCounted(g)
    ensures |w.slots| <= |g.slots| && g.slots[..|w.slots|] == w.slots
    ensures w.counter <= g.counter
    ensures forall m :: m in w.bounds ==> m in g.bounds
    ensures y !in t.child ==> g == w
    ensures y in t.child ==> |g.slots| > |w.slots| && g.slots[|w.slots|] == ItemSlot(y, w.counter)
    ensures y in t.child && !Open(f, y) ==> g == w.(slots := w.slots + [ItemSlot(y, w.counter)])
    ensures y in t.child && Open(f, y) ==> t.child[y] in g.bounds && g.bounds[t.child[y]].start == w.counter
    decreases r, 0, 0
  {
    if y !in t.child then w
    else
      var h := w.(slots := w.slots + [ItemSlot(y, w.counter)]);
      Register(w, ItemSlot(y, w.counter));
      if !Open(f, y) then h
      else
        var g := WalkList(t, f, rank, t.child[y], SubList, h);
        assert g.slots[..|w.slots|] == h.slots[..|w.slots|];
        g
  }

  /**
   * Every footer a walk of `l` registers belongs to `l` or to a list of lower rank; the root
   * list registers no footer of its own, so none of the footers it leaves in the log is `l`'s.
   */
  lemma {:induction false} WalkListFooters(t: Tree, f: Flags, rank: map<ListId, nat>, l: ListId, config: ListConfig, w: Walk)
    requires Ranked(t, rank)
    ensures FootersBelow(rank, WalkList(t, f, rank, l, config, w).slots, |w.slots|, RankOf(rank, l) + 1)
    ensures config.Root? ==>
              var r := WalkList(t, f, rank, l, config, w);
              forall i :: |w.slots| <= i < |r.slots| && r.slots[i].FooterSlot? ==> r.slots[i].list != l
    decreases RankOf(rank, l), 2, 0
  {
    if l in t.lists {
      var items := t.lists[l];
      ContentsBelow(t, rank, l);
      var g := WalkItems(t, f, rank, items, |items|, RankOf(rank, l), w);
      WalkItemsFooters(t, f, rank, items, |items|, RankOf(rank, l), w);
      if config.SubList? {
        FootersBelowJoin(rank, g.slots, g.slots + [FooterSlot(l, g.counter)], |w.slots|,
                         RankOf(rank, l), RankOf(rank, l) + 1, RankOf(rank, l) + 1);
      }
    }
  }

  /** The footers registered by the item loop belong to lists ranked below `r`. */
  lemma {:induction false} WalkItemsFooters(t: Tree, f: Flags, rank: map<ListId, nat>, items: seq<ItemId>, k: nat, r: nat, w: Walk)
    requires Ranked(t, rank) && ChildrenBelow(t, rank, items, r)
    requires k <= |items|
    ensures FootersBelow(rank, WalkItems(t, f, rank, items, k, r, w).slots, |w.slots|, r)
    decreases r, 1, k
  {
    if k > 0 {
      var h := WalkItems(t, f, rank, items, k - 1, r, w);
      WalkItemsFooters(t, f, rank, items, k - 1, r, w);
      WalkItemFooters(t, f, rank, items[k - 1], r, h);
      FootersBelowJoin(rank, h.slots, WalkItem(t, f, rank, items[k - 1], r, h).slots, |w.slots|, r, r, r);
    }
  }

  /** The footers registered below an item belong to its child list or to lists below it. */
  lemma {:induction false} WalkItemFooters(t: Tree, f: Flags, rank: map<ListId, nat>, y: ItemId, r: nat, w: Walk)
    requires Ranked(t, rank)
    requires y in t.child ==> RankOf(rank, t.child[y]) < r
    ensures FootersBelow(rank, WalkItem(t, f, rank, y, r, w).slots, |w.slots|, r)
    decreases r, 0, 0
  {
    if y in t.child {
      var h := w.(slots := w.slots + [ItemSlot(y, w.counter)]);
      assert FootersBelow(rank, h.slots, |w.slots|, 0);
      if Open(f, y) {
        var c := t.child[y];
        WalkListFooters(t, f, rank, c, SubList, h);
        FootersBelowJoin(rank, h.slots, WalkList(t, f, rank, c, SubList, h).slots, |w.slots|,
                         0, RankOf(rank, c) + 1, r);
      }
    }
  }

  lemma {:induction false} CountFootersAppend(a: seq<Slot>, b: seq<Slot>)
    ensures CountFooters(a + b) == CountFooters(a) + CountFooters(b)
    decreases |b|
  {
    if |b| == 0 {
      assert a + b == a;
    } else {
      CountFootersAppend(a, b[..|b| - 1]);
      assert (a + b)[..|a + b| - 1] == a + b[..|b| - 1];
    }
  }

  /** Two registrations in a row with no footer between them get the same drag position. */
  lemma {:induction false} ItemSharesNextPosition(counter: nat, slots: seq<Slot>, i: nat)
    requires Counted(counter, slots)
    requires i < |slots| && slots[i].ItemSlot?
    ensures i + 1 < |slots| ==> slots[i + 1].pos == slots[i].pos
    ensures i + 1 == |slots| ==> counter == slots[i].pos
  {
    assert slots[..i + 1][..i] == slots[..i];
    if i + 1 == |slots| {
      assert slots[..i + 1] == slots;
    }
  }

  lemma {:induction false} CountFootersPrefix(s: seq<Slot>, i: nat, j: nat)
    requires i <= j <= |s|
    ensures CountFooters(s[..i]) <= CountFooters(s[..j])
    ensures i < j && s[i].FooterSlot? ==> CountFooters(s[..i]) < CountFooters(s[..j])
    decreases j - i
  {
    if i < j {
      CountFootersPrefix(s, i, j - 1);
      assert s[..j][..j - 1] == s[..j - 1];
      if i == j - 1 {
        assert s[..j][j - 1] == s[i];
      }
    }
  }

  /** Footers are the only registrations that advance the position, so no two share one. */
  lemma FooterPositionsIncrease(counter: nat, slots: seq<Slot>, i: nat, j: nat)
    requires Counted(counter, slots)
    requires i < j < |slots| && slots[i].FooterSlot?
    ensures slots[i].pos < slots[j].pos
  {
    CountFootersPrefix(slots, i, j);
  }

  /** The shared state of `generic_list::ui`: the drag position, the bounds and the iterator. */
  class GenericUi {
    var dndIdx: nat
    var listBounds: map<ListId, Bounds>
    /** What has been registered with the engine's item iterator, in order. */
    var slots: seq<Slot>

    function Snapshot(): Walk
      reads this
    {
      Walk(dndIdx, listBounds, slots)
    }

    constructor ()
      ensures Snapshot() == Walk(0, map[], [])
    {
      dndIdx := 0;
      listBounds := map[];
      slots := [];
    }

    /**
     * `draw_list`, with the vertical item cache's `ui_list_contents`: the item and footer
     * callbacks run only when the list exists.
     */
    method DrawList(t: Tree, f: Flags, ghost rank: map<ListId, nat>, listId: ListId, config: ListConfig)
      requires Ranked(t, rank)
      modifies this
      ensures Snapshot() == WalkList(t, f, rank, listId, config, old(Snapshot()))
      decreases RankOf(rank, listId), 1
    {
      var start := dndIdx;
      var end := start;
      if listId in t.lists {
        var items := t.lists[listId];
        ContentsBelow(t, rank, listId);
        ghost var w0 := Snapshot();
        for i := 0 to |items|
          invariant Snapshot() == WalkItems(t, f, rank, items, i, RankOf(rank, listId), w0)
        {
          DrawItem(t, f, rank, items[i], RankOf(rank, listId));
        }
        match config {
          case Root =>
          case SubList =>
            slots := slots + [FooterSlot(listId, dndIdx)];
            end := dndIdx;
            dndIdx := dndIdx + 1;
        }
      }
      listBounds := listBounds[listId := Bounds(start, end)];
    }

    /** `draw_item`. */
    method DrawItem(t: Tree, f: Flags, ghost rank: map<ListId, nat>, itemId: ItemId, ghost r: nat)
      requires Ranked(t, rank)
      requires itemId in t.child ==> RankOf(rank, t.child[itemId]) < r
      modifies this
      ensures Snapshot() == WalkItem(t, f, rank, itemId, r, old(Snapshot()))
      decreases r, 0
    {
      if itemId in t.child {
        var listId := t.child[itemId];
        slots := slots + [ItemSlot(itemId, dndIdx)];
        var forceCollapsed := itemId in f.dragging;
        forceCollapsed := forceCollapsed || itemId in f.collapsed;
        if !forceCollapsed {
          DrawList(t, f, rank, listId, SubList);
        }
      }
    }
  }

  /**
   * `generic_list::ui`: a fresh walk of the root list. Every registration lands at the number
   * of footers before it, the root's bounds are `[0, 0]` and no footer is the root's.
   */
  method Ui(t: Tree, f: Flags, ghost rank: map<ListId, nat>, rootListId: ListId) returns (w: Walk)
    requires Ranked(t, rank)
    ensures w == WalkList(t, f, rank, rootListId, Root, Walk(0, map[], []))
    ensures w.counter == CountFooters(w.slots)
    ensures forall i :: 0 <= i < |w.slots| ==> w.slots[i].pos == CountFooters(w.slots[..i])
    ensures rootListId in w.bounds && w.bounds[rootListId] == Bounds(0, 0)
    ensures forall i :: 0 <= i < |w.slots| && w.slots[i].FooterSlot? ==> w.slots[i].list != rootListId
  {
    var state := new GenericUi();
    state.DrawList(t, f, rank, rootListId, Root);
    w := state.Snapshot();
    WalkListFooters(t, f, rank, rootListId, Root, Walk(0, map[], []));
  }
}
