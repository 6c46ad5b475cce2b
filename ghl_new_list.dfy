/**
 * `new_list` in `crates/dnd_custom/examples/ghl_vertical/item_cache.rs`: the demo generator that
 * builds a list of `list_len` items, each with a freshly built child list one level shallower,
 * drawing list ids and item ids from two separate counters.
 */
module GhlNewList {
  import opened ListTree
  import opened GhlItemCache

  const PlaceholderTitle: string := "placeholder title"

  /**
   * `new_list(depth, list_len)` on the store `a`: the list id is reserved first, the items are
   * built one after another, and the list goes in last.
   */
  function NewList(a: Arena, depth: nat, listLen: nat): (r: (Arena, ListId))
    ensures r.1 == a.nextListId && r.0.nextListId > a.nextListId && r.0.nextItemId >= a.nextItemId
    decreases depth, 1, 0
  {
    var a1 := a.(nextListId := a.nextListId + 1);
    var p := if depth > 0 then NewItems(a1, depth - 1, listLen, listLen) else (a1, []);
    (p.0.(lists := p.0.lists[a.nextListId := ItemList(a.nextListId, "", p.1, false)]), a.nextListId)
  }

  /** The first `k` rounds of `new_list`'s `for` loop, each building a child list of depth `d`. */
  function NewItems(a: Arena, d: nat, listLen: nat, k: nat): (r: (Arena, seq<ItemId>))
    ensures |r.1| == k && r.0.nextListId >= a.nextListId && r.0.nextItemId >= a.nextItemId + k
    decreases d + 1, 0, k
  {
    if k == 0 then (a, [])
    else
      var p := NewItems(a, d, listLen, k - 1);
      var y := p.0.nextItemId;
      var q := NewList(p.0.(nextItemId := y + 1), d, listLen);
      (q.0.(items := q.0.items[y := Item(y, PlaceholderTitle, q.1, false)]), p.1 + [y])
  }

  /** Keys outside the ranges of ids drawn between `a` and `b` are untouched. */
  predicate Frames(a: Arena, b: Arena)
  {
    && a.nextItemId <= b.nextItemId && a.nextListId <= b.nextListId
    && (forall l :: l in a.lists && (l < a.nextListId || l >= b.nextListId) ==>
          l in b.lists && b.lists[l] == a.lists[l])
    && (forall l :: l in b.lists && (l < a.nextListId || l >= b.nextListId) ==> l in a.lists)
    && (forall y :: y in a.items && (y < a.nextItemId || y >= b.nextItemId) ==>
          y in b.items && b.items[y] == a.items[y])
    && (forall y :: y in b.items && (y < a.nextItemId || y >= b.nextItemId) ==> y in a.items)
  }

  /**
   * Every id drawn between `a` and `b` is present in `b`: an item keyed by its own id whose child
   * list was drawn in the same range, and a list keyed by its own id whose entries were too.
   */
  predicate Built(a: Arena, b: Arena)
  {
    && (forall y :: a.nextItemId <= y < b.nextItemId ==>
          y in b.items && b.items[y].id == y && a.nextListId <= b.items[y].children < b.nextListId)
    && (forall l :: a.nextListId <= l < b.nextListId ==>
          l in b.lists && b.lists[l].id == l
          && forall i :: 0 <= i < |b.lists[l].data| ==> a.nextItemId <= b.lists[l].data[i] < b.nextItemId)
  }

  /**
   * `new_list` returns the list counter's value on entry; that list is present, empty at depth 0
   * and of length `list_len` otherwise, its entries are fresh distinct item ids in increasing
   * order, every id drawn meanwhile is built, and nothing older is touched.
   */
  lemma {:induction false} NewListGrows(a: Arena, depth: nat, listLen: nat)
    ensures var r := NewList(a, depth, listLen);
            && Frames(a, r.0) && Built(a, r.0)
            && r.1 in r.0.lists && |r.0.lists[r.1].data| == (if depth == 0 then 0 else listLen)
            && Increasing(r.0.lists[r.1].data)
    decreases depth, 1, 0
  {
    var a1 := a.(nextListId := a.nextListId + 1);
    if depth > 0 {
      NewItemsGrows(a1, depth - 1, listLen, listLen);
      var r := NewItems(a1, depth - 1, listLen, listLen);
      CloseList(a, a1, r.0, r.1);
      assert NewList(a, depth, listLen) == (r.0.(lists := r.0.lists[a.nextListId := ItemList(a.nextListId, "", r.1, false)]), a.nextListId);
    } else {
      CloseList(a, a1, a1, []);
    }
  }

  /** Putting the reserved list in last keeps `Frames` and `Built`. */
  lemma CloseList(a: Arena, a1: Arena, a2: Arena, data: seq<ItemId>)
    requires a1 == a.(nextListId := a.nextListId + 1)
    requires Frames(a1, a2) && Built(a1, a2)
    requires forall i :: 0 <= i < |data| ==> a1.nextItemId <= data[i] < a2.nextItemId
    ensures var b := a2.(lists := a2.lists[a.nextListId := ItemList(a.nextListId, "", data, false)]);
            Frames(a, b) && Built(a, b)
  {
  }

  /** The entries' ids strictly increase, so no entry repeats. */
  predicate Increasing(s: seq<ItemId>)
  {
    forall i, j :: 0 <= i < j < |s| ==> s[i] < s[j]
  }

  /** What the loop built, on top of `a`: the new store and the entries. */
  predicate ItemsGrown(a: Arena, r: (Arena, seq<ItemId>))
  {
    && Frames(a, r.0) && Built(a, r.0) && Increasing(r.1)
    && forall i :: 0 <= i < |r.1| ==> a.nextItemId <= r.1[i] < r.0.nextItemId
  }

  /** `k` rounds of the loop build `k` fresh items, in increasing order, and touch nothing older. */
  lemma {:induction false} NewItemsGrows(a: Arena, d: nat, listLen: nat, k: nat)
    ensures ItemsGrown(a, NewItems(a, d, listLen, k))
    decreases d + 1, 0, k
  {
    if k > 0 {
      var p := NewItems(a, d, listLen, k - 1);
      var y := p.0.nextItemId;
      var b1 := p.0.(nextItemId := y + 1);
      var q := NewList(b1, d, listLen);
      assert NewItems(a, d, listLen, k) == (q.0.(items := q.0.items[y := Item(y, PlaceholderTitle, q.1, false)]), p.1 + [y]);
      NewItemsGrows(a, d, listLen, k - 1);
      NewListGrows(b1, d, listLen);
      StepGrows(a, p.0, b1, q.0, p.1, y, q.1);
    }
  }

  lemma FramesTrans(a: Arena, b: Arena, c: Arena)
    requires Frames(a, b) && Frames(b, c)
    ensures Frames(a, c)
  {
  }

  /** Adding the loop's item `y`, drawn just before `c` was built from `b1`, keeps the invariants. */
  lemma StepGrows(a: Arena, b: Arena, b1: Arena, c: Arena, data: seq<ItemId>, y: ItemId, child: ListId)
    requires ItemsGrown(a, (b, data))
    requires y == b.nextItemId && b1 == b.(nextItemId := y + 1)
    requires Frames(b1, c) && Built(b1, c) && child == b1.nextListId && c.nextListId > child
    ensures ItemsGrown(a, (c.(items := c.items[y := Item(y, PlaceholderTitle, child, false)]), data + [y]))
  {
    assert Frames(b, c);
    FramesTrans(a, b, c);
    var r := c.(items := c.items[y := Item(y, PlaceholderTitle, child, false)]);
    assert Frames(a, r);
    StepBuilt(a, b, b1, c, y, child);
  }

  lemma StepBuilt(a: Arena, b: Arena, b1: Arena, c: Arena, y: ItemId, child: ListId)
    requires Frames(a, b) && Built(a, b)
    requires y == b.nextItemId && b1 == b.(nextItemId := y + 1)
    requires Frames(b1, c) && Built(b1, c) && child == b1.nextListId && c.nextListId > child
    ensures Built(a, c.(items := c.items[y := Item(y, PlaceholderTitle, child, false)]))
  {
    StepBuiltItems(a, b, b1, c, y, child);
    StepBuiltLists(a, b, b1, c, y, child);
  }

  /** The item half of `StepBuilt`: older items are kept, `y` is the new one. */
  lemma StepBuiltItems(a: Arena, b: Arena, b1: Arena, c: Arena, y: ItemId, child: ListId)
    requires Frames(a, b) && Built(a, b)
    requires y == b.nextItemId && b1 == b.(nextItemId := y + 1)
    requires Frames(b1, c) && Built(b1, c) && child == b1.nextListId && c.nextListId > child
    ensures var r := c.(items := c.items[y := Item(y, PlaceholderTitle, child, false)]);
            forall z :: a.nextItemId <= z < r.nextItemId ==>
              z in r.items && r.items[z].id == z && a.nextListId <= r.items[z].children < r.nextListId
  {
    var r := c.(items := c.items[y := Item(y, PlaceholderTitle, child, false)]);
    forall z | a.nextItemId <= z < r.nextItemId
      ensures z in r.items && r.items[z].id == z && a.nextListId <= r.items[z].children < r.nextListId
    {
      if z < y {
        assert z in b.items && b.items[z] == c.items[z];
      }
    }
  }

  /** The list half of `StepBuilt`: older lists are kept, and the new ones hold fresh entries. */
  lemma StepBuiltLists(a: Arena, b: Arena, b1: Arena, c: Arena, y: ItemId, child: ListId)
    requires Frames(a, b) && Built(a, b)
    requires y == b.nextItemId && b1 == b.(nextItemId := y + 1)
    requires Frames(b1, c) && Built(b1, c) && child == b1.nextListId && c.nextListId > child
    ensures var r := c.(items := c.items[y := Item(y, PlaceholderTitle, child, false)]);
            forall l :: a.nextListId <= l < r.nextListId ==>
              l in r.lists && r.lists[l].id == l
              && forall i :: 0 <= i < |r.lists[l].data| ==> a.nextItemId <= r.lists[l].data[i] < r.nextItemId
  {
    var r := c.(items := c.items[y := Item(y, PlaceholderTitle, child, false)]);
    forall l | a.nextListId <= l < r.nextListId
      ensures l in r.lists && r.lists[l].id == l
      ensures forall i :: 0 <= i < |r.lists[l].data| ==> a.nextItemId <= r.lists[l].data[i] < r.nextItemId
    {
      if l < b.nextListId {
        assert l in b.lists && b.lists[l] == c.lists[l];
      }
    }
  }

  /** Growing keeps the counters fresh. */
  lemma GrowsValid(a: Arena, b: Arena)
    requires Valid(a) && Frames(a, b) && Built(a, b)
    ensures Valid(b)
  {
  }

  /** `new_list` keeps the counters fresh. */
  lemma NewListValid(a: Arena, depth: nat, listLen: nat)
    requires Valid(a)
    ensures Valid(NewList(a, depth, listLen).0)
  {
    NewListGrows(a, depth, listLen);
    GrowsValid(a, NewList(a, depth, listLen).0);
  }

  /**
   * `demo_new`'s store: the root list is list 0, it has `list_len` entries unless `depth` is 0,
   * the counters are fresh, and every entry of every list is a present item whose child list is
   * present too.
   */
  lemma DemoNewShape(depth: nat, listLen: nat)
    ensures var r := NewList(Arena(map[], 0, map[], 0), depth, listLen);
            && r.1 == 0 && 0 in r.0.lists && |r.0.lists[0].data| == (if depth == 0 then 0 else listLen)
            && Valid(r.0)
            && (forall l, i :: l in r.0.lists && 0 <= i < |r.0.lists[l].data| ==>
                  r.0.lists[l].data[i] in r.0.items && r.0.items[r.0.lists[l].data[i]].children in r.0.lists)
  {
    var e := Arena(map[], 0, map[], 0);
    NewListGrows(e, depth, listLen);
    NewListValid(e, depth, listLen);
  }
}
