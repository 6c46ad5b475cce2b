/**
 * `crates/dnd_custom/examples/vertical/item_cache.rs`: the store behind the generic-list demo.
 * Its `new_list` draws list ids and item ids from one shared counter, so every id it hands out
 * is distinct across both maps.
 */
module VerticalItemCache {
  import opened Options

  type ItemId = nat
  type ListId = nat

  datatype Item = Item(id: ItemId, title: string, children: ListId, uiCollapsed: bool)

  datatype ItemList = ItemList(id: ListId, sortedBy: string, data: seq<ItemId>)

  /** The three `&mut` arguments of `new_list`: the shared counter and both maps. */
  datatype Store = Store(nextId: nat, items: map<ItemId, Item>, lists: map<ListId, ItemList>)

  const PlaceholderTitle: string := "placeholder title"

  /** `new_list`: reserve the list id, build the items one after another, put the list in last. */
  function NewList(s: Store, depth: nat, listLen: nat): (r: (Store, ListId))
    ensures r.1 == s.nextId && r.0.nextId > s.nextId
    decreases depth, 1, 0
  {
    var s1 := s.(nextId := s.nextId + 1);
    var p := if depth > 0 then NewItems(s1, depth - 1, listLen, listLen) else (s1, []);
    (p.0.(lists := p.0.lists[s.nextId := ItemList(s.nextId, "", p.1)]), s.nextId)
  }

  /** The first `k` rounds of `new_list`'s `for` loop, each building a child list of depth `d`. */
  function NewItems(s: Store, d: nat, listLen: nat, k: nat): (r: (Store, seq<ItemId>))
    ensures |r.1| == k && r.0.nextId >= s.nextId + k
    decreases d + 1, 0, k
  {
    if k == 0 then (s, [])
    else
      var p := NewItems(s, d, listLen, k - 1);
      var y := p.0.nextId;
      var q := NewList(p.0.(nextId := y + 1), d, listLen);
      (q.0.(items := q.0.items[y := Item(y, PlaceholderTitle, q.1, false)]), p.1 + [y])
  }

  /** Every key lies below the counter, so the counter is a fresh id. */
  predicate Valid(s: Store)
  {
    && (forall y :: y in s.items ==> y < s.nextId)
    && (forall l :: l in s.lists ==> l < s.nextId)
  }

  /** Keys outside the ids drawn between `a` and `b` are untouched. */
  predicate Frames(a: Store, b: Store)
  {
    && a.nextId <= b.nextId
    && (forall l :: l in a.lists && (l < a.nextId || l >= b.nextId) ==> l in b.lists && b.lists[l] == a.lists[l])
    && (forall l :: l in b.lists && (l < a.nextId || l >= b.nextId) ==> l in a.lists)
    && (forall y :: y in a.items && (y < a.nextId || y >= b.nextId) ==> y in b.items && b.items[y] == a.items[y])
    && (forall y :: y in b.items && (y < a.nextId || y >= b.nextId) ==> y in a.items)
  }

  /**
   * Every id drawn between `a` and `b` became exactly one of an item or a list, keyed by its own
   * id; an item's child list and a list's entries were drawn in the same range and are present.
   */
  predicate Built(a: Store, b: Store)
  {
    BuiltKinds(a, b) && BuiltItems(a, b) && BuiltLists(a, b)
  }

  predicate BuiltKinds(a: Store, b: Store)
  {
    forall x :: a.nextId <= x < b.nextId ==> (x in b.items <==> x !in b.lists)
  }

  predicate BuiltItems(a: Store, b: Store)
  {
    forall y :: y in b.items && a.nextId <= y < b.nextId ==>
      b.items[y].id == y && a.nextId <= b.items[y].children < b.nextId && b.items[y].children in b.lists
  }

  predicate BuiltLists(a: Store, b: Store)
  {
    forall l :: l in b.lists && a.nextId <= l < b.nextId ==>
      b.lists[l].id == l
      && forall i :: 0 <= i < |b.lists[l].data| ==>
           a.nextId <= b.lists[l].data[i] < b.nextId && b.lists[l].data[i] in b.items
  }

  /** The entries' ids strictly increase, so no entry repeats. */
  predicate Increasing(s: seq<ItemId>)
  {
    forall i, j :: 0 <= i < j < |s| ==> s[i] < s[j]
  }

  /** What the loop built on top of `a`: the new store and the entries, all of them items. */
  predicate ItemsGrown(a: Store, r: (Store, seq<ItemId>))
  {
    && Frames(a, r.0) && Built(a, r.0) && Increasing(r.1)
    && forall i :: 0 <= i < |r.1| ==> a.nextId <= r.1[i] < r.0.nextId && r.1[i] in r.0.items
  }

  lemma GrowsValid(a: Store, b: Store)
    requires Valid(a) && Frames(a, b) && Built(a, b)
    ensures Valid(b)
  {
  }

  /**
   * `new_list` returns the counter's value on entry as a present list, empty at depth 0 and of
   * length `list_len` otherwise, whose entries are distinct items; every id drawn meanwhile is
   * built and nothing older is touched.
   */
  lemma {:induction false} NewListGrows(s: Store, depth: nat, listLen: nat)
    requires Valid(s)
    ensures var r := NewList(s, depth, listLen);
            && Frames(s, r.0) && Built(s, r.0)
            && r.1 in r.0.lists && |r.0.lists[r.1].data| == (if depth == 0 then 0 else listLen)
            && Increasing(r.0.lists[r.1].data)
    decreases depth, 1, 0
  {
    var s1 := s.(nextId := s.nextId + 1);
    if depth > 0 {
      var p := NewItems(s1, depth - 1, listLen, listLen);
      assert NewList(s, depth, listLen) == (p.0.(lists := p.0.lists[s.nextId := ItemList(s.nextId, "", p.1)]), s.nextId);
      NewItemsGrows(s1, depth - 1, listLen, listLen);
      CloseList(s, s1, p.0, p.1);
    } else {
      CloseList(s, s1, s1, []);
    }
  }

  /** Putting the reserved list in last keeps `Frames` and `Built`. */
  lemma CloseList(s: Store, s1: Store, s2: Store, data: seq<ItemId>)
    requires Valid(s)
    requires s1 == s.(nextId := s.nextId + 1)
    requires Frames(s1, s2) && Built(s1, s2)
    requires forall i :: 0 <= i < |data| ==> s1.nextId <= data[i] < s2.nextId && data[i] in s2.items
    ensures var b := s2.(lists := s2.lists[s.nextId := ItemList(s.nextId, "", data)]);
            Frames(s, b) && Built(s, b)
  {
  }

  /** `k` rounds of the loop build `k` fresh items, in increasing order, and touch nothing older. */
  lemma {:induction false} NewItemsGrows(s: Store, d: nat, listLen: nat, k: nat)
    requires Valid(s)
    ensures ItemsGrown(s, NewItems(s, d, listLen, k))
    decreases d + 1, 0, k
  {
    if k > 0 {
      var p := NewItems(s, d, listLen, k - 1);
      var y := p.0.nextId;
      var b1 := p.0.(nextId := y + 1);
      var q := NewList(b1, d, listLen);
      assert NewItems(s, d, listLen, k) == (q.0.(items := q.0.items[y := Item(y, PlaceholderTitle, q.1, false)]), p.1 + [y]);
      NewItemsGrows(s, d, listLen, k - 1);
      GrowsValid(s, p.0);
      NewListGrows(b1, d, listLen);
      StepGrows(s, p.0, b1, q.0, p.1, y, q.1);
    }
  }

  lemma FramesTrans(a: Store, b: Store, c: Store)
    requires Frames(a, b) && Frames(b, c)
    ensures Frames(a, c)
  {
  }

  /** Adding the loop's item `y`, drawn just before `c` was built from `b1`, keeps the invariants. */
  lemma StepGrows(a: Store, b: Store, b1: Store, c: Store, data: seq<ItemId>, y: ItemId, child: ListId)
    requires Valid(a) && ItemsGrown(a, (b, data))
    requires y == b.nextId && b1 == b.(nextId := y + 1)
    requires Frames(b1, c) && Built(b1, c) && child == b1.nextId && child in c.lists && c.nextId > child
    ensures ItemsGrown(a, (c.(items := c.items[y := Item(y, PlaceholderTitle, child, false)]), data + [y]))
  {
    GrowsValid(a, b);
    StepFrames(a, b, b1, c, y, child);
    StepBuilt(a, b, b1, c, y, child);
    assert Frames(b, c);
    StepEntries(a, b, c, data, y, child);
  }

  lemma StepFrames(a: Store, b: Store, b1: Store, c: Store, y: ItemId, child: ListId)
    requires Frames(a, b) && y == b.nextId && b1 == b.(nextId := y + 1) && Frames(b1, c)
    ensures Frames(a, c.(items := c.items[y := Item(y, PlaceholderTitle, child, false)]))
  {
    assert Frames(b, c);
    FramesTrans(a, b, c);
  }

  lemma StepEntries(a: Store, b: Store, c: Store, data: seq<ItemId>, y: ItemId, child: ListId)
    requires Increasing(data) && a.nextId <= b.nextId == y < c.nextId
    requires forall i :: 0 <= i < |data| ==> a.nextId <= data[i] < b.nextId && data[i] in b.items
    requires forall z :: z in b.items && z < b.nextId ==> z in c.items
    ensures var r := c.(items := c.items[y := Item(y, PlaceholderTitle, child, false)]);
            && Increasing(data + [y])
            && forall i :: 0 <= i < |data + [y]| ==> a.nextId <= (data + [y])[i] < r.nextId && (data + [y])[i] in r.items
  {
  }

  lemma StepBuilt(a: Store, b: Store, b1: Store, c: Store, y: ItemId, child: ListId)
    requires Valid(b) && Frames(a, b) && Built(a, b)
    requires y == b.nextId && b1 == b.(nextId := y + 1)
    requires Frames(b1, c) && Built(b1, c) && child == b1.nextId && child in c.lists && c.nextId > child
    ensures Built(a, c.(items := c.items[y := Item(y, PlaceholderTitle, child, false)]))
  {
    assert Frames(b, c);
    StepKinds(a, b, b1, c, y, child);
    StepItems(a, b, b1, c, y, child);
    StepLists(a, b, b1, c, y, child);
  }

  lemma StepKinds(a: Store, b: Store, b1: Store, c: Store, y: ItemId, child: ListId)
    requires Valid(b) && Frames(a, b) && BuiltKinds(a, b)
    requires y == b.nextId && b1 == b.(nextId := y + 1)
    requires Frames(b1, c) && BuiltKinds(b1, c)
    ensures BuiltKinds(a, c.(items := c.items[y := Item(y, PlaceholderTitle, child, false)]))
  {
    var r := c.(items := c.items[y := Item(y, PlaceholderTitle, child, false)]);
    forall x | a.nextId <= x < r.nextId
      ensures x in r.items <==> x !in r.lists
    {
      StepDisjoint(a, b, b1, c, y, child, x);
    }
  }

  lemma StepItems(a: Store, b: Store, b1: Store, c: Store, y: ItemId, child: ListId)
    requires Frames(a, b) && BuiltItems(a, b) && Frames(b, c)
    requires y == b.nextId && b1 == b.(nextId := y + 1) && BuiltItems(b1, c)
    requires child == b1.nextId && child in c.lists && c.nextId > child
    ensures BuiltItems(a, c.(items := c.items[y := Item(y, PlaceholderTitle, child, false)]))
  {
    var r := c.(items := c.items[y := Item(y, PlaceholderTitle, child, false)]);
    forall z | z in r.items && a.nextId <= z < r.nextId
      ensures r.items[z].id == z && a.nextId <= r.items[z].children < r.nextId && r.items[z].children in r.lists
    {
      if z < y {
        StepOldItem(a, b, c, z);
      }
    }
  }

  lemma StepLists(a: Store, b: Store, b1: Store, c: Store, y: ItemId, child: ListId)
    requires Valid(b) && Frames(a, b) && BuiltLists(a, b) && Frames(b, c)
    requires y == b.nextId && b1 == b.(nextId := y + 1) && Frames(b1, c) && BuiltLists(b1, c)
    ensures BuiltLists(a, c.(items := c.items[y := Item(y, PlaceholderTitle, child, false)]))
  {
    var r := c.(items := c.items[y := Item(y, PlaceholderTitle, child, false)]);
    forall l | l in r.lists && a.nextId <= l < r.nextId
      ensures r.lists[l].id == l
      ensures forall i :: 0 <= i < |r.lists[l].data| ==>
                a.nextId <= r.lists[l].data[i] < r.nextId && r.lists[l].data[i] in r.items
    {
      if l < b.nextId {
        StepOldList(a, b, c, l);
      }
    }
  }

  lemma StepDisjoint(a: Store, b: Store, b1: Store, c: Store, y: ItemId, child: ListId, x: nat)
    requires Valid(b) && Frames(a, b) && BuiltKinds(a, b)
    requires y == b.nextId && b1 == b.(nextId := y + 1)
    requires Frames(b1, c) && BuiltKinds(b1, c)
    requires a.nextId <= x < c.nextId
    ensures var r := c.(items := c.items[y := Item(y, PlaceholderTitle, child, false)]);
            x in r.items <==> x !in r.lists
  {
    if x < y {
      assert (x in b.items <==> x in c.items) && (x in b.lists <==> x in c.lists);
    } else if x == y {
      assert y !in c.lists;
    }
  }

  lemma StepOldItem(a: Store, b: Store, c: Store, z: ItemId)
    requires Frames(a, b) && BuiltItems(a, b) && Frames(b, c)
    requires z in b.items && a.nextId <= z < b.nextId
    ensures z in c.items && c.items[z] == b.items[z]
    ensures c.items[z].id == z && a.nextId <= c.items[z].children < b.nextId && c.items[z].children in c.lists
  {
  }

  lemma StepOldList(a: Store, b: Store, c: Store, l: ListId)
    requires Frames(a, b) && BuiltLists(a, b) && Frames(b, c)
    requires l in b.lists && a.nextId <= l < b.nextId
    ensures l in c.lists && c.lists[l] == b.lists[l] && c.lists[l].id == l
    ensures forall i :: 0 <= i < |c.lists[l].data| ==>
              a.nextId <= c.lists[l].data[i] < b.nextId && c.lists[l].data[i] in c.items
  {
  }

  /**
   * `new_list` with its three `&mut` arguments passed in and handed back: the shared counter
   * and the two maps.
   */
  method NewListInPlace(nextId: nat, items: map<ItemId, Item>, lists: map<ListId, ItemList>, depth: nat, listLen: nat)
    returns (listId: ListId, nextId': nat, items': map<ItemId, Item>, lists': map<ListId, ItemList>)
    ensures (Store(nextId', items', lists'), listId) == NewList(Store(nextId, items, lists), depth, listLen)
    decreases depth
  {
    nextId', items', lists' := nextId, items, lists;
    listId := nextId';
    nextId' := nextId' + 1;
    ghost var s1 := Store(nextId', items', lists');
    var data: seq<ItemId> := [];
    if depth > 0 {
      for i := 0 to listLen
        invariant (Store(nextId', items', lists'), data) == NewItems(s1, depth - 1, listLen, i)
      {
        var itemId := nextId';
        nextId' := nextId' + 1;
        var child;
        child, nextId', items', lists' := NewListInPlace(nextId', items', lists', depth - 1, listLen);
        items' := items'[itemId := Item(itemId, PlaceholderTitle, child, false)];
        data := data + [itemId];
      }
    }
    lists' := lists'[listId := ItemList(listId, "", data)];
  }

  class ItemCache {
    var items: map<ItemId, Item>
    var lists: map<ListId, ItemList>
    var rootListId: ListId

    /** `demo_new`: the demo tree built from empty maps, numbered from `next_id`. */
    constructor DemoNew(nextId: nat, depth: nat, listLen: nat)
      ensures var r := NewList(Store(nextId, map[], map[]), depth, listLen);
              items == r.0.items && lists == r.0.lists && rootListId == r.1
      ensures rootListId == nextId
    {
      var root, next, its, ls := NewListInPlace(nextId, map[], map[], depth, listLen);
      items := its;
      lists := ls;
      rootListId := root;
    }

    /** `get_child_list_id`. */
    function GetChildListId(itemId: ItemId): (r: Option<ListId>)
      reads this
      ensures r.Some? <==> itemId in items
      ensures r.Some? ==> r.value == items[itemId].children
    {
      if itemId in items then Some(items[itemId].children) else None
    }
  }

  /**
   * The store `demo_new` builds: the root is list `next_id`, of `list_len` entries unless `depth`
   * is 0; item keys and list keys are disjoint and all lie in `[next_id, counter)`; every entry
   * is a present item keyed by its own id whose child list is present.
   */
  lemma DemoNewShape(nextId: nat, depth: nat, listLen: nat)
    ensures var r := NewList(Store(nextId, map[], map[]), depth, listLen);
            && r.1 == nextId && r.1 in r.0.lists && |r.0.lists[r.1].data| == (if depth == 0 then 0 else listLen)
            && (forall x :: x in r.0.items ==> nextId <= x < r.0.nextId && x !in r.0.lists)
            && (forall x :: x in r.0.lists ==> nextId <= x < r.0.nextId)
            && (forall y :: y in r.0.items ==> r.0.items[y].id == y && r.0.items[y].children in r.0.lists)
            && (forall l, i :: l in r.0.lists && 0 <= i < |r.0.lists[l].data| ==> r.0.lists[l].data[i] in r.0.items)
  {
    NewListGrows(Store(nextId, map[], map[]), depth, listLen);
  }
}
