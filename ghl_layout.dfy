/**
 * What the walk of `crates/dnd_custom/src/ghl.rs` leaves behind on a forest: every list's
 * bounds enclose its items' positions and its open items' sub-lists, one after the other, with
 * its footer last. Proved by showing that walking a list only writes the keys of its subtree.
 */
module GhlLayout {
  import opened ListTree
  import opened GhlModel
  import opened GhlTree

  /** Two frames hold the same entry (or none) for `key`. */
  ghost predicate SameAt(w1: Frame, w2: Frame, key: Key)
  {
    match key
    case ListKey(l) => (l in w1.bounds <==> l in w2.bounds) && (l in w1.bounds ==> w1.bounds[l] == w2.bounds[l])
    case ItemKey(y) => (y in w1.states <==> y in w2.states) && (y in w1.states ==> w1.states[y] == w2.states[y])
  }

  ghost predicate Absent(w: Frame, key: Key)
  {
    match key
    case ListKey(l) => l !in w.bounds
    case ItemKey(y) => y !in w.states
  }

  /** `w2` differs from `w1` only inside `s`. */
  ghost predicate Outside(w1: Frame, w2: Frame, s: set<Key>)
  {
    forall key :: key !in s ==> SameAt(w1, w2, key)
  }

  ghost predicate Inside(w1: Frame, w2: Frame, s: set<Key>)
  {
    forall key :: key in s ==> SameAt(w1, w2, key)
  }

  /** No key of `s` has been written yet. */
  ghost predicate Fresh(w: Frame, s: set<Key>)
  {
    forall key :: key in s ==> Absent(w, key)
  }

  // ---------------------------------------------------------------------------------------------
  // The walk writes only below the list it walks

  lemma {:induction false} WalkListFrame(t: Tree, f: Flags, rank: map<ListId, nat>, l: ListId, config: ListConfig,
                                         w: Frame)
    requires Ranked(t, rank)
    ensures Outside(w, WalkList(t, f, rank, l, config, w), Under(t, rank, l))
    decreases RankOf(rank, l), 2, 0
  {
    ContentsBelow(t, rank, l);
    var items := Contents(t, l);
    WalkItemsFrame(t, f, rank, items, |items|, RankOf(rank, l), w);
  }

  lemma {:induction false} WalkItemsFrame(t: Tree, f: Flags, rank: map<ListId, nat>, items: seq<ItemId>, k: nat,
                                          r: nat, w: Frame)
    requires Ranked(t, rank) && ChildrenBelow(t, rank, items, r) && k <= |items|
    ensures Outside(w, WalkItems(t, f, rank, items, k, r, w), UnderItems(t, rank, items, k, r))
    decreases r, 1, k
  {
    if k > 0 {
      WalkItemsFrame(t, f, rank, items, k - 1, r, w);
      WalkItemFrame(t, f, rank, items[k - 1], r, WalkItems(t, f, rank, items, k - 1, r, w));
    }
  }

  lemma {:induction false} WalkItemFrame(t: Tree, f: Flags, rank: map<ListId, nat>, y: ItemId, r: nat, w: Frame)
    requires Ranked(t, rank) && (y in t.child ==> RankOf(rank, t.child[y]) < r)
    ensures Outside(w, WalkItem(t, f, rank, y, r, w), UnderItem(t, rank, y, r))
    decreases r, 0, 0
  {
    if y in t.child && Open(f, y) {
      var h := Frame(w.counter + 1, w.bounds,
                     w.states[y := ItemState(y in f.collapsed, w.counter, y in f.dragging)],
                     w.slots + [ItemSlot(y, w.counter)]);
      var g := WalkList(t, f, rank, t.child[y], SubList, h);
      assert WalkItem(t, f, rank, y, r, w) == g;
      WalkListFrame(t, f, rank, t.child[y], SubList, h);
      assert Outside(w, h, {ItemKey(y)});
      OutsideTrans(w, h, g, {ItemKey(y)}, Under(t, rank, t.child[y]));
    }
  }

  /** Two steps that each write only inside their set write only inside the union. */
  lemma OutsideTrans(w1: Frame, w2: Frame, w3: Frame, s1: set<Key>, s2: set<Key>)
    requires Outside(w1, w2, s1) && Outside(w2, w3, s2)
    ensures Outside(w1, w3, s1 + s2)
  {
    forall key | key !in s1 + s2
      ensures SameAt(w1, w3, key)
    {
      assert SameAt(w1, w2, key) && SameAt(w2, w3, key);
    }
  }

  /** An item never lies below its own child list, so walking that list keeps the item's entry. */
  lemma ItemNotUnderOwnChild(t: Tree, rank: map<ListId, nat>, y: ItemId)
    requires Ranked(t, rank) && y in t.child
    ensures ItemKey(y) !in Under(t, rank, t.child[y])
  {
    if ItemKey(y) in Under(t, rank, t.child[y]) {
      var x, k := ItemParent(t, rank, t.child[y], y);
      UnderRank(t, rank, t.child[y], x);
      assert false;
    }
  }

  /**
   * Whether open or not, an item with a child list ends its step with its own `item_states`
   * entry: its two flags and the position it was registered at.
   */
  lemma WalkItemOwnState(t: Tree, f: Flags, rank: map<ListId, nat>, y: ItemId, r: nat, w: Frame)
    requires Ranked(t, rank) && (y in t.child ==> RankOf(rank, t.child[y]) < r)
    ensures var g := WalkItem(t, f, rank, y, r, w);
            y in t.child ==>
              y in g.states && g.states[y] == ItemState(y in f.collapsed, w.counter, y in f.dragging)
  {
    if y in t.child && Open(f, y) {
      var h := Frame(w.counter + 1, w.bounds,
                     w.states[y := ItemState(y in f.collapsed, w.counter, y in f.dragging)],
                     w.slots + [ItemSlot(y, w.counter)]);
      WalkListFrame(t, f, rank, t.child[y], SubList, h);
      ItemNotUnderOwnChild(t, rank, y);
      assert SameAt(h, WalkList(t, f, rank, t.child[y], SubList, h), ItemKey(y));
    }
  }

  // ---------------------------------------------------------------------------------------------
  // The layout

  /** The position after item `k`: the next item's, or `end` after the last item. */
  ghost function NextPos(w: Frame, items: seq<ItemId>, k: nat, end: nat): nat
    requires k < |items|
  {
    if k + 1 < |items| && items[k + 1] in w.states then w.states[items[k + 1]].dndIdx else end
  }

  /**
   * Item `y` is laid out with the next position `next`: its state records its flags; an open
   * item's sub-list fills the positions strictly between the item and `next` and is laid out in
   * turn; a closed item's sub-list has no bounds and `next` directly follows the item.
   */
  ghost predicate ItemLaid(t: Tree, f: Flags, rank: map<ListId, nat>, w: Frame, y: ItemId, next: nat)
    requires Ranked(t, rank) && y in t.child
    decreases RankOf(rank, t.child[y]), 2
  {
    var c := t.child[y];
    && y in w.states && w.states[y].collapsed == (y in f.collapsed) && w.states[y].dragging == (y in f.dragging)
    && (Open(f, y) ==>
          && c in w.bounds && w.bounds[c].start == w.states[y].dndIdx + 1 && w.bounds[c].end + 1 == next
          && LaidOut(t, f, rank, w, c))
    && (!Open(f, y) ==> c !in w.bounds && next == w.states[y].dndIdx + 1)
  }

  /**
   * List `l` is laid out: it has bounds, its first item sits at the start (an empty list's
   * bounds are a single position), and every item is laid out up to the next item, the last
   * one up to the end of the bounds.
   */
  ghost predicate LaidOut(t: Tree, f: Flags, rank: map<ListId, nat>, w: Frame, l: ListId)
    requires Ranked(t, rank)
    decreases RankOf(rank, l), 1
  {
    ContentsBelow(t, rank, l);
    var items := Contents(t, l);
    && l in w.bounds
    && (forall k :: 0 <= k < |items| ==>
          items[k] in t.child && ItemLaid(t, f, rank, w, items[k], NextPos(w, items, k, w.bounds[l].end)))
    && (|items| == 0 ==> w.bounds[l].end == w.bounds[l].start)
    && (|items| > 0 ==> items[0] in w.states && w.states[items[0]].dndIdx == w.bounds[l].start)
  }

  /** Being laid out depends only on the entries of the list's subtree. */
  lemma {:induction false} LaidOutFrame(t: Tree, f: Flags, rank: map<ListId, nat>, w1: Frame, w2: Frame, l: ListId)
    requires Ranked(t, rank) && Inside(w1, w2, Under(t, rank, l)) && LaidOut(t, f, rank, w1, l)
    ensures LaidOut(t, f, rank, w2, l)
    decreases RankOf(rank, l), 1
  {
    ContentsBelow(t, rank, l);
    var items := Contents(t, l);
    assert SameAt(w1, w2, ListKey(l));
    forall k | 0 <= k < |items|
      ensures items[k] in t.child && ItemLaid(t, f, rank, w2, items[k], NextPos(w2, items, k, w2.bounds[l].end))
    {
      assert l in t.lists;
      UnderChild(t, rank, l, k);
      if k + 1 < |items| {
        UnderChild(t, rank, l, k + 1);
        assert SameAt(w1, w2, ItemKey(items[k + 1]));
      }
      assert NextPos(w2, items, k, w2.bounds[l].end) == NextPos(w1, items, k, w1.bounds[l].end);
      ItemLaidFrame(t, f, rank, w1, w2, l, k, NextPos(w1, items, k, w1.bounds[l].end));
    }
    if |items| > 0 {
      assert l in t.lists;
      UnderChild(t, rank, l, 0);
      assert SameAt(w1, w2, ItemKey(items[0]));
    }
  }

  lemma {:induction false} ItemLaidFrame(t: Tree, f: Flags, rank: map<ListId, nat>, w1: Frame, w2: Frame,
                                         l: ListId, k: nat, next: nat)
    requires Ranked(t, rank) && l in t.lists && k < |t.lists[l]| && t.lists[l][k] in t.child
    requires Inside(w1, w2, UnderItem(t, rank, t.lists[l][k], RankOf(rank, l)))
    requires ItemLaid(t, f, rank, w1, t.lists[l][k], next)
    ensures ItemLaid(t, f, rank, w2, t.lists[l][k], next)
    decreases RankOf(rank, t.child[t.lists[l][k]]), 2
  {
    var y := t.lists[l][k];
    var c := t.child[y];
    assert SameAt(w1, w2, ItemKey(y));
    assert ListKey(c) in Under(t, rank, c);
    assert SameAt(w1, w2, ListKey(c));
    if Open(f, y) {
      LaidOutFrame(t, f, rank, w1, w2, c);
    }
  }

  // ---------------------------------------------------------------------------------------------
  // The walk lays out a forest

  /** Walking a list whose subtree is still unwritten lays it out. */
  lemma {:induction false} WalkListLaid(t: Tree, f: Flags, rank: map<ListId, nat>, l: ListId, config: ListConfig,
                                        w: Frame)
    requires Ranked(t, rank) && Forest(t) && Fresh(w, Under(t, rank, l))
    ensures LaidOut(t, f, rank, WalkList(t, f, rank, l, config, w), l)
    decreases RankOf(rank, l), 1, 0
  {
    ContentsBelow(t, rank, l);
    var items := Contents(t, l);
    var g := WalkItems(t, f, rank, items, |items|, RankOf(rank, l), w);
    if l in t.lists {
      WalkItemsLaid(t, f, rank, l, |items|, w);
      CloseListLaid(t, f, rank, l, w, g, WalkList(t, f, rank, l, config, w));
    }
  }

  /** Giving a list whose items are laid out its bounds lays the list out. */
  lemma CloseListLaid(t: Tree, f: Flags, rank: map<ListId, nat>, l: ListId, w: Frame, g: Frame, r: Frame)
    requires Ranked(t, rank) && l in t.lists
    requires var items := t.lists[l];
             && (forall m :: 0 <= m < |items| ==>
                   items[m] in t.child && ItemLaid(t, f, rank, g, items[m], NextPos(g, items, m, g.counter)))
             && (|items| > 0 ==> items[0] in g.states && g.states[items[0]].dndIdx == w.counter)
             && (|items| == 0 ==> g.counter == w.counter)
    requires r.bounds == g.bounds[l := Bounds(w.counter, g.counter)] && r.states == g.states
    ensures LaidOut(t, f, rank, r, l)
  {
    var items := t.lists[l];
    ContentsBelow(t, rank, l);
    forall k | 0 <= k < |items|
      ensures items[k] in t.child && ItemLaid(t, f, rank, r, items[k], NextPos(r, items, k, r.bounds[l].end))
    {
      CloseItemLaid(t, f, rank, l, k, g, r);
    }
    assert l in r.bounds;
  }

  lemma CloseItemLaid(t: Tree, f: Flags, rank: map<ListId, nat>, l: ListId, k: nat, g: Frame, r: Frame)
    requires Ranked(t, rank) && l in t.lists && k < |t.lists[l]| && t.lists[l][k] in t.child
    requires ItemLaid(t, f, rank, g, t.lists[l][k], NextPos(g, t.lists[l], k, g.counter))
    requires l in r.bounds && r.bounds == g.bounds[l := r.bounds[l]] && r.states == g.states
    ensures ItemLaid(t, f, rank, r, t.lists[l][k], NextPos(r, t.lists[l], k, g.counter))
  {
    ParentNotBelowChild(t, rank, l, k);
    assert Inside(g, r, UnderItem(t, rank, t.lists[l][k], RankOf(rank, l)));
    ItemLaidFrame(t, f, rank, g, r, l, k, NextPos(g, t.lists[l], k, g.counter));
  }

  /**
   * The item loop of a list whose subtree is still unwritten: after `k` items, each of them is
   * laid out with the current counter standing in for the position after the last one.
   */
  lemma {:induction false} WalkItemsLaid(t: Tree, f: Flags, rank: map<ListId, nat>, l: ListId, k: nat, w: Frame)
    requires Ranked(t, rank) && Forest(t) && l in t.lists && k <= |t.lists[l]| && Fresh(w, Under(t, rank, l))
    ensures ChildrenBelow(t, rank, t.lists[l], RankOf(rank, l))
    ensures var items := t.lists[l];
            var g := WalkItems(t, f, rank, items, k, RankOf(rank, l), w);
            && (forall m :: 0 <= m < k ==>
                  items[m] in t.child && ItemLaid(t, f, rank, g, items[m], NextPos(g, items, m, g.counter)))
            && (k > 0 ==> items[0] in g.states && g.states[items[0]].dndIdx == w.counter)
    decreases RankOf(rank, l), 0, k
  {
    ContentsBelow(t, rank, l);
    if k > 0 {
      var items := t.lists[l];
      var r := RankOf(rank, l);
      var h := WalkItems(t, f, rank, items, k - 1, r, w);
      var g := WalkItem(t, f, rank, items[k - 1], r, h);
      WalkItemsLaid(t, f, rank, l, k - 1, w);
      WalkItemsFrame(t, f, rank, items, k - 1, r, w);
      WalkItemFrame(t, f, rank, items[k - 1], r, h);
      StepFresh(t, rank, l, k - 1, w, h);
      WalkItemLaid(t, f, rank, l, k - 1, w, h);
      forall m | 0 <= m < k - 1
        ensures items[m] in t.child && ItemLaid(t, f, rank, g, items[m], NextPos(g, items, m, g.counter))
      {
        SiblingsDisjoint(t, rank, l, m, k - 1);
        assert Inside(h, g, UnderItem(t, rank, items[m], r));
        if m + 1 < k - 1 {
          SiblingsDisjoint(t, rank, l, m + 1, k - 1);
          assert SameAt(h, g, ItemKey(items[m + 1]));
        }
        assert NextPos(g, items, m, g.counter) == NextPos(h, items, m, h.counter);
        ItemLaidFrame(t, f, rank, h, g, l, m, NextPos(h, items, m, h.counter));
      }
      if k - 1 > 0 {
        SiblingsDisjoint(t, rank, l, 0, k - 1);
        assert SameAt(h, g, ItemKey(items[0]));
      }
    }
  }

  /**
   * Before item `k` is walked, its key and its sub-list's subtree are still unwritten, and so is
   * the key of the item after it.
   */
  lemma StepFresh(t: Tree, rank: map<ListId, nat>, l: ListId, k: nat, w: Frame, h: Frame)
    requires Ranked(t, rank) && Forest(t) && l in t.lists && k < |t.lists[l]| && Fresh(w, Under(t, rank, l))
    requires ChildrenBelow(t, rank, t.lists[l], RankOf(rank, l))
    requires Outside(w, h, UnderItems(t, rank, t.lists[l], k, RankOf(rank, l)))
    ensures Fresh(h, UnderItem(t, rank, t.lists[l][k], RankOf(rank, l)))
  {
    var items := t.lists[l];
    var r := RankOf(rank, l);
    UnderChild(t, rank, l, k);
    forall key | key in UnderItem(t, rank, items[k], r)
      ensures Absent(h, key)
    {
      if key in UnderItems(t, rank, items, k, r) {
        var m := UnderItemsMember(t, rank, items, k, r, key);
        SiblingsDisjoint(t, rank, l, m, k);
      }
      assert SameAt(w, h, key);
    }
  }

  /** After item `k` is walked, the item after it still has no `item_states` entry. */
  lemma NextItemUnwritten(t: Tree, f: Flags, rank: map<ListId, nat>, l: ListId, k: nat, w: Frame, h: Frame)
    requires Ranked(t, rank) && Forest(t) && l in t.lists && k + 1 < |t.lists[l]| && Fresh(w, Under(t, rank, l))
    requires ChildrenBelow(t, rank, t.lists[l], RankOf(rank, l))
    requires Outside(w, h, UnderItems(t, rank, t.lists[l], k, RankOf(rank, l)))
    ensures t.lists[l][k + 1] !in WalkItem(t, f, rank, t.lists[l][k], RankOf(rank, l), h).states
  {
    var items := t.lists[l];
    var r := RankOf(rank, l);
    WalkItemFrame(t, f, rank, items[k], r, h);
    // The next item is neither below this one nor walked yet.
    UnderChild(t, rank, l, k + 1);
    assert ItemKey(items[k + 1]) in Under(t, rank, l);
    if ItemKey(items[k + 1]) in UnderItems(t, rank, items, k + 1, r) {
      var m := UnderItemsMember(t, rank, items, k + 1, r, ItemKey(items[k + 1]));
      if m != k + 1 {
        SiblingsDisjoint(t, rank, l, m, k + 1);
      }
    }
    assert SameAt(w, h, ItemKey(items[k + 1]));
    assert SameAt(h, WalkItem(t, f, rank, items[k], r, h), ItemKey(items[k + 1]));
  }

  /** Walking item `k` of a list with an unwritten subtree lays it out. */
  lemma WalkItemLaid(t: Tree, f: Flags, rank: map<ListId, nat>, l: ListId, k: nat, w: Frame, h: Frame)
    requires Ranked(t, rank) && Forest(t) && l in t.lists && k < |t.lists[l]| && Fresh(w, Under(t, rank, l))
    requires ChildrenBelow(t, rank, t.lists[l], RankOf(rank, l))
    requires Fresh(h, UnderItem(t, rank, t.lists[l][k], RankOf(rank, l)))
    requires Outside(w, h, UnderItems(t, rank, t.lists[l], k, RankOf(rank, l)))
    ensures var items := t.lists[l];
            var g := WalkItem(t, f, rank, items[k], RankOf(rank, l), h);
            && items[k] in t.child && ItemLaid(t, f, rank, g, items[k], NextPos(g, items, k, g.counter))
            && items[k] in g.states && g.states[items[k]].dndIdx == h.counter
            && (k > 0 ==> NextPos(g, items, k - 1, g.counter) == h.counter)
    decreases RankOf(rank, l), 0, 0
  {
    var items := t.lists[l];
    var r := RankOf(rank, l);
    var y := items[k];
    var c := t.child[y];
    WalkItemFrame(t, f, rank, y, r, h);
    WalkItemOwnState(t, f, rank, y, r, h);
    if k + 1 < |items| {
      NextItemUnwritten(t, f, rank, l, k, w, h);
    }
    assert ItemKey(y) in UnderItem(t, rank, y, r);
    assert ListKey(c) in Under(t, rank, c);
    assert c !in h.bounds;
    if Open(f, y) {
      OpenItemLaid(t, f, rank, y, r, h);
    }
  }

  /** Walking an open item whose subtree is unwritten lays out its child list. */
  lemma OpenItemLaid(t: Tree, f: Flags, rank: map<ListId, nat>, y: ItemId, r: nat, h: Frame)
    requires Ranked(t, rank) && Forest(t) && y in t.child && RankOf(rank, t.child[y]) < r && Open(f, y)
    requires Fresh(h, UnderItem(t, rank, y, r))
    ensures LaidOut(t, f, rank, WalkItem(t, f, rank, y, r, h), t.child[y])
    decreases RankOf(rank, t.child[y]), 2
  {
    var c := t.child[y];
    var h' := Frame(h.counter + 1, h.bounds,
                    h.states[y := ItemState(y in f.collapsed, h.counter, y in f.dragging)],
                    h.slots + [ItemSlot(y, h.counter)]);
    ItemNotUnderOwnChild(t, rank, y);
    assert Fresh(h', Under(t, rank, c));
    WalkListLaid(t, f, rank, c, SubList, h');
  }

  /** On a forest, the walk `ghl::ui` performs lays out the whole tree from the root. */
  lemma DrawRootLaid(t: Tree, f: Flags, rank: map<ListId, nat>, root: ListId)
    requires Ranked(t, rank) && Forest(t)
    ensures LaidOut(t, f, rank, DrawRoot(t, f, rank, root), root)
  {
    WalkListLaid(t, f, rank, root, Root, EmptyFrame());
  }
}
