/**
 * Subtrees of a hierarchical list, for the properties of the walk in
 * `crates/dnd_custom/src/ghl.rs`: which list and item keys lie below a list, and why the
 * subtrees of two siblings cannot overlap when every list has at most one parent item.
 */
module GhlTree {
  import opened ListTree

  /** A key of one of the walk's two maps: `list_bounds` or `item_states`. */
  datatype Key = ListKey(l: ListId) | ItemKey(y: ItemId)

  /** The keys of list `l` and of everything below it, whatever the flags. */
  ghost function Under(t: Tree, rank: map<ListId, nat>, l: ListId): set<Key>
    requires Ranked(t, rank)
    decreases RankOf(rank, l), 1, 0
  {
    ContentsBelow(t, rank, l);
    {ListKey(l)} + UnderItems(t, rank, Contents(t, l), |Contents(t, l)|, RankOf(rank, l))
  }

  /** The keys of the first `k` items of `items` and of everything below them. */
  ghost function UnderItems(t: Tree, rank: map<ListId, nat>, items: seq<ItemId>, k: nat, r: nat): set<Key>
    requires Ranked(t, rank) && ChildrenBelow(t, rank, items, r) && k <= |items|
    decreases r, 0, k
  {
    if k == 0 then {}
    else UnderItems(t, rank, items, k - 1, r) + UnderItem(t, rank, items[k - 1], r)
  }

  /** An item's own key and its child list's subtree. */
  ghost function UnderItem(t: Tree, rank: map<ListId, nat>, y: ItemId, r: nat): set<Key>
    requires Ranked(t, rank) && (y in t.child ==> RankOf(rank, t.child[y]) < r)
    decreases r, 0, 0
  {
    {ItemKey(y)} + (if y in t.child then Under(t, rank, t.child[y]) else {})
  }

  /**
   * The tree shape the walk's bookkeeping relies on: every item has a child list, and no two
   * occurrences of items in lists share a child list (so no item occurs twice and no list has
   * two parents).
   */
  ghost predicate Forest(t: Tree)
  {
    && (forall l, i :: l in t.lists && 0 <= i < |t.lists[l]| ==> t.lists[l][i] in t.child)
    && (forall l1, i1, l2, i2 ::
          l1 in t.lists && l2 in t.lists && 0 <= i1 < |t.lists[l1]| && 0 <= i2 < |t.lists[l2]|
          && t.lists[l1][i1] in t.child && t.lists[l2][i2] in t.child
          && t.child[t.lists[l1][i1]] == t.child[t.lists[l2][i2]]
          ==> l1 == l2 && i1 == i2)
  }

  lemma ItemsOnce(t: Tree, l1: ListId, i1: nat, l2: ListId, i2: nat)
    requires Forest(t)
    requires l1 in t.lists && l2 in t.lists && i1 < |t.lists[l1]| && i2 < |t.lists[l2]|
    requires t.lists[l1][i1] == t.lists[l2][i2]
    ensures l1 == l2 && i1 == i2
  {
    assert t.lists[l1][i1] in t.child;
  }

  /** Membership in `UnderItems` names the item it comes from. */
  lemma UnderItemsMember(t: Tree, rank: map<ListId, nat>, items: seq<ItemId>, k: nat, r: nat, key: Key)
    returns (m: nat)
    requires Ranked(t, rank) && ChildrenBelow(t, rank, items, r) && k <= |items|
    requires key in UnderItems(t, rank, items, k, r)
    ensures m < k && key in UnderItem(t, rank, items[m], r)
    decreases k
  {
    if key in UnderItem(t, rank, items[k - 1], r) {
      m := k - 1;
    } else {
      m := UnderItemsMember(t, rank, items, k - 1, r, key);
    }
  }

  lemma {:induction false} UnderItemsIncludes(t: Tree, rank: map<ListId, nat>, items: seq<ItemId>, k: nat, r: nat,
                                              m: nat)
    requires Ranked(t, rank) && ChildrenBelow(t, rank, items, r) && m < k <= |items|
    ensures UnderItem(t, rank, items[m], r) <= UnderItems(t, rank, items, k, r)
    decreases k
  {
    if m < k - 1 {
      UnderItemsIncludes(t, rank, items, k - 1, r, m);
    }
  }

  /** The subtree of an item's child list lies inside the subtree of the item's list. */
  lemma UnderChild(t: Tree, rank: map<ListId, nat>, l: ListId, k: nat)
    requires Ranked(t, rank) && l in t.lists && k < |t.lists[l]|
    ensures ItemKey(t.lists[l][k]) in Under(t, rank, l)
    ensures t.lists[l][k] in t.child ==> Under(t, rank, t.child[t.lists[l][k]]) <= Under(t, rank, l)
  {
    ContentsBelow(t, rank, l);
    UnderItemsIncludes(t, rank, t.lists[l], |t.lists[l]|, RankOf(rank, l), k);
  }

  /** Every list below `l` ranks at most as high as `l`, and strictly lower unless it is `l`. */
  lemma {:induction false} UnderRank(t: Tree, rank: map<ListId, nat>, l: ListId, m: ListId)
    requires Ranked(t, rank) && ListKey(m) in Under(t, rank, l)
    ensures m == l || RankOf(rank, m) < RankOf(rank, l)
    decreases RankOf(rank, l)
  {
    if m != l {
      ContentsBelow(t, rank, l);
      var items := Contents(t, l);
      var j := UnderItemsMember(t, rank, items, |items|, RankOf(rank, l), ListKey(m));
      assert l in t.lists;
      UnderRank(t, rank, t.child[items[j]], m);
    }
  }

  /**
   * A list strictly below `l` hangs off an item of some list that is itself below `l`; the
   * parent list ranks above the child.
   */
  lemma {:induction false} ListParent(t: Tree, rank: map<ListId, nat>, l: ListId, m: ListId) returns (x: ListId, k: nat)
    requires Ranked(t, rank) && ListKey(m) in Under(t, rank, l) && m != l
    ensures x in t.lists && k < |t.lists[x]| && t.lists[x][k] in t.child && t.child[t.lists[x][k]] == m
    ensures ListKey(x) in Under(t, rank, l)
    ensures RankOf(rank, m) < RankOf(rank, x)
    decreases RankOf(rank, l)
  {
    ContentsBelow(t, rank, l);
    var items := Contents(t, l);
    var j := UnderItemsMember(t, rank, items, |items|, RankOf(rank, l), ListKey(m));
    assert l in t.lists;
    var y := items[j];
    assert y in t.child && ListKey(m) in Under(t, rank, t.child[y]);
    if t.child[y] == m {
      x, k := l, j;
    } else {
      x, k := ListParent(t, rank, t.child[y], m);
      UnderChild(t, rank, l, j);
    }
  }

  /** An item below `l` sits in some list that is itself below `l`. */
  lemma {:induction false} ItemParent(t: Tree, rank: map<ListId, nat>, l: ListId, y: ItemId) returns (x: ListId, k: nat)
    requires Ranked(t, rank) && ItemKey(y) in Under(t, rank, l)
    ensures x in t.lists && k < |t.lists[x]| && t.lists[x][k] == y
    ensures ListKey(x) in Under(t, rank, l)
    decreases RankOf(rank, l)
  {
    ContentsBelow(t, rank, l);
    var items := Contents(t, l);
    var j := UnderItemsMember(t, rank, items, |items|, RankOf(rank, l), ItemKey(y));
    assert l in t.lists;
    if items[j] == y {
      x, k := l, j;
    } else {
      var z := items[j];
      assert z in t.child && ItemKey(y) in Under(t, rank, t.child[z]);
      x, k := ItemParent(t, rank, t.child[z], y);
      UnderChild(t, rank, l, j);
    }
  }

  /** No list lies below one of its own items' child lists. */
  lemma ParentNotBelowChild(t: Tree, rank: map<ListId, nat>, l: ListId, k: nat)
    requires Ranked(t, rank) && l in t.lists && k < |t.lists[l]| && t.lists[l][k] in t.child
    ensures ListKey(l) !in Under(t, rank, t.child[t.lists[l][k]])
  {
    if ListKey(l) in Under(t, rank, t.child[t.lists[l][k]]) {
      UnderRank(t, rank, t.child[t.lists[l][k]], l);
    }
  }

  /** In a forest, no item of a list lies below the child list of an item of the same list. */
  lemma ItemNotBelowSibling(t: Tree, rank: map<ListId, nat>, l: ListId, j: nat, k: nat)
    requires Ranked(t, rank) && Forest(t) && l in t.lists && j < |t.lists[l]| && k < |t.lists[l]|
    ensures ItemKey(t.lists[l][j]) !in Under(t, rank, t.child[t.lists[l][k]])
  {
    var c := t.child[t.lists[l][k]];
    if ItemKey(t.lists[l][j]) in Under(t, rank, c) {
      var x, i := ItemParent(t, rank, c, t.lists[l][j]);
      ItemsOnce(t, x, i, l, j);
      ParentNotBelowChild(t, rank, l, k);
    }
  }

  /** In a forest, a list below two sibling child lists forces the siblings to be the same. */
  lemma {:induction false} ListBelowSiblings(t: Tree, rank: map<ListId, nat>, l: ListId, j: nat, k: nat, m: ListId)
    requires Ranked(t, rank) && Forest(t) && l in t.lists && j < |t.lists[l]| && k < |t.lists[l]|
    requires ListKey(m) in Under(t, rank, t.child[t.lists[l][j]])
    requires ListKey(m) in Under(t, rank, t.child[t.lists[l][k]])
    ensures j == k
    decreases RankOf(rank, t.child[t.lists[l][j]]) - RankOf(rank, m)
  {
    var cj, ck := t.child[t.lists[l][j]], t.child[t.lists[l][k]];
    if m == cj && m == ck {
    } else if m == cj {
      var x, i := ListParent(t, rank, ck, m);
      ParentNotBelowChild(t, rank, l, k);
    } else if m == ck {
      var x, i := ListParent(t, rank, cj, m);
      ParentNotBelowChild(t, rank, l, j);
    } else {
      var x1, i1 := ListParent(t, rank, cj, m);
      var x2, i2 := ListParent(t, rank, ck, m);
      UnderRank(t, rank, cj, x1);
      ListBelowSiblings(t, rank, l, j, k, x1);
    }
  }

  /** In a forest, the subtrees of two different items of one list share no key. */
  lemma SiblingsDisjoint(t: Tree, rank: map<ListId, nat>, l: ListId, j: nat, k: nat)
    requires Ranked(t, rank) && Forest(t) && l in t.lists && j < |t.lists[l]| && k < |t.lists[l]| && j != k
    ensures UnderItem(t, rank, t.lists[l][j], RankOf(rank, l)) !! UnderItem(t, rank, t.lists[l][k], RankOf(rank, l))
  {
    var yj, yk := t.lists[l][j], t.lists[l][k];
    forall key | key in UnderItem(t, rank, yj, RankOf(rank, l)) && key in UnderItem(t, rank, yk, RankOf(rank, l))
      ensures false
    {
      ItemNotBelowSibling(t, rank, l, j, k);
      ItemNotBelowSibling(t, rank, l, k, j);
      if key == ItemKey(yj) || key == ItemKey(yk) {
        if yj == yk {
          ItemsOnce(t, l, j, l, k);
        }
      } else if key.ListKey? {
        ListBelowSiblings(t, rank, l, j, k, key.l);
      } else {
        var x1, i1 := ItemParent(t, rank, t.child[yj], key.y);
        var x2, i2 := ItemParent(t, rank, t.child[yk], key.y);
        ItemsOnce(t, x1, i1, x2, i2);
        ListBelowSiblings(t, rank, l, j, k, x1);
      }
    }
  }
}
