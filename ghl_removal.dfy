/**
 * Subtree deletion in `crates/dnd_custom/examples/ghl_vertical/item_cache.rs`:
 * `remove_list`, `delete_item_and_children` and `remove_item_from_parent_and_delete`, as
 * functions on the store's maps. `remove_list` and `delete_item_and_children` call each other;
 * the number of lists left measures the recursion.
 */
module GhlRemoval {
  import VecOps
  import opened ListTree
  import opened GhlSearch
  import opened GhlItemCache
  import opened Options

  /**
   * `r` arises from `a` by deletions only, and every deletion was finished: a list that went has
   * taken all of its entries with it, and an item that went has taken its child list with it.
   */
  predicate Shrinks(a: Arena, r: Arena)
  {
    && r.nextItemId == a.nextItemId && r.nextListId == a.nextListId
    && (forall l :: l in r.lists ==> l in a.lists && r.lists[l] == a.lists[l])
    && (forall y :: y in r.items ==> y in a.items && r.items[y] == a.items[y])
    && (forall l, i :: l in a.lists && l !in r.lists && 0 <= i < |a.lists[l].data| ==> a.lists[l].data[i] !in r.items)
    && (forall y :: y in a.items && y !in r.items ==> a.items[y].children !in r.lists)
  }

  lemma ShrinksTrans(a: Arena, b: Arena, c: Arena)
    requires Shrinks(a, b) && Shrinks(b, c)
    ensures Shrinks(a, c)
  {
  }

  lemma SubsetCard<T>(x: set<T>, y: set<T>)
    requires x <= y
    ensures |x| <= |y|
  {
    assert y == x + (y - x);
  }

  /** Dropping a present list leaves fewer lists. */
  lemma DropCard(lists: map<ListId, ItemList>, l: ListId)
    requires l in lists
    ensures |(lists - {l}).Keys| < |lists.Keys|
  {
    assert (lists - {l}).Keys == lists.Keys - {l};
  }

  /** Deleting never adds lists. */
  lemma ShrinksCard(a: Arena, r: Arena)
    requires Shrinks(a, r)
    ensures |r.lists.Keys| <= |a.lists.Keys|
  {
    SubsetCard(r.lists.Keys, a.lists.Keys);
  }

  /** Dropping list `l` and then deleting all of its entries is a finished deletion. */
  lemma DropListStep(a: Arena, l: ListId, r: Arena)
    requires l in a.lists && Shrinks(a.(lists := a.lists - {l}), r)
    requires forall y :: y in a.lists[l].data ==> y !in r.items
    ensures Shrinks(a, r)
  {
    var a1 := a.(lists := a.lists - {l});
    forall m, i | m in a.lists && m !in r.lists && 0 <= i < |a.lists[m].data|
      ensures a.lists[m].data[i] !in r.items
    {
      if m != l {
        assert m in a1.lists && a1.lists[m] == a.lists[m];
      }
    }
  }

  /** `remove_list`: take the list's entries, drop the list, then delete each entry's subtree. */
  function RemoveList(a: Arena, l: ListId): (r: Arena)
    ensures Shrinks(a, r) && l !in r.lists
    decreases |a.lists.Keys|, 0, 0
  {
    if l in a.lists then
      var a1 := a.(lists := a.lists - {l});
      assert a1.lists.Keys == a.lists.Keys - {l};
      var r := DeleteAll(a1, a.lists[l].data);
      DropListStep(a, l, r);
      r
    else a.(lists := a.lists - {l})
  }

  /** `remove_list` is the deletion of the taken entries from the store without the list. */
  lemma RemoveListUnfold(a: Arena, l: ListId)
    ensures RemoveList(a, l) == DeleteAll(a.(lists := a.lists - {l}), if l in a.lists then a.lists[l].data else [])
  {
  }

  /** The `for` loop of `remove_list`: delete the subtrees of `ys`, front to back. */
  function DeleteAll(a: Arena, ys: seq<ItemId>): (r: Arena)
    ensures Shrinks(a, r)
    ensures forall y :: y in ys ==> y !in r.items
    decreases |a.lists.Keys|, 2, |ys|
  {
    if ys == [] then a
    else
      var b := DeleteItem(a, ys[0]);
      ShrinksCard(a, b);
      var r := DeleteAll(b, ys[1..]);
      ShrinksTrans(a, b, r);
      assert forall y :: y in ys ==> y == ys[0] || y in ys[1..];
      r
  }

  /** One round of the loop of `remove_list`: the first entry's subtree goes first. */
  lemma DeleteAllStep(a: Arena, ys: seq<ItemId>)
    requires ys != []
    ensures DeleteAll(a, ys) == DeleteAll(DeleteItem(a, ys[0]), ys[1..])
  {
  }

  /** `delete_item_and_children`: remove the item's child list, then the item. */
  function DeleteItem(a: Arena, y: ItemId): (r: Arena)
    ensures Shrinks(a, r) && y !in r.items
    decreases |a.lists.Keys|, 1, 0
  {
    if y in a.items then
      var b := RemoveList(a, a.items[y].children);
      var r := b.(items := b.items - {y});
      ShrinksTrans(a, b, r);
      r
    else a.(items := a.items - {y})
  }

  /**
   * `y` sits in list `l` or, through at most `n` child lists of items present in the store,
   * below it.
   */
  ghost predicate Below(a: Arena, l: ListId, y: ItemId, n: nat)
    decreases n
  {
    && l in a.lists
    && (|| y in a.lists[l].data
        || (n > 0 && exists z :: z in a.lists[l].data && z in a.items && Below(a, a.items[z].children, y, n - 1)))
  }

  /** Once a list is gone in a finished deletion, so is everything that was below it. */
  lemma {:induction false} GoneBelow(a: Arena, r: Arena, l: ListId, y: ItemId, n: nat)
    requires Shrinks(a, r) && l !in r.lists && Below(a, l, y, n)
    ensures y !in r.items
    decreases n
  {
    if y !in a.lists[l].data {
      var z :| z in a.lists[l].data && z in a.items && Below(a, a.items[z].children, y, n - 1);
      GoneBelow(a, r, a.items[z].children, y, n - 1);
    }
  }

  /** After `remove_list(l)`, `l` is gone and so is every item that was below it. */
  lemma RemoveListDeletesBelow(a: Arena, l: ListId, y: ItemId, n: nat)
    requires Below(a, l, y, n)
    ensures l !in RemoveList(a, l).lists && y !in RemoveList(a, l).items
  {
    GoneBelow(a, RemoveList(a, l), l, y, n);
  }

  /** After `delete_item_and_children(y)`, `y`, its child list and everything below it are gone. */
  lemma DeleteItemDeletesBelow(a: Arena, y: ItemId, z: ItemId, n: nat)
    requires y in a.items && Below(a, a.items[y].children, z, n)
    ensures var r := DeleteItem(a, y);
            y !in r.items && a.items[y].children !in r.lists && z !in r.items
  {
    GoneBelow(a, DeleteItem(a, y), a.items[y].children, z, n);
  }

  // ---------------------------------------------------------------------------------------------
  // What deletion spares

  /** `y` is one of the items `ys` or lies below the child list of one of them. */
  ghost predicate FromItems(a: Arena, ys: seq<ItemId>, y: ItemId)
  {
    y in ys || exists z, n: nat :: z in ys && z in a.items && Below(a, a.items[z].children, y, n)
  }

  /** `m` is the child list of an item that `FromItems` reaches. */
  ghost predicate ListFrom(a: Arena, ys: seq<ItemId>, m: ListId)
  {
    exists z :: FromItems(a, ys, z) && z in a.items && a.items[z].children == m
  }

  /** The store `b` holds a subset of the entries of `a`, unchanged. */
  ghost predicate Sub(b: Arena, a: Arena)
  {
    && (forall l :: l in b.lists ==> l in a.lists && b.lists[l] == a.lists[l])
    && (forall y :: y in b.items ==> y in a.items && b.items[y] == a.items[y])
  }

  lemma {:induction false} BelowMono(b: Arena, a: Arena, l: ListId, y: ItemId, n: nat)
    requires Sub(b, a) && Below(b, l, y, n)
    ensures Below(a, l, y, n)
    decreases n
  {
    if y !in b.lists[l].data {
      var z :| z in b.lists[l].data && z in b.items && Below(b, b.items[z].children, y, n - 1);
      BelowMono(b, a, b.items[z].children, y, n - 1);
    }
  }

  lemma FromItemsMono(b: Arena, a: Arena, ys: seq<ItemId>, y: ItemId)
    requires Sub(b, a) && FromItems(b, ys, y)
    ensures FromItems(a, ys, y)
  {
    if y !in ys {
      var z, n: nat :| z in ys && z in b.items && Below(b, b.items[z].children, y, n);
      BelowMono(b, a, b.items[z].children, y, n);
    }
  }

  lemma ListFromMono(b: Arena, a: Arena, ys: seq<ItemId>, m: ListId)
    requires Sub(b, a) && ListFrom(b, ys, m)
    ensures ListFrom(a, ys, m)
  {
    var z :| FromItems(b, ys, z) && z in b.items && b.items[z].children == m;
    FromItemsMono(b, a, ys, z);
  }

  /** Reaching an item from the entries of list `c` is reaching it from `c`. */
  lemma FromListBelow(a: Arena, c: ListId, y: ItemId) returns (n: nat)
    requires c in a.lists && FromItems(a, a.lists[c].data, y)
    ensures Below(a, c, y, n)
  {
    if y in a.lists[c].data {
      n := 0;
    } else {
      var z, k: nat :| z in a.lists[c].data && z in a.items && Below(a, a.items[z].children, y, k);
      n := k + 1;
      assert z in a.lists[c].data && z in a.items && Below(a, a.items[z].children, y, n - 1);
    }
  }

  /** Reaching an item from the entries of `y0`'s child list is reaching it from `y0`. */
  lemma FromChild(a: Arena, y0: ItemId, y: ItemId)
    requires y0 in a.items && a.items[y0].children in a.lists
    requires FromItems(a, a.lists[a.items[y0].children].data, y)
    ensures FromItems(a, [y0], y)
  {
    var n := FromListBelow(a, a.items[y0].children, y);
    assert y0 in [y0];
  }

  /** What `remove_list(l)` removes: items reached from `l`'s entries, `l`, and their child lists. */
  ghost predicate RemoveListOnly(a: Arena, l: ListId, r: Arena)
  {
    && (forall y :: y in a.items && y !in r.items ==> l in a.lists && FromItems(a, a.lists[l].data, y))
    && (forall m :: m in a.lists && m !in r.lists ==> m == l || (l in a.lists && ListFrom(a, a.lists[l].data, m)))
  }

  /** What deleting the items `ys` removes: items reached from them and their child lists. */
  ghost predicate DeleteOnly(a: Arena, ys: seq<ItemId>, r: Arena)
  {
    && (forall y :: y in a.items && y !in r.items ==> FromItems(a, ys, y))
    && (forall m :: m in a.lists && m !in r.lists ==> ListFrom(a, ys, m))
  }

  lemma {:induction false} RemoveListRemovesOnly(a: Arena, l: ListId)
    ensures RemoveListOnly(a, l, RemoveList(a, l))
    decreases |a.lists.Keys|, 0, 0
  {
    if l in a.lists {
      var a1 := a.(lists := a.lists - {l});
      assert a1.lists.Keys == a.lists.Keys - {l};
      var data := a.lists[l].data;
      DeleteAllRemovesOnly(a1, data);
      var r := RemoveList(a, l);
      assert Sub(a1, a);
      forall y | y in a.items && y !in r.items
        ensures FromItems(a, data, y)
      {
        FromItemsMono(a1, a, data, y);
      }
      forall m | m in a.lists && m !in r.lists && m != l
        ensures ListFrom(a, data, m)
      {
        ListFromMono(a1, a, data, m);
      }
    }
  }

  lemma {:induction false} DeleteAllRemovesOnly(a: Arena, ys: seq<ItemId>)
    ensures DeleteOnly(a, ys, DeleteAll(a, ys))
    decreases |a.lists.Keys|, 2, |ys|
  {
    if ys != [] {
      var b := DeleteItem(a, ys[0]);
      ShrinksCard(a, b);
      DeleteItemRemovesOnly(a, ys[0]);
      DeleteAllRemovesOnly(b, ys[1..]);
      var r := DeleteAll(a, ys);
      forall y | y in a.items && y !in r.items
        ensures FromItems(a, ys, y)
      {
        if y in b.items {
          FromItemsMono(b, a, ys[1..], y);
          FromItemsSuffix(a, ys, y);
        } else {
          FromItemsHead(a, ys, y);
        }
      }
      forall m | m in a.lists && m !in r.lists
        ensures ListFrom(a, ys, m)
      {
        if m in b.lists {
          ListFromMono(b, a, ys[1..], m);
          var z :| FromItems(a, ys[1..], z) && z in a.items && a.items[z].children == m;
          FromItemsSuffix(a, ys, z);
        } else {
          var z :| FromItems(a, [ys[0]], z) && z in a.items && a.items[z].children == m;
          FromItemsHead(a, ys, z);
        }
      }
    }
  }

  lemma FromItemsSuffix(a: Arena, ys: seq<ItemId>, y: ItemId)
    requires ys != [] && FromItems(a, ys[1..], y)
    ensures FromItems(a, ys, y)
  {
    if y !in ys[1..] {
      var z, n: nat :| z in ys[1..] && z in a.items && Below(a, a.items[z].children, y, n);
      assert z in ys;
    }
  }

  lemma FromItemsHead(a: Arena, ys: seq<ItemId>, y: ItemId)
    requires ys != [] && FromItems(a, [ys[0]], y)
    ensures FromItems(a, ys, y)
  {
    if y !in [ys[0]] {
      var z, n: nat :| z in [ys[0]] && z in a.items && Below(a, a.items[z].children, y, n);
      assert z in ys;
    }
  }

  lemma {:induction false} DeleteItemRemovesOnly(a: Arena, y0: ItemId)
    ensures DeleteOnly(a, [y0], DeleteItem(a, y0))
    decreases |a.lists.Keys|, 1, 0
  {
    var r := DeleteItem(a, y0);
    if y0 in a.items {
      var c := a.items[y0].children;
      RemoveListRemovesOnly(a, c);
      var b := RemoveList(a, c);
      assert y0 in [y0];
      forall y | y in a.items && y !in r.items
        ensures FromItems(a, [y0], y)
      {
        if y != y0 {
          FromChild(a, y0, y);
        }
      }
      forall m | m in a.lists && m !in r.lists
        ensures ListFrom(a, [y0], m)
      {
        if m == c {
          assert FromItems(a, [y0], y0);
        } else {
          var z :| FromItems(a, a.lists[c].data, z) && z in a.items && a.items[z].children == m;
          FromChild(a, y0, z);
        }
      }
    } else {
      assert a.items - {y0} == a.items;
    }
  }

  /** `remove_list(l)` spares every item that was not below `l`, with its entry unchanged. */
  lemma RemoveListSpares(a: Arena, l: ListId, y: ItemId)
    requires y in a.items && forall n :: !Below(a, l, y, n)
    ensures y in RemoveList(a, l).items && RemoveList(a, l).items[y] == a.items[y]
  {
    RemoveListRemovesOnly(a, l);
    if y !in RemoveList(a, l).items {
      var n := FromListBelow(a, l, y);
    }
  }

  // ---------------------------------------------------------------------------------------------
  // remove_item_from_parent_and_delete

  /** `Iterator::position`: the index of the first occurrence of `y`. */
  function Position(s: seq<ItemId>, y: ItemId): (r: Option<nat>)
    ensures r.None? <==> y !in s
    ensures r.Some? ==> r.value < |s| && s[r.value] == y && y !in s[..r.value]
  {
    if s == [] then None
    else if s[0] == y then Some(0)
    else match Position(s[1..], y)
      case None => None
      case Some(i) =>
        assert s[..i + 1] == [s[0]] + s[1..][..i];
        Some(i + 1)
  }

  /** The first half of `remove_item_from_parent_and_delete`: drop the first `y` from list `l`. */
  function Detach(a: Arena, l: ListId, y: ItemId): (r: Arena)
    ensures r.items == a.items && r.nextItemId == a.nextItemId && r.nextListId == a.nextListId
    ensures r.lists.Keys == a.lists.Keys
  {
    if l in a.lists then
      match Position(a.lists[l].data, y)
      case Some(i) => a.(lists := a.lists[l := a.lists[l].(data := VecOps.Remove(a.lists[l].data, i))])
      case None => a
    else a
  }

  /**
   * `Detach` takes out exactly one occurrence of `y` from `l`, the first, and changes no other
   * list; when `l` or `y` is missing it changes nothing.
   */
  lemma DetachFirst(a: Arena, l: ListId, y: ItemId)
    ensures forall m :: m in a.lists && m != l ==> Detach(a, l, y).lists[m] == a.lists[m]
    ensures l !in a.lists || y !in a.lists[l].data ==> Detach(a, l, y) == a
    ensures l in a.lists && y in a.lists[l].data ==>
              var s, d := a.lists[l].data, Detach(a, l, y).lists[l].data;
              exists i :: 0 <= i < |s| && s[i] == y && y !in s[..i] && d == s[..i] + s[i + 1..]
  {
    if l in a.lists && y in a.lists[l].data {
      var s := a.lists[l].data;
      var i := Position(s, y).value;
      assert VecOps.Remove(s, i) == s[..i] + s[i + 1..];
    }
  }

  /** `remove_item_from_parent_and_delete`: the subtree goes even when the parent list is missing. */
  function RemoveFromParentAndDelete(a: Arena, l: ListId, y: ItemId): (r: Arena)
    ensures y !in r.items
    ensures Shrinks(Detach(a, l, y), r)
    ensures l !in a.lists ==> r == DeleteItem(a, y)
  {
    DeleteItem(Detach(a, l, y), y)
  }
}
