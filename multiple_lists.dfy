/**
 * `crates/dnd/src/multiple_lists.rs`: several flat lists drawn one after another in a single
 * drag-and-drop container. Every list but the first is preceded by a header slot; a drag is
 * reported as two positions in the combined numbering and mapped back to (list, index) pairs
 * through per-list inclusive bounds.
 */
module MultipleLists {
  import opened VecOps
  import opened DndUtil
  import opened Options

  datatype ItemList = ItemList(id: string, items: seq<Item>)

  /** A list's first and last position in the combined numbering (both inclusive). */
  datatype DndBounds = DndBounds(start: nat, end: nat)
  {
    predicate Contains(p: nat) { start <= p <= end }
  }

  /** A list index and a position within that list. */
  datatype ListAndItemIdx = ListAndItemIdx(listIndex: nat, listInternalIndex: nat)

  // ---------------------------------------------------------------------------------------------
  // Filling the bounds

  /**
   * `ItemList::ui`: an optional header slot, then one slot per item; `start` is the first item
   * slot and `end` the last one. `*dnd_idx - 1` must not underflow.
   */
  method ItemListUi(list: ItemList, dndIdx: nat, drawHeader: bool) returns (idx: nat, bounds: DndBounds)
    requires drawHeader || |list.items| > 0 || dndIdx > 0
    ensures bounds.start == dndIdx + (if drawHeader then 1 else 0)
    ensures idx == bounds.start + |list.items|
    ensures bounds.end + 1 == idx
  {
    idx := dndIdx;
    if drawHeader {
      idx := idx + 1;
    }
    var start := idx;
    for k := 0 to |list.items|
      invariant idx == start + k
    {
      idx := idx + 1;
    }
    bounds := DndBounds(start, idx - 1);
  }

  /**
   * The bounds a frame assigns to `lists`: list 0 starts at 0 without a header, every later list
   * starts two past the end of the previous one (one slot for its header).
   */
  predicate Laid(lists: seq<ItemList>, bounds: seq<DndBounds>)
  {
    && |bounds| == |lists|
    && (|lists| > 0 ==> bounds[0].start == 0)
    && (forall i :: 0 <= i < |lists| ==> bounds[i].end + 1 == bounds[i].start + |lists[i].items|)
    && (forall i :: 0 < i < |lists| ==> bounds[i].start == bounds[i - 1].end + 2)
  }

  /** A first list without items makes the `- 1` of `ItemList::ui` underflow. */
  predicate FirstListNonEmpty(lists: seq<ItemList>)
  {
    |lists| > 0 ==> |lists[0].items| > 0
  }

  /** The bounds of `Laid`, computed list by list. */
  function LayoutOf(lists: seq<ItemList>): (bounds: seq<DndBounds>)
    requires FirstListNonEmpty(lists)
    ensures Laid(lists, bounds)
  {
    if |lists| == 0 then []
    else
      var prev := LayoutOf(lists[..|lists| - 1]);
      var last := lists[|lists| - 1];
      var start := if |prev| == 0 then 0 else prev[|prev| - 1].end + 2;
      prev + [DndBounds(start, start + |last.items| - 1)]
  }

  /** `Laid` determines the bounds completely. */
  lemma {:induction false} LaidUnique(lists: seq<ItemList>, b1: seq<DndBounds>, b2: seq<DndBounds>)
    requires Laid(lists, b1) && Laid(lists, b2)
    ensures b1 == b2
  {
    var i := 0;
    while i < |lists|
      invariant 0 <= i <= |lists|
      invariant b1[..i] == b2[..i]
    {
      if i > 0 {
        assert b1[i - 1] == b2[i - 1];
      }
      i := i + 1;
    }
    assert b1 == b1[..|lists|] && b2 == b2[..|lists|];
  }

  /** The bounds-filling loop of `MultipleLists::ui` (list 0 without a header). */
  method FillBounds(lists: seq<ItemList>) returns (bounds: seq<DndBounds>)
    requires |lists| > 0 && FirstListNonEmpty(lists)
    ensures Laid(lists, bounds)
    ensures bounds == LayoutOf(lists)
  {
    var idx := 0;
    bounds := [];
    for i := 0 to |lists|
      invariant |bounds| == i
      invariant Laid(lists[..i], bounds)
      invariant idx == if i == 0 then 0 else bounds[i - 1].end + 1
    {
      var b;
      idx, b := ItemListUi(lists[i], idx, i > 0);
      bounds := bounds + [b];
    }
    assert lists[..|lists|] == lists;
    LaidUnique(lists, bounds, LayoutOf(lists));
  }

  /** Under `Laid`, every list ends at least two slots before any later list starts. */
  lemma {:induction false} LaidOrdered(lists: seq<ItemList>, bounds: seq<DndBounds>, k: nat, m: nat)
    requires Laid(lists, bounds)
    requires k < m < |lists|
    ensures bounds[k].end + 2 <= bounds[m].start
    ensures bounds[k].start < bounds[m].start
    decreases m - k
  {
    if k + 1 < m {
      LaidOrdered(lists, bounds, k + 1, m);
    }
  }

  // ---------------------------------------------------------------------------------------------
  // Mapping a position back to a list

  /** The loop of `convert_dnd_idx_to_list_and_item_idx` from list `i` on. */
  function ConvertFrom(bounds: seq<DndBounds>, p: nat, forInsertion: bool, i: nat): (r: Option<ListAndItemIdx>)
    requires i <= |bounds|
    requires forInsertion && i < |bounds| ==> bounds[i].start <= p
    ensures r.Some? ==> i <= r.value.listIndex < |bounds|
                        && bounds[r.value.listIndex].start + r.value.listInternalIndex == p
    ensures r.Some? ==> forall k :: i <= k < r.value.listIndex ==> !bounds[k].Contains(p)
    ensures !forInsertion ==> (r.Some? <==> exists k :: i <= k < |bounds| && bounds[k].Contains(p))
    ensures !forInsertion && r.Some? ==> bounds[r.value.listIndex].Contains(p)
    ensures forInsertion ==> (r.Some? <==> i < |bounds|)
    ensures forInsertion && r.Some? ==>
              var j := r.value.listIndex;
              bounds[j].Contains(p) || j == |bounds| - 1 || p < bounds[j + 1].start
    ensures forInsertion && r.Some? ==> forall k :: i < k <= r.value.listIndex ==> bounds[k].start <= p
    decreases |bounds| - i
  {
    if i == |bounds| then None
    else if bounds[i].Contains(p) then Some(ListAndItemIdx(i, p - bounds[i].start))
    else if forInsertion && (i == |bounds| - 1 || p < bounds[i + 1].start) then
      Some(ListAndItemIdx(i, p - bounds[i].start))
    else ConvertFrom(bounds, p, forInsertion, i + 1)
  }

  /**
   * `convert_dnd_idx_to_list_and_item_idx`. For a source (`forInsertion == false`) the first
   * list whose bounds contain `p`; for a destination also the list whose end `p` lies past,
   * when `p` comes before the next list's start or there is no next list. An insertion lookup
   * below the first list's start would underflow `dnd_idx - dnd_idx_start`.
   */
  function Convert(bounds: seq<DndBounds>, p: nat, forInsertion: bool): (r: Option<ListAndItemIdx>)
    requires forInsertion && |bounds| > 0 ==> bounds[0].start <= p
  {
    ConvertFrom(bounds, p, forInsertion, 0)
  }

  /** The scan passes over lists that neither contain `p` nor, for insertion, end just before it. */
  lemma {:induction false} ScanSkips(bounds: seq<DndBounds>, p: nat, forInsertion: bool, k: nat, i: nat)
    requires k <= i < |bounds|
    requires forInsertion ==> bounds[k].start <= p
    requires forall m :: k <= m < i ==> !bounds[m].Contains(p)
    requires forInsertion ==> forall m :: k < m <= i ==> bounds[m].start <= p
    ensures ConvertFrom(bounds, p, forInsertion, k) == ConvertFrom(bounds, p, forInsertion, i)
    decreases i - k
  {
    if k < i {
      ScanSkips(bounds, p, forInsertion, k + 1, i);
    }
  }

  /** A source lookup on a frame's bounds names an existing item. */
  lemma SourceInRange(lists: seq<ItemList>, bounds: seq<DndBounds>, p: nat)
    requires Laid(lists, bounds)
    requires Convert(bounds, p, false).Some?
    ensures var r := Convert(bounds, p, false).value;
            r.listIndex < |lists| && r.listInternalIndex < |lists[r.listIndex].items|
  {
  }

  /**
   * The header slot of list `i + 1` is no source, and as a destination it means "append to
   * list `i`".
   */
  lemma HeaderSlotAppends(lists: seq<ItemList>, bounds: seq<DndBounds>, i: nat)
    requires Laid(lists, bounds)
    requires i + 1 < |lists|
    ensures bounds[i].end + 1 == bounds[i + 1].start - 1
    ensures Convert(bounds, bounds[i].end + 1, false) == None
    ensures Convert(bounds, bounds[i].end + 1, true) == Some(ListAndItemIdx(i, |lists[i].items|))
  {
    var p := bounds[i].end + 1;
    forall k | 0 <= k < |bounds| ensures !bounds[k].Contains(p) {
      if k < i {
        LaidOrdered(lists, bounds, k, i);
      } else if k > i + 1 {
        LaidOrdered(lists, bounds, i + 1, k);
      }
    }
    forall k | 0 < k <= i ensures p >= bounds[k].start {
      if k < i {
        LaidOrdered(lists, bounds, k, i);
      }
    }
    ScanSkips(bounds, p, true, 0, i);
  }

  /**
   * An insertion lookup gives an index at most the found list's length, when that list is not
   * the last one (the whole list plus the header slot after it) or when the position is at most
   * one past the list's end.
   */
  lemma InsertionInRange(lists: seq<ItemList>, bounds: seq<DndBounds>, p: nat)
    requires Laid(lists, bounds)
    requires Convert(bounds, p, true).Some?
    requires var j := Convert(bounds, p, true).value.listIndex;
             j < |lists| - 1 || p <= bounds[j].end + 1
    ensures var r := Convert(bounds, p, true).value;
            r.listInternalIndex <= |lists[r.listIndex].items|
  {
  }

  // ---------------------------------------------------------------------------------------------
  // Applying a move

  /** Every item of every list, counted with multiplicity. */
  function AllItems(lists: seq<ItemList>): multiset<Item>
  {
    if |lists| == 0 then multiset{} else AllItems(lists[..|lists| - 1]) + multiset(lists[|lists| - 1].items)
  }

  /** The total over a concatenation is the sum of the totals. */
  lemma {:induction false} AllItemsConcat(a: seq<ItemList>, b: seq<ItemList>)
    ensures AllItems(a + b) == AllItems(a) + AllItems(b)
    decreases |b|
  {
    if |b| > 0 {
      var b' := b[..|b| - 1];
      assert (a + b)[..|a + b| - 1] == a + b';
      AllItemsConcat(a, b');
    } else {
      assert a + b == a;
    }
  }

  /** Replacing one list changes the total only in that list's share of it. */
  lemma AllItemsUpdate(lists: seq<ItemList>, i: nat, l: ItemList)
    requires i < |lists|
    ensures AllItems(lists) == AllItems(lists[..i]) + multiset(lists[i].items) + AllItems(lists[i + 1..])
    ensures AllItems(lists[i := l]) == AllItems(lists[..i]) + multiset(l.items) + AllItems(lists[i + 1..])
  {
    var pre, post := lists[..i], lists[i + 1..];
    assert lists == pre + [lists[i]] + post;
    assert lists[i := l] == pre + [l] + post;
    AllItemsConcat(pre + [lists[i]], post);
    AllItemsConcat(pre + [l], post);
    AllItemsConcat(pre, [lists[i]]);
    AllItemsConcat(pre, [l]);
    assert AllItems([l]) == multiset(l.items) by {
      assert [l][..0] == [];
    }
    assert AllItems([lists[i]]) == multiset(lists[i].items) by {
      assert [lists[i]][..0] == [];
    }
  }

  /** What `Vec::remove` and `Vec::insert` demand of a move between two different lists. */
  predicate ApplyInRange(lists: seq<ItemList>, from: Option<ListAndItemIdx>, to: Option<ListAndItemIdx>)
  {
    from.Some? && to.Some? ==>
      && from.value.listIndex < |lists| && to.value.listIndex < |lists|
      && (from.value.listIndex != to.value.listIndex ==>
            && from.value.listInternalIndex < |lists[from.value.listIndex].items|
            && to.value.listInternalIndex <= |lists[to.value.listIndex].items|)
  }

  /**
   * The update step of `MultipleLists::ui`: nothing unless both lookups succeeded; within one
   * list `shift_vec`; otherwise remove from the source, then insert into the target.
   */
  function ApplyUpdate(lists: seq<ItemList>, from: Option<ListAndItemIdx>, to: Option<ListAndItemIdx>,
                       shift: (nat, nat, seq<Item>) -> seq<Item>): (r: seq<ItemList>)
    requires ApplyInRange(lists, from, to)
    ensures |r| == |lists|
    ensures forall i :: 0 <= i < |r| ==> r[i].id == lists[i].id
    ensures from.None? || to.None? ==> r == lists
    ensures from.Some? && to.Some? ==>
              forall i :: 0 <= i < |r| && i != from.value.listIndex && i != to.value.listIndex ==> r[i] == lists[i]
  {
    if from.None? || to.None? then lists
    else
      var f, t := from.value, to.value;
      var src := lists[f.listIndex];
      if f.listIndex == t.listIndex then
        lists[f.listIndex := ItemList(src.id, shift(f.listInternalIndex, t.listInternalIndex, src.items))]
      else
        var removed := src.items[f.listInternalIndex];
        var lists1 := lists[f.listIndex := ItemList(src.id, Remove(src.items, f.listInternalIndex))];
        var dst := lists1[t.listIndex];
        lists1[t.listIndex := ItemList(dst.id, Insert(dst.items, t.listInternalIndex, removed))]
  }

  /**
   * What a move does to its two lists: within one list the list becomes `shift_vec`'s result;
   * across lists the source loses the entry at its index and the target gains that entry at the
   * insertion index, with both lists' ids kept.
   */
  lemma ApplyMovesItem(lists: seq<ItemList>, from: Option<ListAndItemIdx>, to: Option<ListAndItemIdx>,
                       shift: (nat, nat, seq<Item>) -> seq<Item>)
    requires ApplyInRange(lists, from, to) && from.Some? && to.Some?
    ensures var r := ApplyUpdate(lists, from, to, shift);
            var f, fi := from.value.listIndex, from.value.listInternalIndex;
            var t, ti := to.value.listIndex, to.value.listInternalIndex;
            && (f == t ==> r[f].items == shift(fi, ti, lists[f].items))
            && (f != t ==>
                  && r[f].items == Remove(lists[f].items, fi)
                  && r[t].items == Insert(lists[t].items, ti, lists[f].items[fi])
                  && r[t].items[ti] == lists[f].items[fi])
  {
  }

  /** Taking the item at `fi` out of list `f` lowers the total by exactly that item. */
  lemma RemoveLowersItems(lists: seq<ItemList>, f: nat, fi: nat)
    requires f < |lists| && fi < |lists[f].items|
    ensures AllItems(lists[f := ItemList(lists[f].id, Remove(lists[f].items, fi))]) + multiset{lists[f].items[fi]}
              == AllItems(lists)
  {
    var l1 := ItemList(lists[f].id, Remove(lists[f].items, fi));
    AllItemsUpdate(lists, f, l1);
  }

  /** Inserting `x` into list `t` raises the total by exactly `x`. */
  lemma InsertRaisesItems(lists: seq<ItemList>, t: nat, ti: nat, x: Item)
    requires t < |lists| && ti <= |lists[t].items|
    ensures AllItems(lists[t := ItemList(lists[t].id, Insert(lists[t].items, ti, x))])
              == AllItems(lists) + multiset{x}
  {
    var l2 := ItemList(lists[t].id, Insert(lists[t].items, ti, x));
    AllItemsUpdate(lists, t, l2);
  }

  /** Applying a move neither loses nor duplicates an item. */
  lemma ApplyConservesItems(lists: seq<ItemList>, from: Option<ListAndItemIdx>, to: Option<ListAndItemIdx>,
                            shift: (nat, nat, seq<Item>) -> seq<Item>)
    requires ApplyInRange(lists, from, to)
    requires ShiftVecContract(shift)
    ensures AllItems(ApplyUpdate(lists, from, to, shift)) == AllItems(lists)
  {
    if from.Some? && to.Some? {
      var f, t := from.value, to.value;
      var src := lists[f.listIndex];
      if f.listIndex == t.listIndex {
        var shifted := ItemList(src.id, shift(f.listInternalIndex, t.listInternalIndex, src.items));
        assert multiset(shifted.items) == multiset(src.items);
        assert ApplyUpdate(lists, from, to, shift) == lists[f.listIndex := shifted];
        AllItemsUpdate(lists, f.listIndex, shifted);
      } else {
        var removed := src.items[f.listInternalIndex];
        var lists1 := lists[f.listIndex := ItemList(src.id, Remove(src.items, f.listInternalIndex))];
        RemoveLowersItems(lists, f.listIndex, f.listInternalIndex);
        InsertRaisesItems(lists1, t.listIndex, t.listInternalIndex, removed);
      }
    }
  }

  // ---------------------------------------------------------------------------------------------
  // The widget

  function DigitChar(d: nat): char
    requires d < 10
  {
    "0123456789"[d]
  }

  /** Decimal text of `n`, as `format!` writes a `usize`. */
  function NatToString(n: nat): string
  {
    if n < 10 then [DigitChar(n)] else NatToString(n / 10) + [DigitChar(n % 10)]
  }

  /** The items `Item::new(offset + j)` for `j` in `0..n`. */
  function DemoItems(offset: nat, n: nat): (items: seq<Item>)
    ensures |items| == n
    ensures forall j :: 0 <= j < n ==> items[j] == Item(offset + j, "item description")
  {
    if n == 0 then [] else DemoItems(offset, n - 1) + [Item(offset + n - 1, "item description")]
  }

  /** List `i` of the demo: named `multi_list_{i}`, with ids from `startId + i * n`. */
  function DemoList(i: nat, startId: nat, n: nat): ItemList
  {
    ItemList("multi_list_" + NatToString(i), DemoItems(startId + i * n, n))
  }

  /** A drag reported by the container, if its panics are ruled out for these lists. */
  predicate UpdateInRange(lists: seq<ItemList>, from: nat, to: nat)
    requires FirstListNonEmpty(lists)
  {
    var b := LayoutOf(lists);
    var f := Convert(b, from, false);
    var t := Convert(b, to, true);
    f.Some? && t.Some? && f.value.listIndex != t.value.listIndex && t.value.listIndex < |lists| ==>
      t.value.listInternalIndex <= |lists[t.value.listIndex].items|
  }

  class MultipleLists {
    var lists: seq<ItemList>
    var listsDndIdxBounds: seq<DndBounds>

    ghost predicate Valid()
      reads this
    {
      |listsDndIdxBounds| == |lists|
    }

    /** `MultipleLists::new`: `numLists` lists of `numItemsPerList` consecutive ids from `startId`. */
    constructor (numLists: nat, startId: nat, numItemsPerList: nat)
      ensures Valid()
      ensures |lists| == numLists
      ensures forall i :: 0 <= i < numLists ==> lists[i] == DemoList(i, startId, numItemsPerList)
      ensures forall i :: 0 <= i < numLists ==> listsDndIdxBounds[i] == DndBounds(0, 0)
    {
      var ls: seq<ItemList> := [];
      var bs: seq<DndBounds> := [];
      for i := 0 to numLists
        invariant |ls| == i && |bs| == i
        invariant forall k :: 0 <= k < i ==> ls[k] == DemoList(k, startId, numItemsPerList)
        invariant forall k :: 0 <= k < i ==> bs[k] == DndBounds(0, 0)
      {
        var items: seq<Item> := [];
        var offset := startId + i * numItemsPerList;
        for j := 0 to numItemsPerList
          invariant items == DemoItems(offset, j)
        {
          items := items + [Item(offset + j, "item description")];
        }
        ls := ls + [ItemList("multi_list_" + NatToString(i), items)];
        bs := bs + [DndBounds(0, 0)];
      }
      lists := ls;
      listsDndIdxBounds := bs;
    }

    /**
     * `MultipleLists::ui` for one frame: refill the bounds, then apply the drag `update`
     * (reported positions `(from, to)`) if the container reported one.
     */
    method Ui(update: Option<(nat, nat)>, shift: (nat, nat, seq<Item>) -> seq<Item>)
      requires Valid() && |lists| > 0 && FirstListNonEmpty(lists)
      requires update.Some? ==> UpdateInRange(lists, update.value.0, update.value.1)
      requires ShiftVecContract(shift)
      modifies this
      ensures Valid()
      ensures listsDndIdxBounds == LayoutOf(old(lists))
      ensures update.None? ==> lists == old(lists)
      ensures update.Some? ==>
                lists == ApplyUpdate(old(lists), Convert(listsDndIdxBounds, update.value.0, false),
                                     Convert(listsDndIdxBounds, update.value.1, true), shift)
      ensures AllItems(lists) == AllItems(old(lists))
    {
      listsDndIdxBounds := FillBounds(lists);
      if update.Some? {
        var from := Convert(listsDndIdxBounds, update.value.0, false);
        var to := Convert(listsDndIdxBounds, update.value.1, true);
        if from.Some? {
          SourceInRange(lists, listsDndIdxBounds, update.value.0);
        }
        if from.Some? && to.Some? && from.value.listIndex != to.value.listIndex {
          assert to.value.listIndex < |lists|;
        }
        assert ApplyInRange(lists, from, to);
        ApplyConservesItems(lists, from, to, shift);
        lists := ApplyUpdate(lists, from, to, shift);
      }
    }
  }
}
