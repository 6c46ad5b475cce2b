/**
 * `src/dnd/multiple_lists.rs`: the application's own copy of the multiple-lists widget. It
 * fills the bounds through a `draw_list` closure and a length split instead of
 * `ItemList::ui`; the lookup and the move are the same code as the crate's and are taken from
 * `MultipleLists`.
 */
module AppMultipleLists {
  import opened VecOps
  import opened DndUtil
  import opened MultipleLists
  import opened Options

  /**
   * The `draw_list` closure: an optional header slot, then one slot per item, recording the
   * first and last item slot in `bounds[listIdx]` and leaving every other entry alone.
   */
  method DrawList(lists: seq<ItemList>, bounds: seq<DndBounds>, listIdx: nat, drawHeader: bool, idx: nat)
    returns (idx': nat, bounds': seq<DndBounds>)
    requires listIdx < |lists| == |bounds|
    requires drawHeader || |lists[listIdx].items| > 0 || idx > 0
    ensures |bounds'| == |bounds|
    ensures forall k :: 0 <= k < |bounds| && k != listIdx ==> bounds'[k] == bounds[k]
    ensures bounds'[listIdx].start == idx + (if drawHeader then 1 else 0)
    ensures idx' == bounds'[listIdx].start + |lists[listIdx].items|
    ensures bounds'[listIdx].end + 1 == idx'
  {
    var list := lists[listIdx];
    idx' := idx;
    if drawHeader {
      idx' := idx' + 1;
    }
    bounds' := bounds[listIdx := DndBounds(idx', bounds[listIdx].end)];
    for k := 0 to |list.items|
      invariant idx' == bounds'[listIdx].start + k
      invariant |bounds'| == |bounds|
      invariant forall m :: 0 <= m < |bounds| && m != listIdx ==> bounds'[m] == bounds[m]
    {
      idx' := idx' + 1;
    }
    bounds' := bounds'[listIdx := DndBounds(bounds'[listIdx].start, idx' - 1)];
  }

  /**
   * The drawing part of the application's `MultipleLists::ui`: one list is drawn without a
   * header; two or more are drawn as list 0 without a header and the rest with one. The result
   * is the same layout the crate's widget computes.
   */
  method FillBoundsApp(lists: seq<ItemList>, bounds0: seq<DndBounds>) returns (bounds: seq<DndBounds>)
    requires |lists| > 0 && FirstListNonEmpty(lists)
    requires |bounds0| == |lists|
    ensures bounds == LayoutOf(lists)
  {
    var idx := 0;
    bounds := bounds0;
    if |lists| == 1 {
      idx, bounds := DrawList(lists, bounds, 0, false, idx);
    } else {
      idx, bounds := DrawList(lists, bounds, 0, false, idx);
      for i := 1 to |lists|
        invariant |bounds| == |lists|
        invariant Laid(lists[..i], bounds[..i])
        invariant idx == bounds[i - 1].end + 1
      {
        idx, bounds := DrawList(lists, bounds, i, true, idx);
        assert bounds[..i + 1] == bounds[..i] + [bounds[i]];
      }
    }
    assert lists[..|lists|] == lists && bounds[..|lists|] == bounds;
    LaidUnique(lists, bounds, LayoutOf(lists));
  }

  /**
   * The application's `MultipleLists::ui` for one frame, on the widget's state `m`: the bounds
   * are refilled by `FillBoundsApp`, then the reported drag is looked up and applied as in the
   * crate.
   */
  method Ui(m: MultipleLists, update: Option<(nat, nat)>, shift: (nat, nat, seq<Item>) -> seq<Item>)
    requires m.Valid() && |m.lists| > 0 && FirstListNonEmpty(m.lists)
    requires update.Some? ==> UpdateInRange(m.lists, update.value.0, update.value.1)
    requires ShiftVecContract(shift)
    modifies m
    ensures m.Valid()
    ensures m.listsDndIdxBounds == LayoutOf(old(m.lists))
    ensures update.None? ==> m.lists == old(m.lists)
    ensures update.Some? ==>
              m.lists == ApplyUpdate(old(m.lists), Convert(m.listsDndIdxBounds, update.value.0, false),
                                     Convert(m.listsDndIdxBounds, update.value.1, true), shift)
    ensures AllItems(m.lists) == AllItems(old(m.lists))
  {
    m.listsDndIdxBounds := FillBoundsApp(m.lists, m.listsDndIdxBounds);
    if update.Some? {
      var from := Convert(m.listsDndIdxBounds, update.value.0, false);
      var to := Convert(m.listsDndIdxBounds, update.value.1, true);
      if from.Some? {
        SourceInRange(m.lists, m.listsDndIdxBounds, update.value.0);
      }
      assert ApplyInRange(m.lists, from, to);
      ApplyConservesItems(m.lists, from, to, shift);
      m.lists := ApplyUpdate(m.lists, from, to, shift);
    }
  }
}
