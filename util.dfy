/**
 * The two-list move of `crates/dnd/src/util.rs`: both lists are drawn in one drag-and-drop
 * container, `list_1` first, then `between` separator slots, then `list_2`, and a drag is
 * reported as two positions in that combined numbering.
 */
module DndUtil {
  import opened VecOps

  /** An entry of a list: an identifier and the text drawn next to it. */
  datatype Item = Item(id: nat, contents: string)

  /** What `Vec::remove`, `Vec::insert` and the `-` on `usize` demand of a call. */
  predicate MoveInRange(len1: nat, len2: nat, from: nat, to: nat, between: nat)
  {
    && (from < len1 && to > len1 ==> len1 + between <= to <= len1 + between + len2)
    && (from >= len1 ==> len1 + between <= from)
    && (from >= len1 && to < len1 + between ==> from - (len1 + between) < len2 && to <= len1)
  }

  /**
   * `move_elements_2`: moves the element at combined position `from` to combined position `to`.
   * All branching uses the length `list_1` had on entry.
   */
  method MoveElements2<T(!new)>(list1: seq<T>, list2: seq<T>, from: nat, to: nat, between: nat,
                          shift: (nat, nat, seq<T>) -> seq<T>)
    returns (r1: seq<T>, r2: seq<T>)
    requires MoveInRange(|list1|, |list2|, from, to, between)
    requires ShiftVecContract(shift)
    ensures from < |list1| && to <= |list1| ==> r1 == shift(from, to, list1) && r2 == list2
    ensures from < |list1| && to > |list1| ==>
              r1 == Remove(list1, from) && r2 == Insert(list2, to - (|list1| + between), list1[from])
    ensures from >= |list1| && to >= |list1| + between ==>
              r1 == list1 && r2 == shift(from - (|list1| + between), to - (|list1| + between), list2)
    ensures from >= |list1| && to < |list1| + between ==>
              r1 == Insert(list1, to, list2[from - (|list1| + between)])
              && r2 == Remove(list2, from - (|list1| + between))
    ensures |r1| + |r2| == |list1| + |list2|
    ensures multiset(r1) + multiset(r2) == multiset(list1) + multiset(list2)
  {
    var numSortedItems := |list1|;
    r1, r2 := list1, list2;
    if from < numSortedItems {
      if to <= numSortedItems {
        r1 := shift(from, to, r1);
      } else {
        var removed := r1[from];
        r1 := Remove(r1, from);
        r2 := Insert(r2, to - (numSortedItems + between), removed);
      }
    } else {
      var fromAdj := from - (numSortedItems + between);
      if to >= numSortedItems + between {
        var toAdj := to - (numSortedItems + between);
        r2 := shift(fromAdj, toAdj, r2);
      } else {
        var removed := r2[fromAdj];
        r2 := Remove(r2, fromAdj);
        r1 := Insert(r1, to, removed);
      }
    }
  }
}
