/**
 * `crates/dnd_custom/src/ghl.rs`, lookup half: mapping the drag positions the engine reports
 * back to lists and indices using the frame the walk recorded, and the decision in `ghl::ui`.
 */
module GhlSearch {
  import opened ListTree
  import opened GhlModel
  import opened Options

  /** `DragLocation`: an index into a list. */
  datatype DragLocation = DragLocation(listId: ListId, idx: nat)

  /** `DragDestination`. */
  datatype DragDestination = Insert(location: DragLocation) | Push(list: ListId) | Within(to: nat)

  datatype DragUpdate = DragUpdate(from: DragLocation, to: DragDestination)

  // ---------------------------------------------------------------------------------------------
  // find_start

  /**
   * One round of `find_start`'s `'list_search` loop on list `l`: stop unless `l` has bounds
   * containing `q`, a missing list yields nothing, otherwise scan its items.
   */
  function SearchStart(t: Tree, rank: map<ListId, nat>, w: Frame, l: ListId, q: nat): (r: Option<DragLocation>)
    requires Ranked(t, rank)
    ensures r.Some? ==> r.value.listId in t.lists && r.value.idx < |t.lists[r.value.listId]|
    ensures r.Some? ==> var y := t.lists[r.value.listId][r.value.idx];
                        y in w.states && w.states[y].dndIdx == q && y in t.child
    ensures l !in w.bounds || !w.bounds[l].Contains(q) ==> r.None?
    decreases RankOf(rank, l), 1, 0
  {
    if l !in w.bounds || !w.bounds[l].Contains(q) then None
    else if l !in t.lists then None
    else ScanStart(t, rank, w, l, 0, q)
  }

  /** The item loop of `find_start` on list `l`, from index `k`. */
  function ScanStart(t: Tree, rank: map<ListId, nat>, w: Frame, l: ListId, k: nat, q: nat)
    : (r: Option<DragLocation>)
    requires Ranked(t, rank)
    requires l in t.lists && k <= |t.lists[l]|
    ensures r.Some? ==> r.value.listId in t.lists && r.value.idx < |t.lists[r.value.listId]|
    ensures r.Some? ==> var y := t.lists[r.value.listId][r.value.idx];
                        y in w.states && w.states[y].dndIdx == q && y in t.child
    decreases RankOf(rank, l), 0, |t.lists[l]| - k
  {
    var items := t.lists[l];
    if k == |items| then None
    else
      var y := items[k];
      if y !in w.states || y !in t.child then None
      else if w.states[y].dndIdx == q then Some(DragLocation(l, k))
      else if !w.states[y].collapsed && t.child[y] in w.bounds && w.bounds[t.child[y]].Contains(q) then
        SearchStart(t, rank, w, t.child[y], q)
      else ScanStart(t, rank, w, l, k + 1, q)
  }

  /** `find_start`. */
  method FindStart(t: Tree, ghost rank: map<ListId, nat>, rootListId: ListId, dndIdxStart: nat, w: Frame)
    returns (r: Option<DragLocation>)
    requires Ranked(t, rank)
    ensures r == SearchStart(t, rank, w, rootListId, dndIdxStart)
  {
    var currListId := rootListId;
    while currListId in w.bounds
      invariant SearchStart(t, rank, w, currListId, dndIdxStart) == SearchStart(t, rank, w, rootListId, dndIdxStart)
      decreases RankOf(rank, currListId)
    {
      var bounds := w.bounds[currListId];
      if !bounds.Contains(dndIdxStart) {
        break;
      }
      if currListId !in t.lists {
        break;
      }
      var children := t.lists[currListId];
      var idx := 0;
      var descended := false;
      while idx < |children|
        invariant 0 <= idx <= |children|
        invariant ScanStart(t, rank, w, currListId, idx, dndIdxStart) == SearchStart(t, rank, w, rootListId, dndIdxStart)
        decreases |children| - idx
      {
        var itemId := children[idx];
        if itemId !in w.states || itemId !in t.child {
          return None;
        }
        var itemState := w.states[itemId];
        var childListId := t.child[itemId];
        if itemState.dndIdx == dndIdxStart {
          return Some(DragLocation(currListId, idx));
        }
        if !itemState.collapsed && childListId in w.bounds && w.bounds[childListId].Contains(dndIdxStart) {
          descended := true;
          break;
        }
        idx := idx + 1;
      }
      if !descended {
        return None;
      }
      currListId := t.child[children[idx]];
    }
    return None;
  }

  // ---------------------------------------------------------------------------------------------
  // find_end

  /**
   * One round of `find_end`'s `'list_search` loop on list `l`: no containment check, but a query
   * equal to the list's end is a push onto `l`, decided before any item is looked at.
   */
  function SearchEnd(t: Tree, rank: map<ListId, nat>, w: Frame, l: ListId, dragStart: ListId, q: nat)
    : (r: Option<DragDestination>)
    requires Ranked(t, rank)
    ensures l in w.bounds && l in t.lists && w.bounds[l].end == q ==> r == Some(Push(l))
    ensures r.Some? && r.value.Push? ==> r.value.list in w.bounds && w.bounds[r.value.list].end == q
    ensures r.Some? && r.value.Within? ==>
              dragStart in t.lists && r.value.to < |t.lists[dragStart]|
              && var y := t.lists[dragStart][r.value.to];
                 y in w.states && w.states[y].dndIdx == q
    ensures r.Some? && r.value.Insert? ==>
              var loc := r.value.location;
              loc.listId != dragStart && loc.listId in t.lists && loc.idx < |t.lists[loc.listId]|
              && var y := t.lists[loc.listId][loc.idx];
                 y in w.states && w.states[y].dndIdx == q
    decreases RankOf(rank, l), 1, 0
  {
    if l !in w.bounds || l !in t.lists then None
    else if w.bounds[l].end == q then Some(Push(l))
    else ScanEnd(t, rank, w, l, 0, dragStart, q)
  }

  /** The item loop of `find_end` on list `l`, from index `k`. */
  function ScanEnd(t: Tree, rank: map<ListId, nat>, w: Frame, l: ListId, k: nat, dragStart: ListId, q: nat)
    : (r: Option<DragDestination>)
    requires Ranked(t, rank)
    requires l in t.lists && k <= |t.lists[l]|
    ensures r.Some? && r.value.Push? ==> r.value.list in w.bounds && w.bounds[r.value.list].end == q
    ensures r.Some? && r.value.Within? ==>
              dragStart in t.lists && r.value.to < |t.lists[dragStart]|
              && var y := t.lists[dragStart][r.value.to];
                 y in w.states && w.states[y].dndIdx == q
    ensures r.Some? && r.value.Insert? ==>
              var loc := r.value.location;
              loc.listId != dragStart && loc.listId in t.lists && loc.idx < |t.lists[loc.listId]|
              && var y := t.lists[loc.listId][loc.idx];
                 y in w.states && w.states[y].dndIdx == q
    decreases RankOf(rank, l), 0, |t.lists[l]| - k
  {
    var items := t.lists[l];
    if k == |items| then None
    else
      var y := items[k];
      if y !in w.states || y !in t.child then None
      else if w.states[y].dndIdx == q then
        if dragStart == l then Some(Within(k)) else Some(Insert(DragLocation(l, k)))
      else if !w.states[y].collapsed && !w.states[y].dragging && t.child[y] in w.bounds
              && w.bounds[t.child[y]].Contains(q) then
        SearchEnd(t, rank, w, t.child[y], dragStart, q)
      else ScanEnd(t, rank, w, l, k + 1, dragStart, q)
  }

  /** `find_end`. */
  method FindEnd(t: Tree, ghost rank: map<ListId, nat>, rootListId: ListId, dragStartListId: ListId,
                 dndIdxEnd: nat, w: Frame)
    returns (r: Option<DragDestination>)
    requires Ranked(t, rank)
    ensures r == SearchEnd(t, rank, w, rootListId, dragStartListId, dndIdxEnd)
  {
    var currListId := rootListId;
    while currListId in w.bounds
      invariant SearchEnd(t, rank, w, currListId, dragStartListId, dndIdxEnd)
                == SearchEnd(t, rank, w, rootListId, dragStartListId, dndIdxEnd)
      decreases RankOf(rank, currListId)
    {
      var bounds := w.bounds[currListId];
      if currListId !in t.lists {
        break;
      }
      var children := t.lists[currListId];
      if bounds.end == dndIdxEnd {
        return Some(Push(currListId));
      }
      var idx := 0;
      var descended := false;
      while idx < |children|
        invariant 0 <= idx <= |children|
        invariant ScanEnd(t, rank, w, currListId, idx, dragStartListId, dndIdxEnd)
                  == SearchEnd(t, rank, w, rootListId, dragStartListId, dndIdxEnd)
        decreases |children| - idx
      {
        var itemId := children[idx];
        if itemId !in w.states || itemId !in t.child {
          return None;
        }
        var itemState := w.states[itemId];
        var childListId := t.child[itemId];
        if itemState.dndIdx == dndIdxEnd {
          if dragStartListId == currListId {
            return Some(Within(idx));
          }
          return Some(Insert(DragLocation(currListId, idx)));
        }
        if !itemState.collapsed && !itemState.dragging && childListId in w.bounds
           && w.bounds[childListId].Contains(dndIdxEnd) {
          descended := true;
          break;
        }
        idx := idx + 1;
      }
      if !descended {
        return None;
      }
      currListId := t.child[children[idx]];
    }
    return None;
  }

  // ---------------------------------------------------------------------------------------------
  // ui

  /** The decision at the end of `ghl::ui`, given the frame and the engine's reported update. */
  function Decide(t: Tree, rank: map<ListId, nat>, w: Frame, root: ListId, update: Option<(nat, nat)>)
    : (r: Option<DragUpdate>)
    requires Ranked(t, rank)
    ensures update.Some? && update.value.0 == update.value.1 ==> r.None?
    ensures update.None? ==> r.None?
    ensures r.Some? ==>
              && SearchStart(t, rank, w, root, update.value.0) == Some(r.value.from)
              && SearchEnd(t, rank, w, root, r.value.from.listId, update.value.1) == Some(r.value.to)
    ensures update.Some? && update.value.0 != update.value.1 ==>
              var from := SearchStart(t, rank, w, root, update.value.0);
              (from.Some? && SearchEnd(t, rank, w, root, from.value.listId, update.value.1).Some? ==> r.Some?)
  {
    if update.None? || update.value.0 == update.value.1 then None
    else
      var from := SearchStart(t, rank, w, root, update.value.0);
      if from.None? then None
      else
        var to := SearchEnd(t, rank, w, root, from.value.listId, update.value.1);
        if to.None? then None else Some(DragUpdate(from.value, to.value))
  }

  /**
   * `ghl::ui` for one frame: walk the tree from the root, then turn the engine's reported
   * `(from, to)` positions, if any, into a drag update.
   */
  method Ui(t: Tree, f: Flags, ghost rank: map<ListId, nat>, rootListId: ListId, update: Option<(nat, nat)>)
    returns (r: Option<DragUpdate>)
    requires Ranked(t, rank)
    ensures r == Decide(t, rank, DrawRoot(t, f, rank, rootListId), rootListId, update)
  {
    var uiState := new UiState();
    uiState.DrawList(t, f, rank, rootListId, Root);
    var w := uiState.Snapshot();
    if update.Some? {
      var (from, to) := update.value;
      if from != to {
        var start := FindStart(t, rank, rootListId, from, w);
        if start.Some? {
          var end := FindEnd(t, rank, rootListId, start.value.listId, to, w);
          if end.Some? {
            return Some(DragUpdate(start.value, end.value));
          }
        }
      }
    }
    return None;
  }
}
