/**
 * Why the walk and the two searches of `crates/dnd_custom/src/ghl.rs` fit together: on a
 * laid-out tree, `find_start` takes every walked item's position back to its list and index,
 * `find_end` takes it to `Within`/`Insert` and a sub-list's footer to `Push`, and no destination
 * ever lies below a dragged item.
 */
module GhlRoundTrip {
  import opened ListTree
  import opened GhlModel
  import opened GhlTree
  import opened GhlLayout
  import opened GhlSearch
  import opened Options

  /** List `l` is walked when `a` is: every item on the way down is open. */
  ghost predicate Reaches(t: Tree, f: Flags, rank: map<ListId, nat>, a: ListId, l: ListId)
    requires Ranked(t, rank)
    decreases RankOf(rank, a)
  {
    ContentsBelow(t, rank, a);
    a == l || exists k :: 0 <= k < |Contents(t, a)| && Contents(t, a)[k] in t.child && Open(f, Contents(t, a)[k])
                          && Reaches(t, f, rank, t.child[Contents(t, a)[k]], l)
  }

  // ---------------------------------------------------------------------------------------------
  // Positions inside a laid-out list

  lemma ItemLaidAt(t: Tree, f: Flags, rank: map<ListId, nat>, w: Frame, l: ListId, k: nat)
    requires Ranked(t, rank) && LaidOut(t, f, rank, w, l) && k < |Contents(t, l)|
    ensures l in t.lists && l in w.bounds && t.lists[l][k] in t.child && t.lists[l][k] in w.states
    ensures ItemLaid(t, f, rank, w, t.lists[l][k], NextPos(w, t.lists[l], k, w.bounds[l].end))
  {
    ContentsBelow(t, rank, l);
  }

  /** An item's position comes before the position after it (and after its sub-list). */
  lemma {:induction false} ItemBeforeNext(t: Tree, f: Flags, rank: map<ListId, nat>, w: Frame, l: ListId, k: nat)
    requires Ranked(t, rank) && LaidOut(t, f, rank, w, l) && k < |Contents(t, l)|
    ensures l in t.lists && t.lists[l][k] in w.states && l in w.bounds
    ensures w.states[t.lists[l][k]].dndIdx < NextPos(w, t.lists[l], k, w.bounds[l].end)
    decreases RankOf(rank, l), 0, 0
  {
    ItemLaidAt(t, f, rank, w, l, k);
    var y := t.lists[l][k];
    if Open(f, y) {
      ListSpan(t, f, rank, w, t.child[y]);
    }
  }

  /** The position after item `k` is the next item's position when there is a next item. */
  lemma NextIsFollowing(t: Tree, f: Flags, rank: map<ListId, nat>, w: Frame, l: ListId, k: nat)
    requires Ranked(t, rank) && LaidOut(t, f, rank, w, l) && k + 1 < |Contents(t, l)|
    ensures l in t.lists && t.lists[l][k + 1] in w.states && l in w.bounds
    ensures NextPos(w, t.lists[l], k, w.bounds[l].end) == w.states[t.lists[l][k + 1]].dndIdx
  {
    ItemLaidAt(t, f, rank, w, l, k + 1);
  }

  /** A laid-out list's bounds are not reversed. */
  lemma {:induction false} ListSpan(t: Tree, f: Flags, rank: map<ListId, nat>, w: Frame, l: ListId)
    requires Ranked(t, rank) && LaidOut(t, f, rank, w, l)
    ensures l in w.bounds && w.bounds[l].start <= w.bounds[l].end
    decreases RankOf(rank, l), 2, 0
  {
    if |Contents(t, l)| > 0 {
      ItemBeforeNext(t, f, rank, w, l, 0);
      ChainUp(t, f, rank, w, l, 0);
    }
  }

  /** Every item's next position is at most the list's end. */
  lemma {:induction false} ChainUp(t: Tree, f: Flags, rank: map<ListId, nat>, w: Frame, l: ListId, k: nat)
    requires Ranked(t, rank) && LaidOut(t, f, rank, w, l) && k < |Contents(t, l)|
    ensures l in t.lists && l in w.bounds && NextPos(w, t.lists[l], k, w.bounds[l].end) <= w.bounds[l].end
    decreases RankOf(rank, l), 1, |Contents(t, l)| - k
  {
    ItemLaidAt(t, f, rank, w, l, k);
    if k + 1 < |Contents(t, l)| {
      NextIsFollowing(t, f, rank, w, l, k);
      ItemBeforeNext(t, f, rank, w, l, k + 1);
      ChainUp(t, f, rank, w, l, k + 1);
    }
  }

  /** Every item's position is at least the list's start. */
  lemma {:induction false} ChainDown(t: Tree, f: Flags, rank: map<ListId, nat>, w: Frame, l: ListId, k: nat)
    requires Ranked(t, rank) && LaidOut(t, f, rank, w, l) && k < |Contents(t, l)|
    ensures l in t.lists && l in w.bounds && t.lists[l][k] in w.states
    ensures w.bounds[l].start <= w.states[t.lists[l][k]].dndIdx
    decreases RankOf(rank, l), 1, k
  {
    ItemLaidAt(t, f, rank, w, l, k);
    if k > 0 {
      NextIsFollowing(t, f, rank, w, l, k - 1);
      ItemBeforeNext(t, f, rank, w, l, k - 1);
      ChainDown(t, f, rank, w, l, k - 1);
    }
  }

  /** Everything item `i` spans comes before any later item `j`. */
  lemma {:induction false} ChainBetween(t: Tree, f: Flags, rank: map<ListId, nat>, w: Frame, l: ListId, i: nat, j: nat)
    requires Ranked(t, rank) && LaidOut(t, f, rank, w, l) && i < j < |Contents(t, l)|
    ensures l in t.lists && l in w.bounds && t.lists[l][j] in w.states
    ensures NextPos(w, t.lists[l], i, w.bounds[l].end) <= w.states[t.lists[l][j]].dndIdx
    decreases j - i
  {
    NextIsFollowing(t, f, rank, w, l, j - 1);
    if i < j - 1 {
      ItemBeforeNext(t, f, rank, w, l, j - 1);
      ChainBetween(t, f, rank, w, l, i, j - 1);
    }
  }

  /** All of an item's positions, its own and those of its sub-list, lie inside its list's bounds. */
  lemma ItemWithin(t: Tree, f: Flags, rank: map<ListId, nat>, w: Frame, l: ListId, k: nat)
    requires Ranked(t, rank) && LaidOut(t, f, rank, w, l) && k < |Contents(t, l)|
    ensures l in t.lists && l in w.bounds && t.lists[l][k] in w.states
    ensures w.bounds[l].start <= w.states[t.lists[l][k]].dndIdx
    ensures w.states[t.lists[l][k]].dndIdx < NextPos(w, t.lists[l], k, w.bounds[l].end) <= w.bounds[l].end
  {
    ChainDown(t, f, rank, w, l, k);
    ItemBeforeNext(t, f, rank, w, l, k);
    ChainUp(t, f, rank, w, l, k);
  }

  /** A list reached from a laid-out list is laid out, with bounds inside the outer bounds. */
  lemma {:induction false} ReachedWithin(t: Tree, f: Flags, rank: map<ListId, nat>, w: Frame, a: ListId, l: ListId)
    requires Ranked(t, rank) && LaidOut(t, f, rank, w, a) && Reaches(t, f, rank, a, l)
    ensures a in w.bounds && l in w.bounds && LaidOut(t, f, rank, w, l)
    ensures w.bounds[a].start <= w.bounds[l].start && w.bounds[l].end <= w.bounds[a].end
    ensures a != l ==> w.bounds[l].end < w.bounds[a].end
    decreases RankOf(rank, a)
  {
    ContentsBelow(t, rank, a);
    if a != l {
      var k :| 0 <= k < |Contents(t, a)| && Contents(t, a)[k] in t.child && Open(f, Contents(t, a)[k])
               && Reaches(t, f, rank, t.child[Contents(t, a)[k]], l);
      ItemLaidAt(t, f, rank, w, a, k);
      ItemWithin(t, f, rank, w, a, k);
      ReachedWithin(t, f, rank, w, t.child[Contents(t, a)[k]], l);
    }
  }

  // ---------------------------------------------------------------------------------------------
  // find_start

  /** The scan passes over an item all of whose positions lie below the query. */
  lemma ScanStartSkip(t: Tree, f: Flags, rank: map<ListId, nat>, w: Frame, l: ListId, k: nat, q: nat)
    requires Ranked(t, rank) && LaidOut(t, f, rank, w, l) && k < |Contents(t, l)|
    requires l in t.lists && l in w.bounds && NextPos(w, t.lists[l], k, w.bounds[l].end) <= q
    ensures ScanStart(t, rank, w, l, k, q) == ScanStart(t, rank, w, l, k + 1, q)
  {
    ItemBeforeNext(t, f, rank, w, l, k);
  }

  lemma {:induction false} ScanStartFinds(t: Tree, f: Flags, rank: map<ListId, nat>, w: Frame, l: ListId,
                                          k: nat, j: nat)
    requires Ranked(t, rank) && LaidOut(t, f, rank, w, l) && k <= j < |Contents(t, l)|
    ensures l in t.lists && t.lists[l][j] in w.states
    ensures ScanStart(t, rank, w, l, k, w.states[t.lists[l][j]].dndIdx) == Some(DragLocation(l, j))
    decreases j - k
  {
    ItemLaidAt(t, f, rank, w, l, j);
    if k < j {
      ChainBetween(t, f, rank, w, l, k, j);
      ScanStartSkip(t, f, rank, w, l, k, w.states[t.lists[l][j]].dndIdx);
      ScanStartFinds(t, f, rank, w, l, k + 1, j);
    }
  }

  lemma {:induction false} ScanStartEnters(t: Tree, f: Flags, rank: map<ListId, nat>, w: Frame, l: ListId,
                                           k: nat, j: nat, q: nat)
    requires Ranked(t, rank) && LaidOut(t, f, rank, w, l) && k <= j < |Contents(t, l)|
    requires l in t.lists && t.lists[l][j] in t.child && Open(f, t.lists[l][j])
    requires t.child[t.lists[l][j]] in w.bounds && w.bounds[t.child[t.lists[l][j]]].Contains(q)
    ensures ScanStart(t, rank, w, l, k, q) == SearchStart(t, rank, w, t.child[t.lists[l][j]], q)
    decreases j - k
  {
    ItemLaidAt(t, f, rank, w, l, j);
    if k < j {
      ChainBetween(t, f, rank, w, l, k, j);
      ScanStartSkip(t, f, rank, w, l, k, q);
      ScanStartEnters(t, f, rank, w, l, k + 1, j, q);
    }
  }

  /** A query inside an open item's sub-list is handed to the sub-list. */
  lemma SearchStartEnters(t: Tree, f: Flags, rank: map<ListId, nat>, w: Frame, l: ListId, j: nat, q: nat)
    requires Ranked(t, rank) && LaidOut(t, f, rank, w, l) && j < |Contents(t, l)|
    requires l in t.lists && t.lists[l][j] in t.child && Open(f, t.lists[l][j])
    requires t.child[t.lists[l][j]] in w.bounds && w.bounds[t.child[t.lists[l][j]]].Contains(q)
    ensures SearchStart(t, rank, w, l, q) == SearchStart(t, rank, w, t.child[t.lists[l][j]], q)
  {
    ItemLaidAt(t, f, rank, w, l, j);
    ItemWithin(t, f, rank, w, l, j);
    ScanStartEnters(t, f, rank, w, l, 0, j, q);
  }

  /**
   * Round trip of `find_start`: searching from a laid-out list for the position of any item of
   * a list it reaches yields that list and index.
   */
  lemma {:induction false} FindStartRoundTrip(t: Tree, f: Flags, rank: map<ListId, nat>, w: Frame, a: ListId,
                                              l: ListId, j: nat)
    requires Ranked(t, rank) && LaidOut(t, f, rank, w, a) && Reaches(t, f, rank, a, l) && j < |Contents(t, l)|
    ensures l in t.lists && t.lists[l][j] in w.states
    ensures SearchStart(t, rank, w, a, w.states[t.lists[l][j]].dndIdx) == Some(DragLocation(l, j))
    decreases RankOf(rank, a)
  {
    ReachedWithin(t, f, rank, w, a, l);
    ItemWithin(t, f, rank, w, l, j);
    var q := w.states[t.lists[l][j]].dndIdx;
    ContentsBelow(t, rank, a);
    if a == l {
      ScanStartFinds(t, f, rank, w, l, 0, j);
    } else {
      var k :| 0 <= k < |Contents(t, a)| && Contents(t, a)[k] in t.child && Open(f, Contents(t, a)[k])
               && Reaches(t, f, rank, t.child[Contents(t, a)[k]], l);
      var c := t.child[Contents(t, a)[k]];
      ItemLaidAt(t, f, rank, w, a, k);
      ReachedWithin(t, f, rank, w, c, l);
      FindStartRoundTrip(t, f, rank, w, c, l, j);
      SearchStartEnters(t, f, rank, w, a, k, q);
    }
  }

  // ---------------------------------------------------------------------------------------------
  // find_end

  lemma ScanEndSkip(t: Tree, f: Flags, rank: map<ListId, nat>, w: Frame, l: ListId, k: nat, from: ListId, q: nat)
    requires Ranked(t, rank) && LaidOut(t, f, rank, w, l) && k < |Contents(t, l)|
    requires l in t.lists && l in w.bounds && NextPos(w, t.lists[l], k, w.bounds[l].end) <= q
    ensures ScanEnd(t, rank, w, l, k, from, q) == ScanEnd(t, rank, w, l, k + 1, from, q)
  {
    ItemBeforeNext(t, f, rank, w, l, k);
  }

  lemma {:induction false} ScanEndFinds(t: Tree, f: Flags, rank: map<ListId, nat>, w: Frame, l: ListId,
                                        k: nat, j: nat, from: ListId)
    requires Ranked(t, rank) && LaidOut(t, f, rank, w, l) && k <= j < |Contents(t, l)|
    ensures l in t.lists && t.lists[l][j] in w.states
    ensures ScanEnd(t, rank, w, l, k, from, w.states[t.lists[l][j]].dndIdx)
            == Some(if from == l then Within(j) else Insert(DragLocation(l, j)))
    decreases j - k
  {
    ItemLaidAt(t, f, rank, w, l, j);
    if k < j {
      ChainBetween(t, f, rank, w, l, k, j);
      ScanEndSkip(t, f, rank, w, l, k, from, w.states[t.lists[l][j]].dndIdx);
      ScanEndFinds(t, f, rank, w, l, k + 1, j, from);
    }
  }

  lemma {:induction false} ScanEndEnters(t: Tree, f: Flags, rank: map<ListId, nat>, w: Frame, l: ListId,
                                         k: nat, j: nat, from: ListId, q: nat)
    requires Ranked(t, rank) && LaidOut(t, f, rank, w, l) && k <= j < |Contents(t, l)|
    requires l in t.lists && t.lists[l][j] in t.child && Open(f, t.lists[l][j])
    requires t.child[t.lists[l][j]] in w.bounds && w.bounds[t.child[t.lists[l][j]]].Contains(q)
    ensures ScanEnd(t, rank, w, l, k, from, q) == SearchEnd(t, rank, w, t.child[t.lists[l][j]], from, q)
    decreases j - k
  {
    ItemLaidAt(t, f, rank, w, l, j);
    if k < j {
      ChainBetween(t, f, rank, w, l, k, j);
      ScanEndSkip(t, f, rank, w, l, k, from, q);
      ScanEndEnters(t, f, rank, w, l, k + 1, j, from, q);
    }
  }

  lemma SearchEndEnters(t: Tree, f: Flags, rank: map<ListId, nat>, w: Frame, l: ListId, j: nat, from: ListId,
                        q: nat)
    requires Ranked(t, rank) && LaidOut(t, f, rank, w, l) && j < |Contents(t, l)|
    requires l in t.lists && t.lists[l][j] in t.child && Open(f, t.lists[l][j])
    requires t.child[t.lists[l][j]] in w.bounds && w.bounds[t.child[t.lists[l][j]]].Contains(q)
    ensures SearchEnd(t, rank, w, l, from, q) == SearchEnd(t, rank, w, t.child[t.lists[l][j]], from, q)
  {
    ItemLaidAt(t, f, rank, w, l, j);
    ItemWithin(t, f, rank, w, l, j);
    ScanEndEnters(t, f, rank, w, l, 0, j, from, q);
  }

  /**
   * Round trip of `find_end` on items: the position of any item of a reached list is a drop
   * onto that item, `Within` its list when the drag started there and `Insert` otherwise.
   */
  lemma {:induction false} FindEndRoundTrip(t: Tree, f: Flags, rank: map<ListId, nat>, w: Frame, a: ListId,
                                            l: ListId, j: nat, from: ListId)
    requires Ranked(t, rank) && LaidOut(t, f, rank, w, a) && Reaches(t, f, rank, a, l) && j < |Contents(t, l)|
    ensures l in t.lists && t.lists[l][j] in w.states
    ensures SearchEnd(t, rank, w, a, from, w.states[t.lists[l][j]].dndIdx)
            == Some(if from == l then Within(j) else Insert(DragLocation(l, j)))
    decreases RankOf(rank, a)
  {
    ReachedWithin(t, f, rank, w, a, l);
    ItemWithin(t, f, rank, w, l, j);
    var q := w.states[t.lists[l][j]].dndIdx;
    ContentsBelow(t, rank, a);
    if a == l {
      ScanEndFinds(t, f, rank, w, l, 0, j, from);
    } else {
      var k :| 0 <= k < |Contents(t, a)| && Contents(t, a)[k] in t.child && Open(f, Contents(t, a)[k])
               && Reaches(t, f, rank, t.child[Contents(t, a)[k]], l);
      var c := t.child[Contents(t, a)[k]];
      ItemLaidAt(t, f, rank, w, a, k);
      ReachedWithin(t, f, rank, w, c, l);
      FindEndRoundTrip(t, f, rank, w, c, l, j, from);
      SearchEndEnters(t, f, rank, w, a, k, from, q);
    }
  }

  /**
   * The footer disambiguates the end of a list: the end of any existing list reached from a
   * laid-out list is a push onto that list.
   */
  lemma {:induction false} FindEndPush(t: Tree, f: Flags, rank: map<ListId, nat>, w: Frame, a: ListId,
                                       l: ListId, from: ListId)
    requires Ranked(t, rank) && LaidOut(t, f, rank, w, a) && Reaches(t, f, rank, a, l) && l in t.lists
    ensures l in w.bounds && SearchEnd(t, rank, w, a, from, w.bounds[l].end) == Some(Push(l))
    decreases RankOf(rank, a)
  {
    ReachedWithin(t, f, rank, w, a, l);
    ContentsBelow(t, rank, a);
    if a != l {
      var k :| 0 <= k < |Contents(t, a)| && Contents(t, a)[k] in t.child && Open(f, Contents(t, a)[k])
               && Reaches(t, f, rank, t.child[Contents(t, a)[k]], l);
      var c := t.child[Contents(t, a)[k]];
      ItemLaidAt(t, f, rank, w, a, k);
      ReachedWithin(t, f, rank, w, c, l);
      ListSpan(t, f, rank, w, l);
      FindEndPush(t, f, rank, w, c, l, from);
      SearchEndEnters(t, f, rank, w, a, k, from, w.bounds[l].end);
    }
  }

  // ---------------------------------------------------------------------------------------------
  // The searches only ever land in walked lists

  lemma {:induction false} SearchStartReaches(t: Tree, f: Flags, rank: map<ListId, nat>, w: Frame, a: ListId, q: nat)
    requires Ranked(t, rank) && LaidOut(t, f, rank, w, a)
    ensures var r := SearchStart(t, rank, w, a, q);
            r.Some? ==> Reaches(t, f, rank, a, r.value.listId)
    decreases RankOf(rank, a), 1, 0
  {
    if a in w.bounds && w.bounds[a].Contains(q) && a in t.lists {
      ScanStartReaches(t, f, rank, w, a, 0, q);
    }
  }

  lemma {:induction false} ScanStartReaches(t: Tree, f: Flags, rank: map<ListId, nat>, w: Frame, a: ListId,
                                            k: nat, q: nat)
    requires Ranked(t, rank) && LaidOut(t, f, rank, w, a) && a in t.lists && k <= |t.lists[a]|
    ensures var r := ScanStart(t, rank, w, a, k, q);
            r.Some? ==> Reaches(t, f, rank, a, r.value.listId)
    decreases RankOf(rank, a), 0, |t.lists[a]| - k
  {
    if k < |t.lists[a]| {
      ItemLaidAt(t, f, rank, w, a, k);
      var y := t.lists[a][k];
      var c := t.child[y];
      ContentsBelow(t, rank, a);
      if w.states[y].dndIdx != q && !w.states[y].collapsed && c in w.bounds && w.bounds[c].Contains(q) {
        SearchStartReaches(t, f, rank, w, c, q);
        var r := SearchStart(t, rank, w, c, q);
        if r.Some? {
          assert Contents(t, a)[k] == y && Open(f, y);
        }
      } else {
        ScanStartReaches(t, f, rank, w, a, k + 1, q);
      }
    }
  }

  /** The list a destination lands in: the start list for `Within`. */
  function DestList(d: DragDestination, from: ListId): ListId
  {
    match d
    case Insert(loc) => loc.listId
    case Push(l) => l
    case Within(_) => from
  }

  lemma {:induction false} SearchEndReaches(t: Tree, f: Flags, rank: map<ListId, nat>, w: Frame, a: ListId,
                                            from: ListId, q: nat)
    requires Ranked(t, rank) && LaidOut(t, f, rank, w, a)
    ensures var r := SearchEnd(t, rank, w, a, from, q);
            r.Some? ==> Reaches(t, f, rank, a, DestList(r.value, from))
    decreases RankOf(rank, a), 1, 0
  {
    if a in w.bounds && a in t.lists && w.bounds[a].end != q {
      ScanEndReaches(t, f, rank, w, a, 0, from, q);
    }
  }

  lemma {:induction false} ScanEndReaches(t: Tree, f: Flags, rank: map<ListId, nat>, w: Frame, a: ListId,
                                          k: nat, from: ListId, q: nat)
    requires Ranked(t, rank) && LaidOut(t, f, rank, w, a) && a in t.lists && k <= |t.lists[a]|
    ensures var r := ScanEnd(t, rank, w, a, k, from, q);
            r.Some? ==> Reaches(t, f, rank, a, DestList(r.value, from))
    decreases RankOf(rank, a), 0, |t.lists[a]| - k
  {
    if k < |t.lists[a]| {
      ItemLaidAt(t, f, rank, w, a, k);
      var y := t.lists[a][k];
      var c := t.child[y];
      ContentsBelow(t, rank, a);
      var r := ScanEnd(t, rank, w, a, k, from, q);
      if w.states[y].dndIdx == q {
        assert r.Some? ==> DestList(r.value, from) == a;
      } else if !w.states[y].collapsed && !w.states[y].dragging && c in w.bounds && w.bounds[c].Contains(q) {
        assert r == SearchEnd(t, rank, w, c, from, q);
        SearchEndReaches(t, f, rank, w, c, from, q);
        if r.Some? {
          ReachThrough(t, f, rank, a, k, DestList(r.value, from));
        }
      } else {
        assert r == ScanEnd(t, rank, w, a, k + 1, from, q);
        ScanEndReaches(t, f, rank, w, a, k + 1, from, q);
      }
    }
  }

  /** A list reached from the child list of an open item of `a` is reached from `a`. */
  lemma ReachThrough(t: Tree, f: Flags, rank: map<ListId, nat>, a: ListId, k: nat, l: ListId)
    requires Ranked(t, rank) && a in t.lists && k < |t.lists[a]| && t.lists[a][k] in t.child
    requires Open(f, t.lists[a][k]) && Reaches(t, f, rank, t.child[t.lists[a][k]], l)
    ensures Reaches(t, f, rank, a, l)
  {
    ContentsBelow(t, rank, a);
    assert Contents(t, a)[k] == t.lists[a][k];
  }

  // ---------------------------------------------------------------------------------------------
  // Nothing lands below a dragged item

  /** The root list is nobody's child list. */
  ghost predicate RootOnTop(t: Tree, root: ListId)
  {
    forall l, i :: l in t.lists && 0 <= i < |t.lists[l]| && t.lists[l][i] in t.child ==>
      t.child[t.lists[l][i]] != root
  }

  /** Going down through open items never enters the subtree of a closed item from outside. */
  lemma {:induction false} ReachAvoidsClosed(t: Tree, f: Flags, rank: map<ListId, nat>, a: ListId, l: ListId,
                                             x: ListId, i: nat)
    requires Ranked(t, rank) && Forest(t) && x in t.lists && i < |t.lists[x]| && !Open(f, t.lists[x][i])
    requires ListKey(a) !in Under(t, rank, t.child[t.lists[x][i]]) && Reaches(t, f, rank, a, l)
    ensures ListKey(l) !in Under(t, rank, t.child[t.lists[x][i]])
    decreases RankOf(rank, a)
  {
    ContentsBelow(t, rank, a);
    if a != l {
      var k :| 0 <= k < |Contents(t, a)| && Contents(t, a)[k] in t.child && Open(f, Contents(t, a)[k])
               && Reaches(t, f, rank, t.child[Contents(t, a)[k]], l);
      assert a in t.lists;
      var c := t.child[t.lists[a][k]];
      var d := t.child[t.lists[x][i]];
      if ListKey(c) in Under(t, rank, d) {
        if c != d {
          var p, pk := ListParent(t, rank, d, c);
        }
      }
      ReachAvoidsClosed(t, f, rank, c, l, x, i);
    }
  }

  lemma RootOutsideSubtrees(t: Tree, rank: map<ListId, nat>, root: ListId, x: ListId, i: nat)
    requires Ranked(t, rank) && Forest(t) && RootOnTop(t, root) && x in t.lists && i < |t.lists[x]|
    ensures ListKey(root) !in Under(t, rank, t.child[t.lists[x][i]])
  {
    var d := t.child[t.lists[x][i]];
    if ListKey(root) in Under(t, rank, d) && root != d {
      var p, pk := ListParent(t, rank, d, root);
    }
  }

  // ---------------------------------------------------------------------------------------------
  // ghl::ui

  /**
   * Dragging any walked item onto any other walked item reports the move between them: within
   * one list it is `Within`, across lists an `Insert` at the target's index.
   */
  lemma DecideMovesOntoItem(t: Tree, f: Flags, rank: map<ListId, nat>, root: ListId,
                            l1: ListId, j1: nat, l2: ListId, j2: nat)
    requires Ranked(t, rank) && Forest(t)
    requires Reaches(t, f, rank, root, l1) && j1 < |Contents(t, l1)|
    requires Reaches(t, f, rank, root, l2) && j2 < |Contents(t, l2)|
    requires l1 != l2 || j1 != j2
    ensures var w := DrawRoot(t, f, rank, root);
            && l1 in t.lists && l2 in t.lists && t.lists[l1][j1] in w.states && t.lists[l2][j2] in w.states
            && Decide(t, rank, w, root, Some((w.states[t.lists[l1][j1]].dndIdx, w.states[t.lists[l2][j2]].dndIdx)))
               == Some(DragUpdate(DragLocation(l1, j1),
                                  if l1 == l2 then Within(j2) else Insert(DragLocation(l2, j2))))
  {
    var w := DrawRoot(t, f, rank, root);
    DrawRootLaid(t, f, rank, root);
    FindStartRoundTrip(t, f, rank, w, root, l1, j1);
    FindStartRoundTrip(t, f, rank, w, root, l2, j2);
    FindEndRoundTrip(t, f, rank, w, root, l2, j2, l1);
  }

  /** Dragging any walked item onto the footer of any existing walked list is a push onto it. */
  lemma DecideMovesOntoFooter(t: Tree, f: Flags, rank: map<ListId, nat>, root: ListId,
                              l1: ListId, j1: nat, l2: ListId)
    requires Ranked(t, rank) && Forest(t)
    requires Reaches(t, f, rank, root, l1) && j1 < |Contents(t, l1)|
    requires Reaches(t, f, rank, root, l2) && l2 in t.lists
    ensures var w := DrawRoot(t, f, rank, root);
            && l1 in t.lists && t.lists[l1][j1] in w.states && l2 in w.bounds
            && Decide(t, rank, w, root, Some((w.states[t.lists[l1][j1]].dndIdx, w.bounds[l2].end)))
               == Some(DragUpdate(DragLocation(l1, j1), Push(l2)))
  {
    var w := DrawRoot(t, f, rank, root);
    DrawRootLaid(t, f, rank, root);
    FindStartRoundTrip(t, f, rank, w, root, l1, j1);
    FindEndRoundTrip(t, f, rank, w, root, l1, j1, l1);
    FindEndPush(t, f, rank, w, root, l2, l1);
  }

  /**
   * Whatever the engine reports, the decided update never starts or ends in the subtree of a
   * dragged item, so an item cannot be dropped into its own sub-lists.
   */
  lemma DecideAvoidsDragged(t: Tree, f: Flags, rank: map<ListId, nat>, root: ListId, update: Option<(nat, nat)>,
                            x: ListId, i: nat)
    requires Ranked(t, rank) && Forest(t) && RootOnTop(t, root)
    requires x in t.lists && i < |t.lists[x]| && t.lists[x][i] in f.dragging
    ensures var r := Decide(t, rank, DrawRoot(t, f, rank, root), root, update);
            r.Some? ==>
              && ListKey(r.value.from.listId) !in Under(t, rank, t.child[t.lists[x][i]])
              && ListKey(DestList(r.value.to, r.value.from.listId)) !in Under(t, rank, t.child[t.lists[x][i]])
  {
    var w := DrawRoot(t, f, rank, root);
    var r := Decide(t, rank, w, root, update);
    if r.Some? {
      DrawRootLaid(t, f, rank, root);
      RootOutsideSubtrees(t, rank, root, x, i);
      SearchStartReaches(t, f, rank, w, root, update.value.0);
      SearchEndReaches(t, f, rank, w, root, r.value.from.listId, update.value.1);
      ReachAvoidsClosed(t, f, rank, root, r.value.from.listId, x, i);
      ReachAvoidsClosed(t, f, rank, root, DestList(r.value.to, r.value.from.listId), x, i);
    }
  }
}
