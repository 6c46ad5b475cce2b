/** The in-place `Vec` operations the drag-and-drop code relies on, as functions on sequences. */
module VecOps {

  /** `Vec::remove(i)`: the vector without its element at `i` (Rust panics when `i >= len`). */
  function Remove<T>(s: seq<T>, i: nat): (r: seq<T>)
    requires i < |s|
    ensures |r| == |s| - 1
    ensures forall k :: 0 <= k < i ==> r[k] == s[k]
    ensures forall k :: i <= k < |r| ==> r[k] == s[k + 1]
    ensures multiset(r) + multiset{s[i]} == multiset(s)
  {
    assert s == s[..i] + [s[i]] + s[i + 1..];
    s[..i] + s[i + 1..]
  }

  /** `Vec::insert(i, x)`: `x` placed before the element at `i` (Rust panics when `i > len`). */
  function Insert<T>(s: seq<T>, i: nat, x: T): (r: seq<T>)
    requires i <= |s|
    ensures |r| == |s| + 1
    ensures r[i] == x
    ensures forall k :: 0 <= k < i ==> r[k] == s[k]
    ensures forall k :: i < k < |r| ==> r[k] == s[k - 1]
    ensures multiset(r) == multiset(s) + multiset{x}
  {
    assert s == s[..i] + s[i..];
    s[..i] + [x] + s[i..]
  }

  /** Putting back at `i` what `Remove` took from `i` restores the vector. */
  lemma InsertRemove<T>(s: seq<T>, i: nat)
    requires i < |s|
    ensures Insert(Remove(s, i), i, s[i]) == s
  {
  }

  /**
   * The only thing known of `hello_egui::dnd::utils::shift_vec`, a call into a library that is
   * not part of this model: it reorders the vector, keeping its length and its elements.
   */
  ghost predicate ShiftVecContract<T(!new)>(shift: (nat, nat, seq<T>) -> seq<T>)
  {
    forall i: nat, j: nat, s: seq<T> {:trigger shift(i, j, s)} ::
      |shift(i, j, s)| == |s| && multiset(shift(i, j, s)) == multiset(s)
  }
}
