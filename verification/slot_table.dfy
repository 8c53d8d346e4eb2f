/**
 * The fixed-capacity entity arrays every generation keeps (`Entity[]` with
 * null for a free slot): the first-free-slot scan their SpawnEntity methods
 * share and the count of occupied slots.
 */
module SlotTable {
  import opened Wrappers

  /** The lowest free slot at or after `from`: the `for ... if (entities[i] == null)` scan. */
  function FirstFreeFrom<T>(s: seq<Option<T>>, from: nat): (r: Option<nat>)
    requires from <= |s|
    ensures r.Some? ==> from <= r.value < |s| && s[r.value].None?
    ensures r.Some? ==> forall j :: from <= j < r.value ==> s[j].Some?
    ensures r.None? <==> forall j :: from <= j < |s| ==> s[j].Some?
    decreases |s| - from
  {
    if from == |s| then None
    else if s[from].None? then Some(from)
    else FirstFreeFrom(s, from + 1)
  }

  /** The lowest free slot of the whole table. */
  function FirstFree<T>(s: seq<Option<T>>): Option<nat> {
    FirstFreeFrom(s, 0)
  }

  /** A table is full when every slot holds something. */
  predicate Full<T>(s: seq<Option<T>>) {
    forall j :: 0 <= j < |s| ==> s[j].Some?
  }

  /** Number of occupied slots. */
  function Occupied<T>(s: seq<Option<T>>): nat
    decreases |s|
  {
    if |s| == 0 then 0 else Occupied(s[..|s| - 1]) + (if s[|s| - 1].Some? then 1 else 0)
  }

  /** The scan finds the lowest free slot, and nothing exactly when the table is full. */
  lemma FirstFreeIsLowest<T>(s: seq<Option<T>>)
    ensures FirstFree(s).None? <==> Full(s)
    ensures FirstFree(s).Some? ==> FirstFree(s).value < |s| && s[FirstFree(s).value].None?
    ensures forall j :: 0 <= j < |s| && s[j].None? ==> FirstFree(s).Some? && FirstFree(s).value <= j
  {
  }

  /** Filling a free slot adds exactly one occupant. */
  lemma {:induction false} OccupiedFill<T>(s: seq<Option<T>>, i: nat, v: T)
    requires i < |s| && s[i].None?
    ensures Occupied(s[i := Some(v)]) == Occupied(s) + 1
    decreases |s|
  {
    var t := s[i := Some(v)];
    var n := |s| - 1;
    if i < n {
      assert t[..n] == s[..n][i := Some(v)];
      OccupiedFill(s[..n], i, v);
    } else {
      assert t[..n] == s[..n];
    }
  }

  /** A table is full exactly when its occupant count is its length. */
  lemma {:induction false} OccupiedBound<T>(s: seq<Option<T>>)
    ensures Occupied(s) <= |s|
    ensures Occupied(s) == |s| <==> Full(s)
    decreases |s|
  {
    if |s| > 0 {
      var n := |s| - 1;
      OccupiedBound(s[..n]);
      assert forall j :: 0 <= j < n ==> s[..n][j] == s[j];
    }
  }
}
