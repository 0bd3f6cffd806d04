/** Filtering a sequence: which elements are kept, and that they keep their order. */
module Subsequences {

  /** `a` lists the elements of `b` at the indices `idx`, which ascend. */
  ghost predicate PickedBy<T(!new)>(a: seq<T>, b: seq<T>, idx: seq<nat>)
  {
    && |idx| == |a|
    && (forall k :: 0 <= k < |idx| ==> idx[k] < |b| && a[k] == b[idx[k]])
    && forall j, k :: 0 <= j < k < |idx| ==> idx[j] < idx[k]
  }

  /** `a` is what is left of `b` when exactly the elements that meet `keep` stay. */
  ghost predicate Filters<T(!new)>(a: seq<T>, b: seq<T>, keep: T -> bool)
  {
    exists idx: seq<nat> :: PickedBy(a, b, idx) && forall i: nat :: i < |b| ==> (i in idx <==> keep(b[i]))
  }

  /** `a` is what is left of `b` when exactly the elements at the places `chosen` stay. */
  ghost predicate Picks<T(!new)>(a: seq<T>, b: seq<T>, chosen: set<nat>)
  {
    exists idx: seq<nat> :: PickedBy(a, b, idx) && forall i: nat :: i < |b| ==> (i in idx <==> i in chosen)
  }

  lemma PickedSnoc<T(!new)>(a: seq<T>, b: seq<T>, idx: seq<nat>, x: T)
    requires PickedBy(a, b, idx)
    ensures PickedBy(a, b + [x], idx) && PickedBy(a + [x], b + [x], idx + [|b|])
    ensures |b| !in idx
  {
  }

  lemma InSnoc(idx: seq<nat>, n: nat, i: nat)
    ensures i in idx + [n] <==> i in idx || i == n
  {
  }

  lemma PickedCons<T(!new)>(a: seq<T>, b: seq<T>, idx: seq<nat>, i: nat)
    requires PickedBy(a, b, idx) && i < |b| && forall k :: 0 <= k < |idx| ==> i < idx[k]
    ensures PickedBy([b[i]] + a, b, [i] + idx)
    ensures forall k: nat :: k in [i] + idx <==> k == i || k in idx
  {
  }

  lemma FiltersNone<T(!new)>(keep: T -> bool)
    ensures Filters([], [], keep)
  {
    assert PickedBy<T>([], [], []);
  }

  /** `more` is `b` with `x` at its end. */
  lemma FiltersSnoc<T(!new)>(a: seq<T>, b: seq<T>, keep: T -> bool, x: T, more: seq<T>)
    requires Filters(a, b, keep) && more == b + [x]
    ensures Filters(if keep(x) then a + [x] else a, more, keep)
  {
    var idx: seq<nat> :| PickedBy(a, b, idx) && forall i: nat :: i < |b| ==> (i in idx <==> keep(b[i]));
    PickedSnoc(a, b, idx, x);
    if keep(x) {
      forall i: nat | i < |more| ensures i in idx + [|b|] <==> keep(more[i]) { InSnoc(idx, |b|, i); }
    } else {
      assert forall i: nat :: i < |more| ==> (i in idx <==> keep(more[i]));
    }
  }

  lemma PicksNone<T(!new)>(chosen: set<nat>)
    ensures Picks<T>([], [], chosen)
  {
    assert PickedBy<T>([], [], []);
  }

  lemma PicksSnoc<T(!new)>(a: seq<T>, b: seq<T>, chosen: set<nat>, x: T, more: seq<T>)
    requires Picks(a, b, chosen) && more == b + [x]
    ensures Picks(if |b| in chosen then a + [x] else a, more, chosen)
  {
    var idx: seq<nat> :| PickedBy(a, b, idx) && forall i: nat :: i < |b| ==> (i in idx <==> i in chosen);
    PickedSnoc(a, b, idx, x);
    if |b| in chosen {
      forall i: nat | i < |more| ensures i in idx + [|b|] <==> i in chosen { InSnoc(idx, |b|, i); }
    } else {
      assert forall i: nat :: i < |more| ==> (i in idx <==> i in chosen);
    }
  }
}
