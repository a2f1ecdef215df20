/**
 Which rows of an ordered list can keep their stored key (first half of reconcileOrderKeys,
 src/order-keys.ts): those on a longest subsequence along which the keys increase.
 */
module KeptRows {
  import opened Collections
  import opened Lexicographic
  import opened OrderIntegers
  import opened OrderKeys
  import opened LongestIncreasing

  /** A row's identity. Ids are UUID texts; a number stands for the place in their text order. */
  type Id = int

  predicate Distinct(ids: seq<Id>) {
    forall i, j :: 0 <= i < j < |ids| ==> ids[i] != ids[j]
  }

  function Elements(ids: seq<Id>): set<Id> {
    set id | id in ids
  }

  /** Every listed id has a key. */
  predicate Covered(ids: seq<Id>, keys: map<Id, Digits>) {
    forall i :: 0 <= i < |ids| ==> ids[i] in keys
  }

  /** Keys strictly increase along the list. */
  ghost predicate IncreasingAlong(ids: seq<Id>, keys: map<Id, Digits>) {
    && Covered(ids, keys)
    && forall i, j :: 0 <= i < j < |ids| ==> Less(keys[ids[i]], keys[ids[j]])
  }

  ghost predicate ValidKeys(ids: seq<Id>, keys: map<Id, Digits>) {
    forall i :: 0 <= i < |ids| && ids[i] in keys ==> IsOrderKey(keys[ids[i]])
  }

  /** Order-preserving selection of the listed ids that belong to a set. */
  function Select(ids: seq<Id>, keep: set<Id>): seq<Id> {
    Filter((id: Id) => id in keep, ids)
  }

  lemma {:induction false} SelectMembers(ids: seq<Id>, keep: set<Id>)
    ensures forall id :: id in Select(ids, keep) <==> id in ids && id in keep
    ensures forall i :: 0 <= i < |Select(ids, keep)| ==> Select(ids, keep)[i] in ids && Select(ids, keep)[i] in keep
    decreases |ids|
  {
    if ids == [] {
    } else {
      SelectMembers(ids[..|ids| - 1], keep);
    }
  }

  // ----- sorting by stored key

  /** Inserts behind every id whose key is not greater: a stable sort, one element at a time. */
  function InsertByKey(sorted: seq<Id>, id: Id, existing: map<Id, Digits>): (r: seq<Id>)
    requires id in existing && Covered(sorted, existing)
    ensures forall x :: x in r <==> x == id || x in sorted
    ensures Covered(r, existing)
  {
    if sorted == [] then [id]
    else
      var last := |sorted| - 1;
      if Less(existing[id], existing[sorted[last]]) then
        InsertByKey(sorted[..last], id, existing) + [sorted[last]]
      else sorted + [id]
  }

  function SortByKey(ids: seq<Id>, existing: map<Id, Digits>): (r: seq<Id>)
    requires Covered(ids, existing)
    ensures forall x :: x in r <==> x in ids
    ensures Covered(r, existing)
  {
    if ids == [] then []
    else
      var last := |ids| - 1;
      InsertByKey(SortByKey(ids[..last], existing), ids[last], existing)
  }

  /** The keys in order of first occurrence, as inserting them into a Set leaves them. */
  function DistinctKeys(ids: seq<Id>, existing: map<Id, Digits>): (r: seq<Digits>)
    requires Covered(ids, existing)
    ensures forall i :: 0 <= i < |ids| ==> existing[ids[i]] in r
    ensures forall k :: k in r ==> exists i :: 0 <= i < |ids| && existing[ids[i]] == k
  {
    if ids == [] then []
    else
      var last := |ids| - 1;
      var before := DistinctKeys(ids[..last], existing);
      if existing[ids[last]] in before then before else before + [existing[ids[last]]]
  }

  // ----- which rows keep their key

  function Survivors(desired: seq<Id>, existing: map<Id, Digits>): (r: seq<Id>)
    ensures forall id :: id in r <==> id in desired && id in existing
    ensures Covered(r, existing)
  {
    SelectMembers(desired, existing.Keys);
    Select(desired, existing.Keys)
  }

  /** For each survivor, the position of its key among the distinct stored keys. */
  function GroupRanks(desired: seq<Id>, existing: map<Id, Digits>): (r: seq<int>)
    ensures |r| == |Survivors(desired, existing)|
  {
    var survivors := Survivors(desired, existing);
    var keys := DistinctKeys(SortByKey(survivors, existing), existing);
    seq(|survivors|, i requires 0 <= i < |survivors| => Position(keys, existing[survivors[i]]))
  }

  function KeptIds(desired: seq<Id>, existing: map<Id, Digits>): set<Id> {
    var survivors := Survivors(desired, existing);
    set i | i in Longest(GroupRanks(desired, existing)) && i < |survivors| :: survivors[i]
  }

  /** Rows whose stored key an assignment leaves as it is. */
  function Unchanged(desired: seq<Id>, existing: map<Id, Digits>, keys: map<Id, Digits>): set<Id> {
    set id | id in desired && id in existing && id in keys && keys[id] == existing[id]
  }

  // ----- facts about the sort

  ghost predicate SortedByKey(ids: seq<Id>, existing: map<Id, Digits>)
    requires Covered(ids, existing)
  {
    forall i, j :: 0 <= i < j < |ids| ==> !Less(existing[ids[j]], existing[ids[i]])
  }

  lemma NotAbove(sorted: seq<Id>, x: Id, id: Id, existing: map<Id, Digits>)
    requires id in existing && Covered(sorted, existing)
    requires SortedByKey(sorted, existing) && x in sorted
    requires !Less(existing[id], existing[sorted[|sorted| - 1]])
    ensures !Less(existing[id], existing[x])
  {
    var i :| 0 <= i < |sorted| && sorted[i] == x;
    var top := existing[sorted[|sorted| - 1]];
    Trichotomy(existing[x], top);
    if Less(existing[id], existing[x]) && i < |sorted| - 1 && existing[x] != top {
      Transitive(existing[id], existing[x], top);
    }
  }

  lemma AppendSorted(front: seq<Id>, x: Id, existing: map<Id, Digits>)
    requires x in existing && Covered(front, existing) && SortedByKey(front, existing) && Distinct(front)
    requires forall y :: y in front ==> !Less(existing[x], existing[y]) && y != x
    ensures Covered(front + [x], existing) && SortedByKey(front + [x], existing) && Distinct(front + [x])
  {
    var r := front + [x];
    forall i, j | 0 <= i < j < |r|
      ensures !Less(existing[r[j]], existing[r[i]]) && r[i] != r[j]
    {
      assert r[i] == front[i] && front[i] in front;
      assert j < |front| ==> r[j] == front[j];
    }
  }

  lemma {:induction false} InsertIsSorted(sorted: seq<Id>, id: Id, existing: map<Id, Digits>)
    requires id in existing && Covered(sorted, existing)
    requires SortedByKey(sorted, existing) && Distinct(sorted) && id !in sorted
    ensures SortedByKey(InsertByKey(sorted, id, existing), existing)
    ensures Distinct(InsertByKey(sorted, id, existing))
    decreases |sorted|
  {
    if sorted == [] {
    } else {
      var last := |sorted| - 1;
      if Less(existing[id], existing[sorted[last]]) {
        InsertIsSorted(sorted[..last], id, existing);
        var front := InsertByKey(sorted[..last], id, existing);
        forall x | x in front
          ensures !Less(existing[sorted[last]], existing[x]) && x != sorted[last]
        {
          Trichotomy(existing[id], existing[sorted[last]]);
          if x != id { assert x in sorted[..last]; }
        }
        AppendSorted(front, sorted[last], existing);
      } else {
        forall x | x in sorted
          ensures !Less(existing[id], existing[x])
        {
          NotAbove(sorted, x, id, existing);
        }
        AppendSorted(sorted, id, existing);
      }
    }
  }

  lemma {:induction false} SortIsSorted(ids: seq<Id>, existing: map<Id, Digits>)
    requires Covered(ids, existing) && Distinct(ids)
    ensures SortedByKey(SortByKey(ids, existing), existing) && Distinct(SortByKey(ids, existing))
    decreases |ids|
  {
    if ids == [] {
    } else {
      var last := |ids| - 1;
      SortIsSorted(ids[..last], existing);
      InsertIsSorted(SortByKey(ids[..last], existing), ids[last], existing);
    }
  }

  lemma SortedFront(ids: seq<Id>, existing: map<Id, Digits>)
    requires ids != [] && Covered(ids, existing) && SortedByKey(ids, existing)
    ensures Covered(ids[..|ids| - 1], existing) && SortedByKey(ids[..|ids| - 1], existing)
  {
  }

  lemma BelowTheLast(ids: seq<Id>, existing: map<Id, Digits>, k: Digits)
    requires ids != [] && Covered(ids, existing) && SortedByKey(ids, existing)
    requires k in DistinctKeys(ids[..|ids| - 1], existing) && k != existing[ids[|ids| - 1]]
    ensures Less(k, existing[ids[|ids| - 1]])
  {
    var last := |ids| - 1;
    var i :| 0 <= i < last && existing[ids[..last][i]] == k;
    Trichotomy(k, existing[ids[last]]);
  }

  lemma {:induction false} DistinctKeysIncrease(ids: seq<Id>, existing: map<Id, Digits>)
    requires Covered(ids, existing) && SortedByKey(ids, existing)
    ensures StrictlyIncreasing(DistinctKeys(ids, existing))
    decreases |ids|
  {
    if ids == [] {
    } else {
      var last := |ids| - 1;
      SortedFront(ids, existing);
      DistinctKeysIncrease(ids[..last], existing);
      var before := DistinctKeys(ids[..last], existing);
      if before != [] && existing[ids[last]] !in before { BelowTheLast(ids, existing, before[|before| - 1]); }
      if existing[ids[last]] !in before { ExtendIncreasing(before, existing[ids[last]]); }
    }
  }

  lemma RanksOrderKeys(keys: seq<Digits>, a: Digits, b: Digits)
    requires StrictlyIncreasing(keys) && a in keys && b in keys
    ensures Position(keys, a) < Position(keys, b) <==> Less(a, b)
  {
    var i, j := Position(keys, a), Position(keys, b);
    Trichotomy(a, b);
  }

  lemma {:induction false} SelectKeepsDistinct(ids: seq<Id>, keep: set<Id>)
    requires Distinct(ids)
    ensures Distinct(Select(ids, keep))
    decreases |ids|
  {
    if ids == [] {
    } else {
      SelectKeepsDistinct(ids[..|ids| - 1], keep);
      SelectMembers(ids[..|ids| - 1], keep);
    }
  }

  /** Group ranks compare exactly as the stored keys do. */
  lemma GroupRanksOrder(desired: seq<Id>, existing: map<Id, Digits>)
    requires Distinct(desired)
    ensures var survivors := Survivors(desired, existing);
            var ranks := GroupRanks(desired, existing);
            forall i, j :: 0 <= i < |survivors| && 0 <= j < |survivors| ==>
              (ranks[i] < ranks[j] <==> Less(existing[survivors[i]], existing[survivors[j]]))
  {
    var survivors := Survivors(desired, existing);
    SelectKeepsDistinct(desired, existing.Keys);
    SortIsSorted(survivors, existing);
    var sorted := SortByKey(survivors, existing);
    DistinctKeysIncrease(sorted, existing);
    var keys := DistinctKeys(sorted, existing);
    forall i, j | 0 <= i < |survivors| && 0 <= j < |survivors|
      ensures Position(keys, existing[survivors[i]]) < Position(keys, existing[survivors[j]]) <==>
              Less(existing[survivors[i]], existing[survivors[j]])
    {
      RanksOrderKeys(keys, existing[survivors[i]], existing[survivors[j]]);
    }
  }

  // ----- facts about selections

  ghost predicate AllBelow(ids: seq<Id>, keys: map<Id, Digits>, key: Digits) {
    forall p :: 0 <= p < |ids| ==> ids[p] in keys && Less(keys[ids[p]], key)
  }

  lemma AppendIncreasing(ids: seq<Id>, id: Id, keys: map<Id, Digits>)
    requires IncreasingAlong(ids, keys) && id in keys && AllBelow(ids, keys, keys[id])
    ensures IncreasingAlong(ids + [id], keys)
  {
  }

  /** A relation between earlier and later elements survives selection. */
  lemma {:induction false} SelectKeepsIncreasing(ids: seq<Id>, keep: set<Id>, keys: map<Id, Digits>)
    requires IncreasingAlong(ids, keys)
    ensures IncreasingAlong(Select(ids, keep), keys)
    decreases |ids|
  {
    if ids == [] {
    } else {
      var last := |ids| - 1;
      SelectKeepsIncreasing(ids[..last], keep, keys);
      var front := Select(ids[..last], keep);
      if ids[last] in keep {
        forall p | 0 <= p < |front|
          ensures front[p] in keys && Less(keys[front[p]], keys[ids[last]])
        {
          SelectMembers(ids[..last], keep);
          var i :| 0 <= i < last && ids[..last][i] == front[p];
          assert ids[i] == front[p];
        }
        AppendIncreasing(front, ids[last], keys);
      }
    }
  }

  lemma {:induction false} SelectAppend(a: seq<Id>, b: seq<Id>, keep: set<Id>)
    ensures Select(a + b, keep) == Select(a, keep) + Select(b, keep)
    decreases |b|
  {
    if b == [] {
      assert a + b == a;
    } else {
      var last := |b| - 1;
      SelectAppend(a, b[..last], keep);
      assert (a + b)[..|a + b| - 1] == a + b[..last];
    }
  }

  /** Selecting twice is selecting once by the smaller set. */
  lemma {:induction false} SelectTwice(ids: seq<Id>, keep: set<Id>, kept: set<Id>)
    requires kept <= keep
    ensures Select(Select(ids, keep), kept) == Select(ids, kept)
    decreases |ids|
  {
    if ids == [] {
    } else {
      var last := |ids| - 1;
      SelectTwice(ids[..last], keep, kept);
      SelectAppend(Select(ids[..last], keep), if ids[last] in keep then [ids[last]] else [], kept);
    }
  }

  lemma LastIsGreatest(a: seq<Id>, b: seq<Id>, keys: map<Id, Digits>)
    requires IncreasingAlong(a, keys) && IncreasingAlong(b, keys) && a != [] && b != []
    requires Elements(a) == Elements(b)
    ensures a[|a| - 1] == b[|b| - 1]
  {
    var x, y := a[|a| - 1], b[|b| - 1];
    assert x in Elements(a) && y in Elements(b);
    Trichotomy(keys[x], keys[y]);
  }

  lemma SetWithoutLast(a: seq<Id>, keys: map<Id, Digits>)
    requires IncreasingAlong(a, keys) && a != []
    ensures Elements(a[..|a| - 1]) == Elements(a) - {a[|a| - 1]}
  {
    var m := |a| - 1;
    assert a == a[..m] + [a[m]];
    if a[m] in a[..m] {
      var i :| 0 <= i < m && a[i] == a[m];
      Trichotomy(keys[a[i]], keys[a[m]]);
    }
  }

  /** There is only one way to list a set by strictly increasing key. */
  lemma {:induction false} IncreasingListIsUnique(a: seq<Id>, b: seq<Id>, keys: map<Id, Digits>)
    requires IncreasingAlong(a, keys) && IncreasingAlong(b, keys)
    requires Elements(a) == Elements(b)
    ensures a == b
    decreases |a|
  {
    assert (a == [] <==> Elements(a) == {}) && (b == [] <==> Elements(b) == {}) by {
      if a != [] { assert a[0] in Elements(a); }
      if b != [] { assert b[0] in Elements(b); }
    }
    if a == [] {
    } else {
      var m, n := |a| - 1, |b| - 1;
      LastIsGreatest(a, b, keys);
      SetWithoutLast(a, keys);
      SetWithoutLast(b, keys);
      IncreasingListIsUnique(a[..m], b[..n], keys);
      assert a == a[..m] + [a[m]] && b == b[..n] + [b[n]];
    }
  }

  // ----- the kept rows

  function Image(ids: seq<Id>, indices: set<nat>): set<Id> {
    set i | i in indices && i < |ids| :: ids[i]
  }

  lemma {:induction false} ImageSize(ids: seq<Id>, indices: set<nat>)
    requires Distinct(ids) && forall i :: i in indices ==> i < |ids|
    ensures |Image(ids, indices)| == |indices|
    decreases indices
  {
    if indices == {} {
    } else {
      var i :| i in indices;
      var rest := indices - {i};
      ImageSize(ids, rest);
      assert Image(ids, indices) == Image(ids, rest) + {ids[i]};
      assert ids[i] !in Image(ids, rest);
    }
  }

  lemma SelectedLieBelow(ids: seq<Id>, indices: set<nat>, keys: map<Id, Digits>)
    requires Distinct(ids) && Covered(ids, keys) && ids != []
    requires forall i :: i in indices ==> i < |ids|
    requires forall i, j :: i in indices && j in indices && i < j ==> Less(keys[ids[i]], keys[ids[j]])
    requires ids[|ids| - 1] in Image(ids, indices)
    ensures var selected := Select(ids[..|ids| - 1], Image(ids, indices));
            AllBelow(selected, keys, keys[ids[|ids| - 1]])
  {
    var last, keep := |ids| - 1, Image(ids, indices);
    var selected := Select(ids[..last], keep);
    SelectMembers(ids[..last], keep);
    assert last in indices by {
      var j :| j in indices && j < |ids| && ids[j] == ids[last];
    }
    forall p | 0 <= p < |selected|
      ensures selected[p] in keys && Less(keys[selected[p]], keys[ids[last]])
    {
      var i :| i in indices && i < |ids| && ids[i] == selected[p];
      var q :| 0 <= q < last && ids[..last][q] == selected[p];
      assert ids[q] == ids[i];
    }
  }

  /** Selections that agree on the listed ids are equal. */
  lemma {:induction false} SelectFront(front: seq<Id>, keep: set<Id>, keep': set<Id>)
    requires forall i :: 0 <= i < |front| ==> (front[i] in keep <==> front[i] in keep')
    ensures Select(front, keep) == Select(front, keep')
    decreases |front|
  {
    if front == [] {
    } else {
      SelectFront(front[..|front| - 1], keep, keep');
    }
  }

  lemma {:induction false} SelectIncreasing(ids: seq<Id>, indices: set<nat>, keys: map<Id, Digits>)
    requires Distinct(ids) && Covered(ids, keys)
    requires forall i :: i in indices ==> i < |ids|
    requires forall i, j :: i in indices && j in indices && i < j ==> Less(keys[ids[i]], keys[ids[j]])
    ensures IncreasingAlong(Select(ids, Image(ids, indices)), keys)
    decreases |ids|
  {
    if ids == [] {
    } else {
      var last := |ids| - 1;
      var front := set i | i in indices && i < last;
      SelectIncreasing(ids[..last], front, keys);
      var keep := Image(ids, indices);
      SelectFront(ids[..last], keep, Image(ids[..last], front));
      if ids[last] in keep {
        SelectedLieBelow(ids, indices, keys);
        AppendIncreasing(Select(ids[..last], keep), ids[last], keys);
      }
    }
  }

  /** Survivors at increasing ranks have increasing keys along any order-preserving selection. */
  lemma KeptKeysIncrease(desired: seq<Id>, existing: map<Id, Digits>)
    requires Distinct(desired)
    ensures KeptIds(desired, existing) <= Elements(Survivors(desired, existing))
    ensures IncreasingAlong(Select(desired, KeptIds(desired, existing)), existing)
    ensures |KeptIds(desired, existing)| == |Longest(GroupRanks(desired, existing))|
  {
    var survivors, ranks := Survivors(desired, existing), GroupRanks(desired, existing);
    var kept := KeptIds(desired, existing);
    GroupRanksOrder(desired, existing);
    LongestIsLongest(ranks);
    SelectKeepsDistinct(desired, existing.Keys);
    SelectIncreasing(survivors, Longest(ranks), existing);
    SelectTwice(desired, existing.Keys, kept);
    ImageSize(survivors, Longest(ranks));
    assert kept == Image(survivors, Longest(ranks));
  }

  lemma SameSelection(desired: seq<Id>, survivors: seq<Id>, sorted: seq<Id>, kept: set<Id>)
    requires forall x :: x in sorted <==> x in survivors
    requires forall x :: x in survivors ==> x in desired
    requires kept <= Elements(survivors)
    ensures forall x :: x in sorted && x in kept ==> x in Select(desired, kept)
    ensures Elements(Select(sorted, kept)) == Elements(Select(desired, kept))
  {
    SelectMembers(desired, kept);
    SelectMembers(sorted, kept);
    forall x
      ensures x in Select(sorted, kept) <==> x in kept
      ensures x in Select(desired, kept) <==> x in kept
    {
      if x in kept { assert x in survivors && x in sorted && x in desired; }
    }
  }

  lemma EarlierLieBelow(sorted: seq<Id>, keep: set<Id>, other: seq<Id>, keys: map<Id, Digits>)
    requires Covered(sorted, keys) && SortedByKey(sorted, keys) && Distinct(sorted) && sorted != []
    requires IncreasingAlong(other, keys) && forall x :: x in sorted && x in keep ==> x in other
    requires sorted[|sorted| - 1] in keep
    ensures AllBelow(Select(sorted[..|sorted| - 1], keep), keys, keys[sorted[|sorted| - 1]])
  {
    var last := |sorted| - 1;
    var front := Select(sorted[..last], keep);
    assert sorted[last] in other;
    forall p | 0 <= p < |front|
      ensures front[p] in keys && Less(keys[front[p]], keys[sorted[last]])
    {
      SelectMembers(sorted[..last], keep);
      var i :| 0 <= i < last && sorted[..last][i] == front[p];
      assert sorted[i] == front[p] && sorted[i] in other;
      Trichotomy(keys[sorted[i]], keys[sorted[last]]);
    }
  }

  /** Sorted, and no two keys equal: strictly increasing. */
  lemma {:induction false} SortedSelectionIncreases(sorted: seq<Id>, keep: set<Id>, other: seq<Id>, keys: map<Id, Digits>)
    requires Covered(sorted, keys) && SortedByKey(sorted, keys) && Distinct(sorted)
    requires IncreasingAlong(other, keys) && forall x :: x in sorted && x in keep ==> x in other
    ensures IncreasingAlong(Select(sorted, keep), keys)
    decreases |sorted|
  {
    if sorted == [] {
    } else {
      var last := |sorted| - 1;
      SortedSelectionIncreases(sorted[..last], keep, other, keys);
      SelectMembers(sorted[..last], keep);
      if sorted[last] in keep {
        EarlierLieBelow(sorted, keep, other, keys);
        AppendIncreasing(Select(sorted[..last], keep), sorted[last], keys);
      }
    }
  }

  /** The kept rows come in the same order by position and by key. */
  lemma KeptInOrder(desired: seq<Id>, existing: map<Id, Digits>)
    requires Distinct(desired)
    ensures var kept := KeptIds(desired, existing);
            Select(SortByKey(Survivors(desired, existing), existing), kept) == Select(desired, kept)
  {
    var survivors := Survivors(desired, existing);
    var kept := KeptIds(desired, existing);
    var sorted := SortByKey(survivors, existing);
    KeptKeysIncrease(desired, existing);
    SelectKeepsDistinct(desired, existing.Keys);
    SortIsSorted(survivors, existing);
    SameSelection(desired, survivors, sorted, kept);
    SortedSelectionIncreases(sorted, kept, Select(desired, kept), existing);
    IncreasingListIsUnique(Select(sorted, kept), Select(desired, kept), existing);
  }

  // ----- optimality

  lemma UnchangedIsIncreasing(desired: seq<Id>, existing: map<Id, Digits>, other: map<Id, Digits>, indices: set<nat>)
    requires Distinct(desired) && IncreasingAlong(Survivors(desired, existing), other)
    requires var survivors := Survivors(desired, existing);
             forall i :: i in indices ==> i < |survivors| && survivors[i] in Unchanged(desired, existing, other)
    ensures Increasing(GroupRanks(desired, existing), indices)
  {
    GroupRanksOrder(desired, existing);
  }

  lemma ImageOfPositions(ids: seq<Id>, chosen: set<Id>, indices: set<nat>)
    requires indices == set i: nat | i < |ids| && ids[i] in chosen
    requires forall id :: id in chosen ==> id in ids
    ensures Image(ids, indices) == chosen
  {
    forall id | id in chosen
      ensures id in Image(ids, indices)
    {
      var i :| 0 <= i < |ids| && ids[i] == id;
      assert i in indices;
    }
  }

  /** No strictly increasing assignment leaves more stored keys unchanged than the kept rows number. */
  lemma NoAssignmentKeepsMore(desired: seq<Id>, existing: map<Id, Digits>, other: map<Id, Digits>)
    requires Distinct(desired) && IncreasingAlong(desired, other)
    ensures |Unchanged(desired, existing, other)| <= |KeptIds(desired, existing)|
  {
    var survivors, ranks := Survivors(desired, existing), GroupRanks(desired, existing);
    var same := Unchanged(desired, existing, other);
    var indices := set i: nat | i < |survivors| && survivors[i] in same;
    SelectKeepsDistinct(desired, existing.Keys);
    SelectKeepsIncreasing(desired, existing.Keys, other);
    UnchangedIsIncreasing(desired, existing, other, indices);
    LongestIsLongest(ranks);
    KeptKeysIncrease(desired, existing);
    ImageSize(survivors, indices);
    ImageOfPositions(survivors, same, indices);
  }
}
