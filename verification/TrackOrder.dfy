/** Moving and adding sequence tracks (src/sequences.ts), the users of order keys. */
module TrackOrder {
  import opened Lexicographic
  import opened OrderIntegers
  import opened OrderKeys
  import opened LongestIncreasing
  import opened KeptRows

  datatype TrackKind = Video | Audio | Caption

  /** A row of sequence_tracks, as far as the ordering of tracks reads it. */
  datatype TrackRow = TrackRow(sequenceId: int, kind: TrackKind, orderKey: Digits)

  datatype TrackError = TrackNotFound | KeyFault(error: KeyError)

  type Rows = map<Id, TrackRow>

  predicate IsSibling(rows: Rows, id: Id, sequenceId: int, kind: TrackKind) {
    id in rows && rows[id].sequenceId == sequenceId && rows[id].kind == kind
  }

  /** ORDER BY order_key, track_id. */
  predicate RowBefore(rows: Rows, a: Id, b: Id)
    requires a in rows && b in rows
  {
    Less(rows[a].orderKey, rows[b].orderKey) || (rows[a].orderKey == rows[b].orderKey && a < b)
  }

  /** The answer of the query for the tracks of one sequence and kind. */
  ghost predicate ReadsAs(rows: Rows, sequenceId: int, kind: TrackKind, order: seq<Id>) {
    && (forall id :: id in Elements(order) <==> IsSibling(rows, id, sequenceId, kind))
    && (forall i :: 0 <= i < |order| ==> order[i] in rows)
    && (forall i, j :: 0 <= i < j < |order| ==> RowBefore(rows, order[i], order[j]))
  }

  ghost predicate SortedRows(rows: Rows, a: seq<Id>) {
    && (forall i :: 0 <= i < |a| ==> a[i] in rows)
    && forall i, j :: 0 <= i < j < |a| ==> RowBefore(rows, a[i], a[j])
  }

  lemma SameLast(rows: Rows, a: seq<Id>, b: seq<Id>)
    requires SortedRows(rows, a) && SortedRows(rows, b) && Elements(a) == Elements(b) && a != [] && b != []
    ensures a[|a| - 1] == b[|b| - 1]
  {
    var x, y := a[|a| - 1], b[|b| - 1];
    assert x in Elements(a) && y in Elements(b);
    Trichotomy(rows[x].orderKey, rows[y].orderKey);
  }

  lemma RestOf(rows: Rows, a: seq<Id>)
    requires SortedRows(rows, a) && a != []
    ensures Elements(a[..|a| - 1]) == Elements(a) - {a[|a| - 1]}
  {
    var m := |a| - 1;
    assert a == a[..m] + [a[m]];
    forall i | 0 <= i < m
      ensures a[i] != a[m]
    {
      Trichotomy(rows[a[i]].orderKey, rows[a[m]].orderKey);
    }
  }

  lemma {:induction false} SameOrder(rows: Rows, a: seq<Id>, b: seq<Id>)
    requires SortedRows(rows, a) && SortedRows(rows, b) && Elements(a) == Elements(b)
    ensures a == b
    decreases |a|
  {
    assert (a == [] <==> Elements(a) == {}) && (b == [] <==> Elements(b) == {}) by {
      if a != [] { assert a[0] in Elements(a); }
      if b != [] { assert b[0] in Elements(b); }
    }
    if a == [] {
    } else {
      SameLast(rows, a, b);
      RestOf(rows, a);
      RestOf(rows, b);
      SameOrder(rows, a[..|a| - 1], b[..|b| - 1]);
      assert a == a[..|a| - 1] + [a[|a| - 1]] && b == b[..|b| - 1] + [b[|b| - 1]];
    }
  }

  /** The query has only one answer. */
  lemma {:induction false} ReadOrderIsUnique(rows: Rows, sequenceId: int, kind: TrackKind, a: seq<Id>, b: seq<Id>)
    requires ReadsAs(rows, sequenceId, kind, a) && ReadsAs(rows, sequenceId, kind, b)
    ensures a == b
  {
    assert Elements(a) == Elements(b) by {
      forall id
        ensures id in Elements(a) <==> id in Elements(b)
      {
        assert id in Elements(a) <==> IsSibling(rows, id, sequenceId, kind);
      }
    }
    SameOrder(rows, a, b);
  }

  // ----- positions

  function Without(order: seq<Id>, id: Id): seq<Id> {
    if order == [] then []
    else
      var last := |order| - 1;
      Without(order[..last], id) + (if order[last] == id then [] else [order[last]])
  }

  function Clamp(ordinal: int, most: nat): (r: nat)
    ensures r <= most
  {
    if ordinal < 0 then 0 else if ordinal > most then most else ordinal
  }

  /** The listing without the track, and the track put back at the clamped ordinal. */
  function Moved(order: seq<Id>, id: Id, toOrdinal: int): seq<Id> {
    var others := Without(order, id);
    var target := Clamp(toOrdinal, |others|);
    others[..target] + [id] + others[target..]
  }

  lemma {:induction false} NotThere(order: seq<Id>, id: Id)
    requires forall j :: 0 <= j < |order| ==> order[j] != id
    ensures Without(order, id) == order
    decreases |order|
  {
    if order == [] {
    } else {
      var last := |order| - 1;
      NotThere(order[..last], id);
      assert order == order[..last] + [order[last]];
    }
  }

  lemma {:induction false} WithoutSplits(order: seq<Id>, id: Id, i: nat)
    requires Distinct(order) && i < |order| && order[i] == id
    ensures Without(order, id) == order[..i] + order[i + 1..]
    decreases |order|
  {
    var last := |order| - 1;
    if i < last {
      WithoutSplits(order[..last], id, i);
      assert order[i + 1..] == order[..last][i + 1..] + [order[last]];
      assert order[..last][..i] == order[..i];
    } else {
      NotThere(order[..last], id);
      assert order[i + 1..] == [];
    }
  }

  /** The track stands at the ordinal asked for, or at the nearer end, and the others as before. */
  lemma MovedMeans(order: seq<Id>, id: Id, toOrdinal: int, i: nat)
    requires Distinct(order) && i < |order| && order[i] == id
    ensures var moved, last := Moved(order, id, toOrdinal), |order| - 1;
            var at := if toOrdinal < 0 then 0 else if last < toOrdinal then last else toOrdinal;
            |moved| == |order| && moved[at] == id && moved[..at] + moved[at + 1..] == order[..i] + order[i + 1..]
  {
    WithoutSplits(order, id, i);
    var others := Without(order, id);
    var at := Clamp(toOrdinal, |others|);
    assert others == others[..at] + others[at..];
  }

  // ----- duplicate keys

  /** new Set(keys.values()) */
  function KeySet(ids: seq<Id>, keys: map<Id, Digits>): set<Digits>
    requires Covered(ids, keys)
  {
    if ids == [] then {} else KeySet(ids[..|ids| - 1], keys) + {keys[ids[|ids| - 1]]}
  }

  lemma {:induction false} KeySetMembers(ids: seq<Id>, keys: map<Id, Digits>)
    requires Covered(ids, keys)
    ensures forall k :: k in KeySet(ids, keys) <==> exists i :: 0 <= i < |ids| && keys[ids[i]] == k
    decreases |ids|
  {
    if ids == [] {
    } else {
      var m := |ids| - 1;
      KeySetMembers(ids[..m], keys);
      forall k
        ensures k in KeySet(ids, keys) <==> exists i :: 0 <= i < |ids| && keys[ids[i]] == k
      {
        if k in KeySet(ids[..m], keys) {
          var i :| 0 <= i < m && keys[ids[..m][i]] == k;
          assert keys[ids[i]] == k;
        }
        if i :| 0 <= i < m && keys[ids[i]] == k {
          assert keys[ids[..m][i]] == k;
        }
      }
    }
  }

  ghost predicate DistinctKeysTo(ids: seq<Id>, keys: map<Id, Digits>, n: nat) {
    n <= |ids| && Covered(ids, keys) && forall i, j :: 0 <= i < j < n ==> keys[ids[i]] != keys[ids[j]]
  }

  lemma NewKeyInSet(ids: seq<Id>, keys: map<Id, Digits>)
    requires Covered(ids, keys) && ids != []
    ensures var m := |ids| - 1;
            keys[ids[m]] in KeySet(ids[..m], keys) <==> exists i :: 0 <= i < m && keys[ids[i]] == keys[ids[m]]
  {
    var m := |ids| - 1;
    KeySetMembers(ids[..m], keys);
    if keys[ids[m]] in KeySet(ids[..m], keys) {
      var i :| 0 <= i < m && keys[ids[..m][i]] == keys[ids[m]];
      assert keys[ids[i]] == keys[ids[m]];
    }
    if i :| 0 <= i < m && keys[ids[i]] == keys[ids[m]] {
      assert keys[ids[..m][i]] == keys[ids[m]];
    }
  }

  lemma DistinctPrefix(ids: seq<Id>, keys: map<Id, Digits>, m: nat)
    requires Covered(ids, keys) && m <= |ids|
    ensures DistinctKeysTo(ids[..m], keys, m) <==> DistinctKeysTo(ids, keys, m)
  {
  }

  /** The keys are distinct exactly when those before the last are and the last one is new. */
  lemma DistinctLast(ids: seq<Id>, keys: map<Id, Digits>)
    requires Covered(ids, keys) && ids != []
    ensures var m := |ids| - 1;
            DistinctKeysTo(ids, keys, |ids|) <==> DistinctKeysTo(ids[..m], keys, m) && keys[ids[m]] !in KeySet(ids[..m], keys)
  {
    NewKeyInSet(ids, keys);
    DistinctPrefix(ids, keys, |ids| - 1);
  }

  lemma OneMore(s: set<Digits>, x: Digits)
    ensures |s + {x}| == |s| + if x in s then 0 else 1
  {
    if x in s { assert s + {x} == s; }
  }

  /** The set is smaller than the list exactly when two rows share a key. */
  lemma {:induction false} KeySetSize(ids: seq<Id>, keys: map<Id, Digits>)
    requires Covered(ids, keys)
    ensures |KeySet(ids, keys)| <= |ids|
    ensures |KeySet(ids, keys)| == |ids| <==> DistinctKeysTo(ids, keys, |ids|)
    decreases |ids|
  {
    if ids == [] {
    } else {
      hide DistinctKeysTo;
      var m := |ids| - 1;
      KeySetSize(ids[..m], keys);
      DistinctLast(ids, keys);
      OneMore(KeySet(ids[..m], keys), keys[ids[m]]);
    }
  }

  // ----- the front of a repaired list

  lemma {:induction false} EverythingKept(order: seq<Id>, keep: set<Id>)
    requires forall i :: 0 <= i < |order| ==> order[i] in keep
    ensures Select(order, keep) == order
    decreases |order|
  {
    if order == [] {
    } else {
      EverythingKept(order[..|order| - 1], keep);
      assert order == order[..|order| - 1] + [order[|order| - 1]];
    }
  }

  lemma SurvivorsAreAll(order: seq<Id>, keys: map<Id, Digits>)
    requires Covered(order, keys)
    ensures Survivors(order, keys) == order
    decreases |order|
  {
    EverythingKept(order, keys.Keys);
  }

  lemma AddedElement(a: set<nat>, x: nat)
    ensures x in a || |a + {x}| == |a| + 1
  {
  }

  /** A longest increasing subsequence holds the least value. */
  lemma LeastIsKept(s: seq<int>) returns (i: nat)
    requires s != [] && forall j :: 0 <= j < |s| ==> s[0] <= s[j]
    ensures i in Longest(s) && i < |s| && s[i] == s[0]
  {
    LongestIsLongest(s);
    var more := Longest(s) + {0};
    AddedElement(Longest(s), 0);
    if Increasing(s, more) {
      i := 0;
    } else {
      i :| i in Longest(s) && s[i] == s[0];
    }
  }

  /** Of two equal values in front, the chosen subsequence never takes the first. */
  lemma {:induction false} FirstOfEqualsDropped(s: seq<int>, r: nat, n: nat)
    requires 2 <= n <= |s| && s[0] == s[1]
    ensures 0 !in Chain(s, r, n)
    decreases r
  {
    assert Rank(s, 0) == 1 && Rank(s, 1) == 1;
    var j := LastOfRank(s, r, n);
    LastOfRankIsLast(s, r, n);
    if r == 1 {
      assert j != 0;
    } else if r > 1 && j >= 0 {
      assert j >= 2;
      FirstOfEqualsDropped(s, r - 1, j);
    }
  }

  /** Two rows in front share their key. */
  predicate TwoInFront(order: seq<Id>, keys: map<Id, Digits>) {
    |order| >= 2 && order[0] in keys && order[1] in keys && keys[order[0]] == keys[order[1]]
  }

  ghost predicate SortedByKeys(order: seq<Id>, keys: map<Id, Digits>) {
    && Covered(order, keys) && Distinct(order)
    && (forall i :: 0 <= i < |order| ==> IsOrderKey(keys[order[i]]))
    && forall i, j :: 0 <= i < j < |order| ==> !Less(keys[order[j]], keys[order[i]])
  }

  lemma LeastInFront(order: seq<Id>, keys: map<Id, Digits>, kept: set<Id>, keptInOrder: seq<Id>, x: Id)
    requires SortedByKeys(order, keys) && order != [] && IncreasingAlong(keptInOrder, keys)
    requires forall i :: 0 <= i < |keptInOrder| ==> keptInOrder[i] in order && keptInOrder[i] in kept
    requires x in keptInOrder && x in keys && keys[x] == keys[order[0]]
    ensures keptInOrder != [] && keys[keptInOrder[0]] == keys[order[0]]
  {
    var p :| 0 <= p < |keptInOrder| && keptInOrder[p] == x;
    assert p > 0 ==> Less(keys[keptInOrder[0]], keys[x]);
    var q :| 0 <= q < |order| && order[q] == keptInOrder[0];
    Trichotomy(keys[keptInOrder[0]], keys[order[0]]);
  }

  lemma FirstIsDropped(order: seq<Id>, keys: map<Id, Digits>)
    requires SortedByKeys(order, keys) && Survivors(order, keys) == order && TwoInFront(order, keys)
    ensures order[0] !in KeptIds(order, keys)
  {
    var ranks := GroupRanks(order, keys);
    GroupRanksOrder(order, keys);
    Trichotomy(keys[order[0]], keys[order[1]]);
    FirstOfEqualsDropped(ranks, MaxRank(ranks, |ranks|), |ranks|);
  }

  lemma SharedKeyIsSecond(order: seq<Id>, keys: map<Id, Digits>, i: nat)
    requires SortedByKeys(order, keys) && 0 < i < |order| && keys[order[i]] == keys[order[0]]
    ensures TwoInFront(order, keys)
  {
    Trichotomy(keys[order[0]], keys[order[1]]);
  }

  lemma FirstKeptIff(order: seq<Id>, keys: map<Id, Digits>, i: nat)
    requires SortedByKeys(order, keys) && order != [] && Survivors(order, keys) == order
    requires i in Longest(GroupRanks(order, keys)) && i < |order| && keys[order[i]] == keys[order[0]]
    ensures order[0] in KeptIds(order, keys) <==> !TwoInFront(order, keys)
  {
    if TwoInFront(order, keys) {
      FirstIsDropped(order, keys);
    } else if i > 0 {
      SharedKeyIsSecond(order, keys, i);
    } else {
      assert order[0] in KeptIds(order, keys);
    }
  }

  lemma UniqueInFront(order: seq<Id>, keys: map<Id, Digits>, keptInOrder: seq<Id>)
    requires SortedByKeys(order, keys) && order != [] && IncreasingAlong(keptInOrder, keys) && keptInOrder != []
    requires order[0] in keptInOrder && keys[keptInOrder[0]] == keys[order[0]]
    ensures keptInOrder[0] == order[0]
  {
    var p :| 0 <= p < |keptInOrder| && keptInOrder[p] == order[0];
    Trichotomy(keys[keptInOrder[0]], keys[order[0]]);
  }

  /** Which row is kept in front: one with the least key, the very first row unless it shares that key. */
  lemma FrontIsKept(order: seq<Id>, keys: map<Id, Digits>)
    requires SortedByKeys(order, keys) && order != []
    ensures var kept := KeptIds(order, keys);
            var keptInOrder := Select(order, kept);
            && keptInOrder != [] && keptInOrder[0] in keys && keys[keptInOrder[0]] == keys[order[0]]
            && (order[0] in kept <==> !TwoInFront(order, keys))
            && (order[0] == keptInOrder[0] <==> !TwoInFront(order, keys))
  {
    SurvivorsAreAll(order, keys);
    GroupRanksOrder(order, keys);
    var ranks := GroupRanks(order, keys);
    var kept := KeptIds(order, keys);
    var keptInOrder := Select(order, kept);
    LongestIsLongest(ranks);
    var i := LeastIsKept(ranks);
    assert order[i] in kept;
    Trichotomy(keys[order[0]], keys[order[i]]);
    SelectMembers(order, kept);
    KeptKeysIncrease(order, keys);
    LeastInFront(order, keys, kept, keptInOrder, order[i]);
    FirstKeptIff(order, keys, i);
    if order[0] in kept {
      assert order[0] in keptInOrder;
      UniqueInFront(order, keys, keptInOrder);
    }
  }
}
