/**
 Reconciling an ordered list of rows with the keys they have stored (second half of
 reconcileOrderKeys, src/order-keys.ts): kept rows keep their key, the others get a fresh one.
 */
module Reconcile {
  import opened Wrappers
  import opened Collections
  import opened Lexicographic
  import opened OrderIntegers
  import opened OrderKeys
  import opened LongestIncreasing
  import opened KeptRows

  /** The key of the row before position p. */
  function PreviousKey(desired: seq<Id>, result: map<Id, Digits>, p: nat): Option<Digits>
    requires p <= |desired|
  {
    if p > 0 && desired[p - 1] in result then Some(result[desired[p - 1]]) else None
  }

  /** How many of the first n rows are kept. */
  function KeptBefore(desired: seq<Id>, kept: set<Id>, n: nat): nat
    requires n <= |desired|
  {
    if n == 0 then 0 else KeptBefore(desired, kept, n - 1) + (if desired[n - 1] in kept then 1 else 0)
  }

  /** The stored key of the first kept row behind position p. */
  function NextKept(desired: seq<Id>, existing: map<Id, Digits>, kept: set<Id>, keptInOrder: seq<Id>, p: nat): Option<Digits>
    requires p <= |desired|
  {
    var j := KeptBefore(desired, kept, p);
    if j < |keptInOrder| && keptInOrder[j] in existing then Some(existing[keptInOrder[j]]) else None
  }

  /** The other rows take a key between the row before them and the kept row behind them. */
  ghost predicate Minted(desired: seq<Id>, n: nat, existing: map<Id, Digits>, kept: set<Id>, keptInOrder: seq<Id>, result: map<Id, Digits>) {
    n <= |desired| &&
    forall p :: 0 <= p < n && desired[p] !in kept ==>
      && desired[p] in result
      && OrderKeyBetween(PreviousKey(desired, result, p), NextKept(desired, existing, kept, keptInOrder, p)) == Ok(result[desired[p]])
  }

  /** Fresh and kept keys for the first n rows: valid, in order, kept where they should be. */
  ghost predicate Assigned(desired: seq<Id>, n: nat, existing: map<Id, Digits>, kept: set<Id>, result: map<Id, Digits>) {
    && n <= |desired| && result.Keys == (set p | 0 <= p < n :: desired[p])
    && (forall p :: 0 <= p < n ==> desired[p] in result && IsOrderKey(result[desired[p]]))
    && (forall p :: 0 <= p < n && desired[p] in kept && desired[p] in existing ==> result[desired[p]] == existing[desired[p]])
    && (forall p, q :: 0 <= p < q < n ==> Less(result[desired[p]], result[desired[q]]))
  }

  /** The kept rows are in key order, and listed in desired order. */
  ghost predicate KeptList(desired: seq<Id>, existing: map<Id, Digits>, kept: set<Id>, keptInOrder: seq<Id>) {
    && keptInOrder == Select(desired, kept)
    && IncreasingAlong(keptInOrder, existing)
    && forall j :: 0 <= j < |keptInOrder| ==> keptInOrder[j] in kept && IsOrderKey(existing[keptInOrder[j]])
  }

  predicate NoRoomFor(desired: seq<Id>, existing: map<Id, Digits>, keptInOrder: seq<Id>) {
    && desired != [] && keptInOrder != [] && desired[0] != keptInOrder[0]
    && keptInOrder[0] in existing && existing[keptInOrder[0]] == SMALLEST
  }

  /** The first row is to be re-keyed, but the first kept row already holds the least key there is. */
  predicate NoRoomInFront(desired: seq<Id>, existing: map<Id, Digits>) {
    NoRoomFor(desired, existing, Select(desired, KeptIds(desired, existing)))
  }

  /** The kept rows from `keptIndex` on all lie above the key assigned last. */
  ghost predicate LieAbove(previous: Option<Digits>, existing: map<Id, Digits>, keptInOrder: seq<Id>, keptIndex: nat) {
    previous.Some? ==>
      forall j :: keptIndex <= j < |keptInOrder| ==> keptInOrder[j] in existing && Less(previous.value, existing[keptInOrder[j]])
  }

  /** The first kept key from a position on that is above the key assigned last. */
  function FirstAbove(existing: map<Id, Digits>, keptInOrder: seq<Id>, index: nat, previous: Option<Digits>): Option<Digits>
    requires index <= |keptInOrder| && Covered(keptInOrder, existing)
    decreases |keptInOrder| - index
  {
    if index == |keptInOrder| then None
    else if previous.None? || Less(previous.value, existing[keptInOrder[index]]) then Some(existing[keptInOrder[index]])
    else FirstAbove(existing, keptInOrder, index + 1, previous)
  }

  method NextKeptKey(existing: map<Id, Digits>, keptInOrder: seq<Id>, keptIndex: nat, previous: Option<Digits>)
    returns (next: Option<Digits>)
    requires keptIndex <= |keptInOrder| && Covered(keptInOrder, existing)
    ensures next == FirstAbove(existing, keptInOrder, keptIndex, previous)
  {
    var index := keptIndex;
    while index < |keptInOrder|
      invariant keptIndex <= index <= |keptInOrder|
      invariant FirstAbove(existing, keptInOrder, keptIndex, previous) == FirstAbove(existing, keptInOrder, index, previous)
    {
      var candidate := existing[keptInOrder[index]];
      if previous.None? || Less(previous.value, candidate) {
        return Some(candidate);
      }
      index := index + 1;
    }
    return None;
  }

  // ----- one row at a time

  lemma {:induction false} KeptCount(desired: seq<Id>, kept: set<Id>, n: nat)
    requires n <= |desired|
    ensures |Select(desired[..n], kept)| == KeptBefore(desired, kept, n)
    decreases n
  {
    if n == 0 {
    } else {
      KeptCount(desired, kept, n - 1);
      assert desired[..n][..n - 1] == desired[..n - 1];
    }
  }

  lemma SelectOne(id: Id, keep: set<Id>)
    ensures Select([id], keep) == if id in keep then [id] else []
  {
    var one := [id];
    assert one[..|one| - 1] == [];
    assert Select(one[..|one| - 1], keep) == [];
  }

  lemma SelectAround(ids: seq<Id>, keep: set<Id>, i: nat)
    requires i < |ids|
    ensures Select(ids, keep) == Select(ids[..i], keep) + (if ids[i] in keep then [ids[i]] else []) + Select(ids[i + 1..], keep)
  {
    assert ids == ids[..i] + [ids[i]] + ids[i + 1..];
    SelectAppend(ids[..i] + [ids[i]], ids[i + 1..], keep);
    SelectAppend(ids[..i], [ids[i]], keep);
    SelectOne(ids[i], keep);
  }

  /** Where a kept row sits in the list of kept rows. */
  lemma KeptAt(desired: seq<Id>, kept: set<Id>, i: nat)
    requires i < |desired|
    ensures KeptBefore(desired, kept, i) <= |Select(desired, kept)|
    ensures desired[i] in kept ==>
      KeptBefore(desired, kept, i) < |Select(desired, kept)| && Select(desired, kept)[KeptBefore(desired, kept, i)] == desired[i]
  {
    KeptCount(desired, kept, i);
    SelectAround(desired, kept, i);
  }

  /** A kept row takes its stored key: the later kept keys are above it. */
  lemma KeptStep(desired: seq<Id>, existing: map<Id, Digits>, kept: set<Id>, keptInOrder: seq<Id>, i: nat, previous: Option<Digits>)
    requires KeptList(desired, existing, kept, keptInOrder) && i < |desired| && desired[i] in kept
    requires LieAbove(previous, existing, keptInOrder, KeptBefore(desired, kept, i))
    ensures desired[i] in existing
    ensures var key := existing[desired[i]];
            && IsOrderKey(key) && (previous.Some? ==> Less(previous.value, key))
            && LieAbove(Some(key), existing, keptInOrder, KeptBefore(desired, kept, i + 1))
    ensures i == 0 ==> !NoRoomFor(desired, existing, keptInOrder)
  {
    KeptAt(desired, kept, i);
    assert keptInOrder[KeptBefore(desired, kept, i)] == desired[i];
  }

  lemma BelowKept(k: Digits, existing: map<Id, Digits>, keptInOrder: seq<Id>, j: nat)
    requires IncreasingAlong(keptInOrder, existing) && j < |keptInOrder| && Less(k, existing[keptInOrder[j]])
    ensures LieAbove(Some(k), existing, keptInOrder, j)
  {
    forall m | j < m < |keptInOrder|
      ensures Less(k, existing[keptInOrder[m]])
    {
      Transitive(k, existing[keptInOrder[j]], existing[keptInOrder[m]]);
    }
  }

  /** Any other row takes a key between the last one assigned and the next kept one. */
  lemma MintStep(desired: seq<Id>, existing: map<Id, Digits>, kept: set<Id>, keptInOrder: seq<Id>, i: nat, previous: Option<Digits>)
    requires KeptList(desired, existing, kept, keptInOrder) && i < |desired| && desired[i] !in kept
    requires LieAbove(previous, existing, keptInOrder, KeptBefore(desired, kept, i))
    requires (previous.None? <==> i == 0) && (previous.Some? ==> IsOrderKey(previous.value))
    ensures KeptBefore(desired, kept, i) <= |keptInOrder|
    ensures FirstAbove(existing, keptInOrder, KeptBefore(desired, kept, i), previous) == NextKept(desired, existing, kept, keptInOrder, i)
    ensures var k := OrderKeyBetween(previous, FirstAbove(existing, keptInOrder, KeptBefore(desired, kept, i), previous));
            && (k.Err? <==> i == 0 && NoRoomFor(desired, existing, keptInOrder))
            && (k.Err? ==> k.error == NoRoom)
            && (k.Ok? ==> IsOrderKey(k.value) && (previous.Some? ==> Less(previous.value, k.value))
                          && LieAbove(Some(k.value), existing, keptInOrder, KeptBefore(desired, kept, i + 1)))
  {
    KeptAt(desired, kept, i);
    var j := KeptBefore(desired, kept, i);
    var next := FirstAbove(existing, keptInOrder, j, previous);
    assert next == if j == |keptInOrder| then None else Some(existing[keptInOrder[j]]);
    OrderKeyBetweenCorrect(previous, next);
    var k := OrderKeyBetween(previous, next);
    if k.Ok? && j < |keptInOrder| { BelowKept(k.value, existing, keptInOrder, j); }
  }

  /** One turn of the assigning loop: the stored key of a kept row, or a new one. */
  method AssignKey(desired: seq<Id>, existing: map<Id, Digits>, kept: set<Id>, keptInOrder: seq<Id>,
                   i: nat, keptIndex: nat, previous: Option<Digits>)
    returns (r: Result<Digits, KeyError>)
    requires KeptList(desired, existing, kept, keptInOrder) && i < |desired|
    requires keptIndex == KeptBefore(desired, kept, i) && LieAbove(previous, existing, keptInOrder, keptIndex)
    requires (previous.None? <==> i == 0) && (previous.Some? ==> IsOrderKey(previous.value))
    ensures desired[i] in kept ==> desired[i] in existing && r == Ok(existing[desired[i]])
    ensures desired[i] !in kept ==> r == OrderKeyBetween(previous, NextKept(desired, existing, kept, keptInOrder, i))
    ensures r.Ok? ==> IsOrderKey(r.value) && (previous.Some? ==> Less(previous.value, r.value))
    ensures r.Ok? ==> LieAbove(Some(r.value), existing, keptInOrder, KeptBefore(desired, kept, i + 1))
    ensures r.Err? ==> r.error == NoRoom && i == 0
    ensures i == 0 ==> (r.Err? <==> NoRoomFor(desired, existing, keptInOrder))
  {
    if desired[i] in kept {
      KeptStep(desired, existing, kept, keptInOrder, i, previous);
      r := Ok(existing[desired[i]]);
    } else {
      MintStep(desired, existing, kept, keptInOrder, i, previous);
      var next := NextKeptKey(existing, keptInOrder, keptIndex, previous);
      r := OrderKeyBetween(previous, next);
    }
  }

  // ----- the whole list

  ghost predicate AssignedUpTo(desired: seq<Id>, n: nat, existing: map<Id, Digits>, kept: set<Id>, keptInOrder: seq<Id>,
                               result: map<Id, Digits>) {
    Assigned(desired, n, existing, kept, result) && Minted(desired, n, existing, kept, keptInOrder, result)
  }

  lemma ExtendKeys(desired: seq<Id>, i: nat, result: map<Id, Digits>, key: Digits)
    requires Distinct(desired) && i < |desired| && result.Keys == (set p | 0 <= p < i :: desired[p])
    ensures result[desired[i] := key].Keys == (set p | 0 <= p < i + 1 :: desired[p])
    ensures forall p :: 0 <= p < i ==> desired[p] in result && result[desired[i] := key][desired[p]] == result[desired[p]]
  {
  }

  lemma ExtendOrder(desired: seq<Id>, i: nat, result: map<Id, Digits>, key: Digits)
    requires i < |desired| && forall p :: 0 <= p < i ==> desired[p] in result
    requires forall p, q :: 0 <= p < q < i ==> Less(result[desired[p]], result[desired[q]])
    requires i > 0 ==> Less(result[desired[i - 1]], key)
    ensures forall p :: 0 <= p < i ==> Less(result[desired[p]], key)
  {
    forall p | 0 <= p < i
      ensures Less(result[desired[p]], key)
    {
      if p < i - 1 { Transitive(result[desired[p]], result[desired[i - 1]], key); }
    }
  }

  lemma ExtendMinted(desired: seq<Id>, i: nat, existing: map<Id, Digits>, kept: set<Id>, keptInOrder: seq<Id>,
                     result: map<Id, Digits>, key: Digits)
    requires Distinct(desired) && i < |desired| && Minted(desired, i, existing, kept, keptInOrder, result)
    requires forall p :: 0 <= p < i ==> desired[p] in result
    requires desired[i] !in kept ==>
      OrderKeyBetween(PreviousKey(desired, result, i), NextKept(desired, existing, kept, keptInOrder, i)) == Ok(key)
    ensures Minted(desired, i + 1, existing, kept, keptInOrder, result[desired[i] := key])
  {
    var result' := result[desired[i] := key];
    forall p | 0 <= p <= i
      ensures PreviousKey(desired, result', p) == PreviousKey(desired, result, p)
      ensures p < i ==> result'[desired[p]] == result[desired[p]]
    {
    }
  }

  /** One more key above the last one extends the assignment. */
  lemma ExtendAssigned(desired: seq<Id>, i: nat, existing: map<Id, Digits>, kept: set<Id>, keptInOrder: seq<Id>,
                       result: map<Id, Digits>, key: Digits)
    requires Distinct(desired) && i < |desired| && AssignedUpTo(desired, i, existing, kept, keptInOrder, result) && IsOrderKey(key)
    requires var previous := PreviousKey(desired, result, i); previous.Some? ==> Less(previous.value, key)
    requires desired[i] in kept ==> desired[i] in existing && key == existing[desired[i]]
    requires desired[i] !in kept ==>
      OrderKeyBetween(PreviousKey(desired, result, i), NextKept(desired, existing, kept, keptInOrder, i)) == Ok(key)
    ensures AssignedUpTo(desired, i + 1, existing, kept, keptInOrder, result[desired[i] := key])
    ensures PreviousKey(desired, result[desired[i] := key], i + 1) == Some(key)
  {
    ExtendKeys(desired, i, result, key);
    ExtendOrder(desired, i, result, key);
    ExtendMinted(desired, i, existing, kept, keptInOrder, result, key);
  }

  lemma AllKept(desired: seq<Id>, existing: map<Id, Digits>, kept: set<Id>, keptInOrder: seq<Id>)
    requires KeptList(desired, existing, kept, keptInOrder)
    ensures desired == [] ==> !NoRoomFor(desired, existing, keptInOrder)
  {
  }

  method AssignKeys(desired: seq<Id>, existing: map<Id, Digits>, kept: set<Id>, keptInOrder: seq<Id>)
    returns (r: Result<map<Id, Digits>, KeyError>)
    requires Distinct(desired) && KeptList(desired, existing, kept, keptInOrder)
    ensures r.Err? <==> NoRoomFor(desired, existing, keptInOrder)
    ensures r.Err? ==> r.error == NoRoom
    ensures r.Ok? ==> Assigned(desired, |desired|, existing, kept, r.value)
    ensures r.Ok? ==> Minted(desired, |desired|, existing, kept, keptInOrder, r.value)
  {
    var result: map<Id, Digits> := map[];
    var keptIndex := 0;
    var previous: Option<Digits> := None;
    for i := 0 to |desired|
      invariant AssignedUpTo(desired, i, existing, kept, keptInOrder, result)
      invariant previous == PreviousKey(desired, result, i)
      invariant keptIndex == KeptBefore(desired, kept, i)
      invariant LieAbove(previous, existing, keptInOrder, keptIndex)
      invariant 0 < i ==> !NoRoomFor(desired, existing, keptInOrder)
    {
      var key := AssignKey(desired, existing, kept, keptInOrder, i, keptIndex, previous);
      if key.Err? { return Err(key.error); }
      if desired[i] in kept { keptIndex := keptIndex + 1; }
      ExtendAssigned(desired, i, existing, kept, keptInOrder, result, key.value);
      result := result[desired[i] := key.value];
      previous := Some(key.value);
    }
    AllKept(desired, existing, kept, keptInOrder);
    return Ok(result);
  }

  lemma KeptRowsAreListed(desired: seq<Id>, existing: map<Id, Digits>)
    requires Distinct(desired) && ValidKeys(desired, existing)
    ensures var kept := KeptIds(desired, existing);
            && Select(SortByKey(Survivors(desired, existing), existing), kept) == Select(desired, kept)
            && KeptList(desired, existing, kept, Select(desired, kept))
  {
    var kept := KeptIds(desired, existing);
    var keptInOrder := Select(desired, kept);
    KeptInOrder(desired, existing);
    KeptKeysIncrease(desired, existing);
    SelectMembers(desired, kept);
    forall j | 0 <= j < |keptInOrder|
      ensures keptInOrder[j] in kept && IsOrderKey(existing[keptInOrder[j]])
    {
      var p :| 0 <= p < |desired| && desired[p] == keptInOrder[j];
    }
  }

  lemma KeptAreUnchanged(desired: seq<Id>, existing: map<Id, Digits>, result: map<Id, Digits>)
    requires Distinct(desired) && Assigned(desired, |desired|, existing, KeptIds(desired, existing), result)
    ensures KeptIds(desired, existing) <= Unchanged(desired, existing, result)
  {
    KeptKeysIncrease(desired, existing);
    forall id | id in KeptIds(desired, existing)
      ensures id in Unchanged(desired, existing, result)
    {
      assert id in Survivors(desired, existing);
      var p :| 0 <= p < |desired| && desired[p] == id;
    }
  }

  lemma KeepsMost(desired: seq<Id>, existing: map<Id, Digits>, result: map<Id, Digits>)
    requires Distinct(desired) && Assigned(desired, |desired|, existing, KeptIds(desired, existing), result)
    ensures forall other | IncreasingAlong(desired, other) ::
              |Unchanged(desired, existing, other)| <= |Unchanged(desired, existing, result)|
  {
    KeptAreUnchanged(desired, existing, result);
    SubsetSize(KeptIds(desired, existing), Unchanged(desired, existing, result));
    forall other | IncreasingAlong(desired, other)
      ensures |Unchanged(desired, existing, other)| <= |Unchanged(desired, existing, result)|
    {
      NoAssignmentKeepsMore(desired, existing, other);
    }
  }

  method ReconcileOrderKeys(desired: seq<Id>, existing: map<Id, Digits>) returns (r: Result<map<Id, Digits>, KeyError>)
    requires Distinct(desired) && ValidKeys(desired, existing)
    ensures r.Err? <==> NoRoomInFront(desired, existing)
    ensures r.Err? ==> r.error == NoRoom
    ensures r.Ok? ==> Assigned(desired, |desired|, existing, KeptIds(desired, existing), r.value)
    ensures r.Ok? ==> var kept := KeptIds(desired, existing);
              Minted(desired, |desired|, existing, kept, Select(desired, kept), r.value)
    ensures r.Ok? ==> forall other | IncreasingAlong(desired, other) ::
              |Unchanged(desired, existing, other)| <= |Unchanged(desired, existing, r.value)|
  {
    var survivors := Survivors(desired, existing);
    var byKey := SortByKey(survivors, existing);
    var keptIndices := LongestIncreasingSubsequence(GroupRanks(desired, existing));
    var kept := Image(survivors, keptIndices);
    var keptInOrder := Select(byKey, kept);
    KeptRowsAreListed(desired, existing);
    r := AssignKeys(desired, existing, kept, keptInOrder);
    if r.Ok? { KeepsMost(desired, existing, r.value); }
  }

  // ----- when a row has no room

  /** As long as no row has the least key stored, re-keying is never refused. */
  lemma NoLeastKeyNoRefusal(desired: seq<Id>, existing: map<Id, Digits>)
    requires forall id :: id in existing ==> existing[id] != SMALLEST
    ensures !NoRoomInFront(desired, existing)
  {
  }

  lemma {:induction false} SelectNone(ids: seq<Id>, keep: set<Id>)
    requires forall i :: 0 <= i < |ids| ==> ids[i] !in keep
    ensures Select(ids, keep) == []
    decreases |ids|
  {
    if ids == [] {
    } else {
      SelectNone(ids[..|ids| - 1], keep);
    }
  }

  lemma SelectPair(a: Id, b: Id, keep: set<Id>)
    requires a !in keep && b in keep
    ensures Select([a, b], keep) == [b]
  {
    assert [a, b][..1] == [a];
    SelectNone([a], keep);
  }

  lemma LoneSurvivorIsKept(desired: seq<Id>, existing: map<Id, Digits>, b: Id)
    requires Distinct(desired) && Survivors(desired, existing) == [b]
    ensures KeptIds(desired, existing) == {b}
  {
    var ranks := GroupRanks(desired, existing);
    KeptKeysIncrease(desired, existing);
    LongestIsLongest(ranks);
    assert Increasing(ranks, {0});
    assert |KeptIds(desired, existing)| >= |{0 as nat}|;
  }

  /** A new row in front of one that has the least key is refused. */
  lemma RefusedInFront(a: Id, b: Id)
    requires a != b
    ensures Distinct([a, b]) && ValidKeys([a, b], map[b := SMALLEST]) && NoRoomInFront([a, b], map[b := SMALLEST])
  {
    var desired, existing := [a, b], map[b := SMALLEST];
    SmallestIsLeast(SMALLEST);
    SelectPair(a, b, existing.Keys);
    LoneSurvivorIsKept(desired, existing, b);
    SelectPair(a, b, KeptIds(desired, existing));
  }
}
