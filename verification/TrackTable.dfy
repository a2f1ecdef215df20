/** The rows of sequence_tracks and the two operations that order them (src/sequences.ts). */
module TrackTable {
  import opened Wrappers
  import opened Collections
  import opened Lexicographic
  import opened OrderIntegers
  import opened OrderKeys
  import opened KeptRows
  import opened Reconcile
  import opened TrackOrder

  function StoredKeys(rows: Rows, siblings: seq<Id>): (keys: map<Id, Digits>)
    requires forall i :: 0 <= i < |siblings| ==> siblings[i] in rows
    ensures forall i :: 0 <= i < |siblings| ==> siblings[i] in keys && keys[siblings[i]] == rows[siblings[i]].orderKey
  {
    map id | id in Elements(siblings) && id in rows :: rows[id].orderKey
  }

  ghost predicate ValidRows(rows: Rows, siblings: seq<Id>) {
    forall i :: 0 <= i < |siblings| ==> siblings[i] in rows && IsOrderKey(rows[siblings[i]].orderKey)
  }

  /** The rows after writing new order keys for some of them. */
  function WithKeys(rows: Rows, keys: map<Id, Digits>): Rows {
    map id | id in rows :: if id in keys then rows[id].(orderKey := keys[id]) else rows[id]
  }

  /** The key of the first sibling once duplicates are repaired. */
  function FrontKey(siblings: seq<Id>, keys: map<Id, Digits>): Result<Digits, KeyError>
    requires siblings != [] && Covered(siblings, keys)
  {
    if TwoInFront(siblings, keys) then OrderKeyBetween(None, Some(keys[siblings[0]])) else Ok(keys[siblings[0]])
  }

  /**
   A move is refused exactly when the front of the list is exhausted: two rows already share
   the least key, or the track is to go in front of a row that has it after the repair.
   */
  predicate MoveExhausted(siblings: seq<Id>, keys: map<Id, Digits>, trackId: Id, toOrdinal: int)
    requires siblings != [] && Covered(siblings, keys)
  {
    var front := FrontKey(siblings, keys);
    front.Err? || (toOrdinal <= 0 && trackId != siblings[0] && front.value == SMALLEST)
  }

  // ----- repaired keys

  lemma SortedSiblings(rows: Rows, sequenceId: int, kind: TrackKind, siblings: seq<Id>)
    requires ReadsAs(rows, sequenceId, kind, siblings) && ValidRows(rows, siblings)
    ensures SortedByKeys(siblings, StoredKeys(rows, siblings))
  {
    var keys := StoredKeys(rows, siblings);
    forall i, j | 0 <= i < j < |siblings|
      ensures siblings[i] != siblings[j] && !Less(keys[siblings[j]], keys[siblings[i]])
    {
      Trichotomy(keys[siblings[i]], keys[siblings[j]]);
    }
  }

  ghost predicate Repaired(siblings: seq<Id>, keys: map<Id, Digits>, repaired: map<Id, Digits>) {
    && siblings != [] && Covered(siblings, keys) && repaired.Keys == Elements(siblings)
    && IncreasingAlong(siblings, repaired)
    && (forall i :: 0 <= i < |siblings| ==> IsOrderKey(repaired[siblings[i]]))
    && FrontKey(siblings, keys) == Ok(repaired[siblings[0]])
  }

  /** Distinct sorted keys need no repair. */
  lemma NoRepairNeeded(siblings: seq<Id>, keys: map<Id, Digits>)
    requires siblings != [] && SortedByKeys(siblings, keys) && keys.Keys == Elements(siblings)
    requires DistinctKeysTo(siblings, keys, |siblings|)
    ensures Repaired(siblings, keys, keys)
  {
    forall i, j | 0 <= i < j < |siblings|
      ensures Less(keys[siblings[i]], keys[siblings[j]])
    {
      Trichotomy(keys[siblings[i]], keys[siblings[j]]);
    }
  }

  /** Reconciling a sorted list is refused only when two rows in front hold the least key. */
  lemma RepairRefused(siblings: seq<Id>, keys: map<Id, Digits>)
    requires siblings != [] && SortedByKeys(siblings, keys)
    ensures NoRoomInFront(siblings, keys) <==> FrontKey(siblings, keys).Err?
  {
    FrontIsKept(siblings, keys);
    OrderKeyBetweenCorrect(None, Some(keys[siblings[0]]));
  }

  lemma AssignedIncreases(siblings: seq<Id>, keys: map<Id, Digits>, kept: set<Id>, result: map<Id, Digits>)
    requires Assigned(siblings, |siblings|, keys, kept, result)
    ensures IncreasingAlong(siblings, result)
    ensures forall i :: 0 <= i < |siblings| ==> IsOrderKey(result[siblings[i]])
  {
  }

  lemma ByIndex(ids: seq<Id>)
    ensures Elements(ids) == set p | 0 <= p < |ids| :: ids[p]
  {
  }

  lemma FrontOfReconciled(siblings: seq<Id>, keys: map<Id, Digits>, kept: set<Id>, keptInOrder: seq<Id>, result: map<Id, Digits>)
    requires siblings != [] && Covered(siblings, keys)
    requires keptInOrder != [] && keptInOrder[0] in keys && keys[keptInOrder[0]] == keys[siblings[0]]
    requires siblings[0] in kept <==> !TwoInFront(siblings, keys)
    requires Assigned(siblings, |siblings|, keys, kept, result)
    requires Minted(siblings, |siblings|, keys, kept, keptInOrder, result)
    ensures FrontKey(siblings, keys) == Ok(result[siblings[0]])
  {
    assert KeptBefore(siblings, kept, 0) == 0;
    assert NextKept(siblings, keys, kept, keptInOrder, 0) == Some(keys[siblings[0]]);
    assert PreviousKey(siblings, result, 0) == None;
  }

  lemma ReconciledIsRepaired(siblings: seq<Id>, keys: map<Id, Digits>, result: map<Id, Digits>)
    requires siblings != [] && SortedByKeys(siblings, keys)
    requires Assigned(siblings, |siblings|, keys, KeptIds(siblings, keys), result)
    requires Minted(siblings, |siblings|, keys, KeptIds(siblings, keys), Select(siblings, KeptIds(siblings, keys)), result)
    ensures Repaired(siblings, keys, result)
  {
    ByIndex(siblings);
    AssignedIncreases(siblings, keys, KeptIds(siblings, keys), result);
    var kept := KeptIds(siblings, keys);
    FrontIsKept(siblings, keys);
    FrontOfReconciled(siblings, keys, kept, Select(siblings, kept), result);
  }

  /** The siblings whose key differs from the stored one. */
  function Changed(siblings: seq<Id>, keys: map<Id, Digits>, other: map<Id, Digits>): set<Id> {
    set id | id in siblings && id in keys && id in other && other[id] != keys[id]
  }

  /** No keys that increase along the listing change fewer of the stored ones. */
  ghost predicate ChangesFewest(siblings: seq<Id>, keys: map<Id, Digits>, changed: set<Id>) {
    forall other :: IncreasingAlong(siblings, other) ==> |changed| <= |Changed(siblings, keys, other)|
  }

  lemma ChangedOrNot(siblings: seq<Id>, keys: map<Id, Digits>, other: map<Id, Digits>)
    requires Covered(siblings, keys) && Covered(siblings, other)
    ensures |Changed(siblings, keys, other)| == |Elements(siblings)| - |Unchanged(siblings, keys, other)|
  {
    assert Changed(siblings, keys, other) == Elements(siblings) - Unchanged(siblings, keys, other);
    assert Unchanged(siblings, keys, other) <= Elements(siblings);
  }

  lemma KeepingMostChangesFewest(siblings: seq<Id>, keys: map<Id, Digits>, result: map<Id, Digits>)
    requires Covered(siblings, keys) && Covered(siblings, result)
    requires forall other | IncreasingAlong(siblings, other) ::
               |Unchanged(siblings, keys, other)| <= |Unchanged(siblings, keys, result)|
    ensures ChangesFewest(siblings, keys, Changed(siblings, keys, result))
  {
    ChangedOrNot(siblings, keys, result);
    forall other | IncreasingAlong(siblings, other)
      ensures |Changed(siblings, keys, result)| <= |Changed(siblings, keys, other)|
    {
      ChangedOrNot(siblings, keys, other);
    }
  }

  lemma NoneChanged(siblings: seq<Id>, keys: map<Id, Digits>, changed: set<Id>)
    requires changed == {}
    ensures ChangesFewest(siblings, keys, changed)
  {
  }

  method RepairKeys(siblings: seq<Id>, keys: map<Id, Digits>) returns (r: Result<map<Id, Digits>, KeyError>)
    requires siblings != [] && SortedByKeys(siblings, keys) && keys.Keys == Elements(siblings)
    ensures r.Err? <==> FrontKey(siblings, keys).Err?
    ensures r.Err? ==> r.error == NoRoom
    ensures r.Ok? ==> Repaired(siblings, keys, r.value)
    ensures r.Ok? && DistinctKeysTo(siblings, keys, |siblings|) ==> r.value == keys
    ensures r.Ok? ==> ChangesFewest(siblings, keys, Changed(siblings, keys, r.value))
  {
    KeySetSize(siblings, keys);
    if |KeySet(siblings, keys)| != |siblings| {
      r := ReconcileOrderKeys(siblings, keys);
      RepairRefused(siblings, keys);
      if r.Ok? {
        ReconciledIsRepaired(siblings, keys, r.value);
        KeepingMostChangesFewest(siblings, keys, r.value);
      }
    } else {
      NoRepairNeeded(siblings, keys);
      NoneChanged(siblings, keys, {});
      assert Changed(siblings, keys, keys) == {};
      r := Ok(keys);
    }
  }

  // ----- the key of the moved track

  function TargetKey(others: seq<Id>, keys: map<Id, Digits>, target: nat): Result<Digits, KeyError>
    requires target <= |others| && Covered(others, keys)
  {
    if target == |others| then OrderKeyAfter(if others == [] then None else Some(keys[others[|others| - 1]]))
    else OrderKeyBetween(if target == 0 then None else Some(keys[others[target - 1]]), Some(keys[others[target]]))
  }

  ghost predicate FitsAt(others: seq<Id>, keys: map<Id, Digits>, target: nat, key: Digits)
    requires target <= |others| && Covered(others, keys)
  {
    && (forall i :: 0 <= i < target ==> Less(keys[others[i]], key))
    && (forall i :: target <= i < |others| ==> Less(key, keys[others[i]]))
  }

  lemma TargetKeyFits(others: seq<Id>, keys: map<Id, Digits>, target: nat)
    requires target <= |others| && IncreasingAlong(others, keys)
    requires forall i :: 0 <= i < |others| ==> IsOrderKey(keys[others[i]])
    ensures var k := TargetKey(others, keys, target);
            && (k.Err? <==> target == 0 && others != [] && keys[others[0]] == SMALLEST)
            && (k.Err? ==> k.error == NoRoom)
            && (k.Ok? ==> IsOrderKey(k.value) && FitsAt(others, keys, target, k.value))
  {
    var before := if target == 0 then None else Some(keys[others[target - 1]]);
    var after := if target == |others| then None else Some(keys[others[target]]);
    OrderKeyBetweenCorrect(before, after);
    assert TargetKey(others, keys, target) == OrderKeyBetween(before, after);
    var k := OrderKeyBetween(before, after);
    if k.Ok? {
      forall i | 0 <= i < target
        ensures Less(keys[others[i]], k.value)
      {
        if i < target - 1 { Transitive(keys[others[i]], keys[others[target - 1]], k.value); }
      }
      forall i | target <= i < |others|
        ensures Less(k.value, keys[others[i]])
      {
        if i > target { Transitive(k.value, keys[others[target]], keys[others[i]]); }
      }
    }
  }

  lemma {:induction false} OthersIncrease(siblings: seq<Id>, keys: map<Id, Digits>, trackId: Id, p: nat)
    requires IncreasingAlong(siblings, keys) && Distinct(siblings) && p < |siblings| && siblings[p] == trackId
    requires forall i :: 0 <= i < |siblings| ==> IsOrderKey(keys[siblings[i]])
    ensures var others := Without(siblings, trackId);
            && |others| == |siblings| - 1 && IncreasingAlong(others, keys)
            && (forall i :: 0 <= i < |others| ==> others[i] == siblings[if i < p then i else i + 1])
            && (forall i :: 0 <= i < |others| ==> IsOrderKey(keys[others[i]]))
  {
    WithoutSplits(siblings, trackId, p);
    var others := Without(siblings, trackId);
    forall i | 0 <= i < |others|
      ensures others[i] == siblings[if i < p then i else i + 1]
    {
    }
  }

  /** Exhaustion of the target is exhaustion of the front of the repaired list. */
  lemma FrontDecides(siblings: seq<Id>, keys: map<Id, Digits>, trackId: Id, p: nat)
    requires IncreasingAlong(siblings, keys) && Distinct(siblings) && p < |siblings| && siblings[p] == trackId
    requires forall i :: 0 <= i < |siblings| ==> IsOrderKey(keys[siblings[i]])
    ensures var others := Without(siblings, trackId);
            others != [] ==>
              others[0] in keys && (keys[others[0]] == SMALLEST <==> trackId != siblings[0] && keys[siblings[0]] == SMALLEST)
    ensures Without(siblings, trackId) == [] ==> trackId == siblings[0]
  {
    OthersIncrease(siblings, keys, trackId, p);
    var others := Without(siblings, trackId);
    if others != [] && p == 0 {
      SmallestIsLeast(keys[siblings[0]]);
      Trichotomy(keys[siblings[0]], keys[siblings[1]]);
      Trichotomy(SMALLEST, keys[siblings[0]]);
    }
  }

  /** The moved listing, position by position. */
  lemma MovedAt(siblings: seq<Id>, trackId: Id, p: nat, toOrdinal: int)
    requires Distinct(siblings) && p < |siblings| && siblings[p] == trackId
    ensures var others, order := Without(siblings, trackId), Moved(siblings, trackId, toOrdinal);
            var target := Clamp(toOrdinal, |others|);
            && |others| == |siblings| - 1 && |order| == |siblings|
            && (forall i :: 0 <= i < |others| ==> others[i] == siblings[if i < p then i else i + 1] && others[i] != trackId)
            && (forall i :: 0 <= i < target ==> order[i] == others[i])
            && order[target] == trackId
            && (forall i :: target < i < |order| ==> order[i] == others[i - 1])
  {
    WithoutSplits(siblings, trackId, p);
  }

  lemma MovedElements(siblings: seq<Id>, trackId: Id, p: nat, toOrdinal: int)
    requires Distinct(siblings) && p < |siblings| && siblings[p] == trackId
    ensures Elements(Moved(siblings, trackId, toOrdinal)) == Elements(siblings)
  {
    WithoutSplits(siblings, trackId, p);
    var others := Without(siblings, trackId);
    var target := Clamp(toOrdinal, |others|);
    assert siblings == siblings[..p] + [trackId] + siblings[p + 1..];
    assert others == others[..target] + others[target..];
    forall x
      ensures x in Moved(siblings, trackId, toOrdinal) <==> x in siblings
    {
      assert x in others <==> x in others[..target] || x in others[target..];
      assert x in siblings <==> x in siblings[..p] || x == trackId || x in siblings[p + 1..];
    }
  }

  lemma NewOrderIncreases(others: seq<Id>, keys: map<Id, Digits>, trackId: Id, target: nat, key: Digits, order: seq<Id>)
    requires target <= |others| && IncreasingAlong(others, keys) && FitsAt(others, keys, target, key)
    requires |order| == |others| + 1
    requires forall i :: 0 <= i < |others| ==> others[i] != trackId
    requires forall i :: 0 <= i < target ==> order[i] == others[i]
    requires order[target] == trackId
    requires forall i :: target < i < |order| ==> order[i] == others[i - 1]
    ensures IncreasingAlong(order, keys[trackId := key])
  {
    var keys' := keys[trackId := key];
    forall i | 0 <= i < |order|
      ensures order[i] in keys'
    {
      if i < target { assert others[i] in keys; } else if i > target { assert others[i - 1] in keys; }
    }
    forall i, j | 0 <= i < j < |order|
      ensures Less(keys'[order[i]], keys'[order[j]])
    {
      var a := if i < target then i else i - 1;
      var b := if j < target then j else j - 1;
      if i != target && j != target { assert Less(keys[others[a]], keys[others[b]]); }
    }
  }

  /** Keys that increase along a listing make it the answer of the query. */
  lemma IncreasingReads(rows: Rows, sequenceId: int, kind: TrackKind, siblings: seq<Id>, order: seq<Id>, keys: map<Id, Digits>)
    requires ReadsAs(rows, sequenceId, kind, siblings)
    requires Elements(order) == Elements(siblings) == keys.Keys && IncreasingAlong(order, keys)
    ensures ReadsAs(WithKeys(rows, keys), sequenceId, kind, order)
  {
    var rows' := WithKeys(rows, keys);
    forall id
      ensures IsSibling(rows', id, sequenceId, kind) <==> id in Elements(order)
    {
      assert IsSibling(rows, id, sequenceId, kind) <==> id in Elements(siblings);
    }
    forall i | 0 <= i < |order|
      ensures order[i] in rows && order[i] in keys
    {
      assert order[i] in Elements(order);
      assert IsSibling(rows, order[i], sequenceId, kind);
    }
  }

  /** A track that stays where it is needs no write. */
  lemma MovedToItsPlace(siblings: seq<Id>, trackId: Id, p: nat, toOrdinal: int)
    requires Distinct(siblings) && p < |siblings| && siblings[p] == trackId
    requires Clamp(toOrdinal, |siblings| - 1) == p
    ensures Moved(siblings, trackId, toOrdinal) == siblings
  {
    WithoutSplits(siblings, trackId, p);
    var others := Without(siblings, trackId);
    assert others[..p] == siblings[..p] && others[p..] == siblings[p + 1..];
    assert siblings == siblings[..p] + [trackId] + siblings[p + 1..];
  }

  // ----- planning a move

  /** The keys a move writes: the repairs, and the track's own key if it has a new one. */
  function Written(repairs: map<Id, Digits>, trackId: Id, own: Option<Digits>): map<Id, Digits> {
    if own.Some? then repairs[trackId := own.value] else repairs
  }

  lemma WrittenOver(keys: map<Id, Digits>, repairs: map<Id, Digits>, trackId: Id, own: Option<Digits>)
    ensures keys + Written(repairs, trackId, own) == Written(keys + repairs, trackId, own)
  {
  }

  /** New keys for the siblings under which the query answers with the track where it was asked for. */
  ghost predicate Places(siblings: seq<Id>, trackId: Id, toOrdinal: int, keys: map<Id, Digits>) {
    keys.Keys == Elements(siblings) && IncreasingAlong(Moved(siblings, trackId, toOrdinal), keys)
  }

  lemma PlanIsRight(siblings: seq<Id>, keys: map<Id, Digits>, repaired: map<Id, Digits>, trackId: Id, p: nat, toOrdinal: int)
    requires Distinct(siblings) && Repaired(siblings, keys, repaired) && p < |siblings| && siblings[p] == trackId
    ensures var others := Without(siblings, trackId);
            Covered(others, repaired) &&
            var k := TargetKey(others, repaired, Clamp(toOrdinal, |others|));
            && (k.Err? <==> MoveExhausted(siblings, keys, trackId, toOrdinal))
            && (k.Err? ==> k.error == NoRoom)
            && (k.Ok? ==> Places(siblings, trackId, toOrdinal, repaired[trackId := k.value]))
  {
    var others := Without(siblings, trackId);
    var target := Clamp(toOrdinal, |others|);
    OthersIncrease(siblings, repaired, trackId, p);
    TargetKeyFits(others, repaired, target);
    FrontDecides(siblings, repaired, trackId, p);
    MovedAt(siblings, trackId, p, toOrdinal);
    var k := TargetKey(others, repaired, target);
    if k.Ok? {
      NewOrderIncreases(others, repaired, trackId, target, k.value, Moved(siblings, trackId, toOrdinal));
      assert trackId in Elements(siblings);
    }
  }

  /** Leaving a track of a healthy list where it is needs no key, so it is never refused. */
  lemma StayIsRight(siblings: seq<Id>, keys: map<Id, Digits>, trackId: Id, p: nat, toOrdinal: int)
    requires Distinct(siblings) && Repaired(siblings, keys, keys) && p < |siblings| && siblings[p] == trackId
    requires Clamp(toOrdinal, |siblings| - 1) == p
    ensures !MoveExhausted(siblings, keys, trackId, toOrdinal)
    ensures Places(siblings, trackId, toOrdinal, keys)
  {
    MovedToItsPlace(siblings, trackId, p, toOrdinal);
  }

  /** The keys that differ from the stored ones, collected one by one. */
  method CollectRepairs(siblings: seq<Id>, keys: map<Id, Digits>, reconciled: map<Id, Digits>) returns (repairs: map<Id, Digits>)
    requires keys.Keys == reconciled.Keys == Elements(siblings) && Covered(siblings, keys) && Covered(siblings, reconciled)
    ensures repairs == map id | id in reconciled && reconciled[id] != keys[id] :: reconciled[id]
  {
    repairs := map[];
    for i := 0 to |siblings|
      invariant forall p :: 0 <= p < i && reconciled[siblings[p]] != keys[siblings[p]] ==> siblings[p] in repairs
      invariant forall id :: id in repairs ==> id in reconciled && reconciled[id] != keys[id] && repairs[id] == reconciled[id]
    {
      var id := siblings[i];
      if keys[id] != reconciled[id] {
        repairs := repairs[id := reconciled[id]];
      }
    }
    ghost var differing := map id | id in reconciled && reconciled[id] != keys[id] :: reconciled[id];
    forall id
      ensures id in repairs <==> id in differing
    {
      if id in differing {
        assert id in Elements(siblings);
        ghost var p :| 0 <= p < |siblings| && siblings[p] == id;
      }
    }
    assert repairs.Keys == differing.Keys by {
      assert forall id :: id in repairs.Keys <==> id in differing.Keys;
    }
    assert forall id :: id in repairs.Keys ==> repairs[id] == differing[id];
    assert repairs == differing;
  }

  lemma RepairsApplied(keys: map<Id, Digits>, reconciled: map<Id, Digits>, repairs: map<Id, Digits>)
    requires keys.Keys == reconciled.Keys
    requires repairs == map id | id in reconciled && reconciled[id] != keys[id] :: reconciled[id]
    ensures keys + repairs == reconciled
    ensures repairs == map[] ==> reconciled == keys
  {
  }

  lemma RepairsAreChanges(siblings: seq<Id>, keys: map<Id, Digits>, reconciled: map<Id, Digits>, repairs: map<Id, Digits>)
    requires keys.Keys == reconciled.Keys == Elements(siblings)
    requires repairs == map id | id in reconciled && reconciled[id] != keys[id] :: reconciled[id]
    ensures repairs.Keys == Changed(siblings, keys, reconciled)
    ensures reconciled == keys ==> repairs == map[]
  {
  }

  method TargetPlan(siblings: seq<Id>, ghost keys: map<Id, Digits>, repaired: map<Id, Digits>, repairs: map<Id, Digits>,
                    trackId: Id, current: nat, toOrdinal: int)
    returns (r: Result<(map<Id, Digits>, Option<Digits>), KeyError>)
    requires Distinct(siblings) && Repaired(siblings, keys, repaired) && current < |siblings| && siblings[current] == trackId
    requires keys + repairs == repaired && repairs.Keys <= Elements(siblings) && (repairs == map[] ==> repaired == keys)
    ensures r.Err? <==> MoveExhausted(siblings, keys, trackId, toOrdinal)
    ensures r.Ok? ==> var (written, own) := r.value;
              && written.Keys <= Elements(siblings)
              && (own.None? ==> written == map[])
              && Places(siblings, trackId, toOrdinal, keys + Written(written, trackId, own))
    ensures r.Ok? ==> r.value.0 == repairs
    ensures r.Ok? ==> (r.value.1.None? <==> repairs == map[] && Clamp(toOrdinal, |siblings| - 1) == current)
  {
    var others := Without(siblings, trackId);
    WithoutSplits(siblings, trackId, current);
    PlanIsRight(siblings, keys, repaired, trackId, current, toOrdinal);
    var target := Clamp(toOrdinal, |others|);
    if target == current && repairs == map[] {
      StayIsRight(siblings, keys, trackId, current, toOrdinal);
      WrittenOver(keys, repairs, trackId, None);
      return Ok((map[], None));
    }
    var orderKey := TargetKey(others, repaired, target);
    if orderKey.Err? { return Err(orderKey.error); }
    WrittenOver(keys, repairs, trackId, Some(orderKey.value));
    return Ok((repairs, Some(orderKey.value)));
  }

  /** What a move decides before it writes: keys to repair, and the track's own key unless it stays. */
  method PlanMove(siblings: seq<Id>, keys: map<Id, Digits>, trackId: Id, toOrdinal: int)
    returns (r: Result<(map<Id, Digits>, Option<Digits>), KeyError>)
    requires SortedByKeys(siblings, keys) && keys.Keys == Elements(siblings) && trackId in siblings
    ensures r.Err? <==> MoveExhausted(siblings, keys, trackId, toOrdinal)
    ensures r.Ok? ==> var (repairs, own) := r.value;
              && repairs.Keys <= Elements(siblings)
              && (own.None? ==> repairs == map[])
              && Places(siblings, trackId, toOrdinal, keys + Written(repairs, trackId, own))
              && ChangesFewest(siblings, keys, repairs.Keys)
    ensures r.Ok? && DistinctKeysTo(siblings, keys, |siblings|) ==>
              r.value.0 == map[] && (r.value.1.None? <==> Clamp(toOrdinal, |siblings| - 1) == Position(siblings, trackId))
  {
    var current := Position(siblings, trackId);
    var repaired := RepairKeys(siblings, keys);
    if repaired.Err? { return Err(repaired.error); }
    var repairs := CollectRepairs(siblings, keys, repaired.value);
    RepairsAreChanges(siblings, keys, repaired.value, repairs);
    RepairsApplied(keys, repaired.value, repairs);
    r := TargetPlan(siblings, keys, repaired.value, repairs, trackId, current, toOrdinal);
  }

  /** Nothing but order keys of the listed tracks differs. */
  ghost predicate OnlyKeysChange(before: Rows, after: Rows, siblings: seq<Id>) {
    && after.Keys == before.Keys
    && forall id :: id in before ==>
         after[id] == if id in Elements(siblings) then before[id].(orderKey := after[id].orderKey) else before[id]
  }

  // ----- the table

  /** A key above the last sibling's puts a new row at the end of the listing. */
  lemma AddedReads(rows: Rows, sequenceId: int, kind: TrackKind, siblings: seq<Id>, trackId: Id, key: Digits)
    requires ReadsAs(rows, sequenceId, kind, siblings) && trackId !in rows
    requires siblings != [] ==> Less(rows[siblings[|siblings| - 1]].orderKey, key)
    ensures ReadsAs(rows[trackId := TrackRow(sequenceId, kind, key)], sequenceId, kind, siblings + [trackId])
  {
    var rows' := rows[trackId := TrackRow(sequenceId, kind, key)];
    forall id
      ensures IsSibling(rows', id, sequenceId, kind) <==> id in Elements(siblings + [trackId])
    {
      assert IsSibling(rows, id, sequenceId, kind) <==> id in Elements(siblings);
    }
    forall i | 0 <= i < |siblings|
      ensures siblings[i] in rows && siblings[i] != trackId && Less(rows[siblings[i]].orderKey, key)
    {
      var last := siblings[|siblings| - 1];
      if i < |siblings| - 1 && rows[siblings[i]].orderKey != rows[last].orderKey {
        Transitive(rows[siblings[i]].orderKey, rows[last].orderKey, key);
      }
    }
  }

  /** The siblings, other than the track itself, whose row differs afterwards. */
  function OthersRewritten(before: Rows, after: Rows, siblings: seq<Id>, trackId: Id): set<Id> {
    set id | id in siblings && id != trackId && id in before && id in after && after[id] != before[id]
  }

  lemma FewRewritten(rows: Rows, siblings: seq<Id>, trackId: Id, keys: map<Id, Digits>, repairs: map<Id, Digits>, own: Option<Digits>)
    requires ChangesFewest(siblings, keys, repairs.Keys)
    ensures ChangesFewest(siblings, keys, OthersRewritten(rows, WithKeys(rows, Written(repairs, trackId, own)), siblings, trackId))
  {
    SubsetSize(OthersRewritten(rows, WithKeys(rows, Written(repairs, trackId, own)), siblings, trackId), repairs.Keys);
  }

  /** Without repairs only the row of the track can change, and without a new key for it none does. */
  lemma OnlyTheTrack(rows: Rows, trackId: Id, own: Option<Digits>)
    ensures var after := WithKeys(rows, Written(map[], trackId, own));
            && (forall id :: id in rows && id != trackId ==> after[id] == rows[id])
            && (own.None? ==> after == rows)
  {
  }

  lemma WrittenIsPlanned(rows: Rows, sequenceId: int, kind: TrackKind, siblings: seq<Id>, trackId: Id, toOrdinal: int,
                         keys: map<Id, Digits>, repairs: map<Id, Digits>, own: Option<Digits>)
    requires ReadsAs(rows, sequenceId, kind, siblings) && keys == StoredKeys(rows, siblings)
    requires trackId in siblings && Distinct(siblings) && repairs.Keys <= Elements(siblings)
    requires Places(siblings, trackId, toOrdinal, keys + Written(repairs, trackId, own))
    ensures var written := Written(repairs, trackId, own);
            && OnlyKeysChange(rows, WithKeys(rows, written), siblings)
            && ReadsAs(WithKeys(rows, written), sequenceId, kind, Moved(siblings, trackId, toOrdinal))
  {
    var written := Written(repairs, trackId, own);
    var all := keys + Written(repairs, trackId, own);
    assert WithKeys(rows, written) == WithKeys(rows, all);
    MovedElements(siblings, trackId, Position(siblings, trackId), toOrdinal);
    IncreasingReads(rows, sequenceId, kind, siblings, Moved(siblings, trackId, toOrdinal), all);
  }

  class SequenceTracks {
    var rows: Rows

    constructor (initial: Rows)
      ensures rows == initial
    {
      rows := initial;
    }

    /** The updates of one transaction: repaired siblings first, then the track itself. */
    method WriteKeys(siblings: seq<Id>, trackId: Id, repairs: map<Id, Digits>, own: Option<Digits>)
      requires repairs.Keys <= Elements(siblings) && (own.None? ==> repairs == map[])
      modifies this
      ensures rows == WithKeys(old(rows), Written(repairs, trackId, own))
    {
      if own.None? { return; }
      for i := 0 to |siblings|
        invariant rows == WithKeys(old(rows), map id | id in repairs && id != trackId && id in siblings[..i] :: repairs[id])
      {
        var id := siblings[i];
        assert siblings[..i + 1] == siblings[..i] + [id];
        if id in repairs && id != trackId && id in rows {
          rows := rows[id := rows[id].(orderKey := repairs[id])];
        }
      }
      assert siblings[..|siblings|] == siblings;
      if trackId in rows {
        rows := rows[trackId := rows[trackId].(orderKey := own.value)];
      }
    }

    /**
     Moves a track among the tracks of its sequence and kind. `siblings` is the answer of the
     query for them. Afterwards the same query answers with the track at the clamped ordinal.
     */
    method MoveTrack(trackId: Id, toOrdinal: int, siblings: seq<Id>) returns (r: Result<(), TrackError>)
      requires trackId in rows ==> ReadsAs(rows, rows[trackId].sequenceId, rows[trackId].kind, siblings)
      requires trackId in rows ==> ValidRows(rows, siblings)
      modifies this
      ensures r == Err(TrackNotFound) <==> trackId !in old(rows)
      ensures r.Err? ==> rows == old(rows)
      ensures trackId in old(rows) ==>
                && siblings != [] && Covered(siblings, StoredKeys(old(rows), siblings))
                && (r.Err? <==> MoveExhausted(siblings, StoredKeys(old(rows), siblings), trackId, toOrdinal))
      ensures r.Ok? ==>
                && OnlyKeysChange(old(rows), rows, siblings)
                && ReadsAs(rows, old(rows)[trackId].sequenceId, old(rows)[trackId].kind, Moved(siblings, trackId, toOrdinal))
      ensures r.Ok? ==> var keys := StoredKeys(old(rows), siblings);
                && ChangesFewest(siblings, keys, OthersRewritten(old(rows), rows, siblings, trackId))
                && (DistinctKeysTo(siblings, keys, |siblings|) ==>
                      && (forall id :: id in old(rows) && id != trackId ==> rows[id] == old(rows)[id])
                      && (Clamp(toOrdinal, |siblings| - 1) == Position(siblings, trackId) ==> rows == old(rows)))
    {
      if trackId !in rows { return Err(TrackNotFound); }
      var t := rows[trackId];
      SortedSiblings(rows, t.sequenceId, t.kind, siblings);
      assert IsSibling(rows, trackId, t.sequenceId, t.kind) && trackId in Elements(siblings);
      var keys := StoredKeys(rows, siblings);
      var plan := PlanMove(siblings, keys, trackId, toOrdinal);
      if plan.Err? { return Err(KeyFault(plan.error)); }
      var (repairs, own) := plan.value;
      WriteKeys(siblings, trackId, repairs, own);
      FewRewritten(old(rows), siblings, trackId, keys, repairs, own);
      OnlyTheTrack(old(rows), trackId, own);
      WrittenIsPlanned(old(rows), t.sequenceId, t.kind, siblings, trackId, toOrdinal, keys, repairs, own);
      return Ok(());
    }

    /** Adds a track behind every track of its sequence and kind; there is always a key for it. */
    method AddTrack(trackId: Id, sequenceId: int, kind: TrackKind, siblings: seq<Id>)
      requires trackId !in rows && ReadsAs(rows, sequenceId, kind, siblings) && ValidRows(rows, siblings)
      modifies this
      ensures rows.Keys == old(rows).Keys + {trackId} && forall id :: id in old(rows) ==> rows[id] == old(rows)[id]
      ensures IsOrderKey(rows[trackId].orderKey)
      ensures ReadsAs(rows, sequenceId, kind, siblings + [trackId])
    {
      var last := if siblings == [] then None else Some(rows[siblings[|siblings| - 1]].orderKey);
      OrderKeyBetweenCorrect(last, None);
      var orderKey := OrderKeyAfter(last).value;
      AddedReads(rows, sequenceId, kind, siblings, trackId, orderKey);
      rows := rows[trackId := TrackRow(sequenceId, kind, orderKey)];
    }
  }
}
