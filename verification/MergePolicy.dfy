/**
 Singleton flags after a merge (src/merge-policy.ts): one current transcript per source and
 one primary sequence per book. A flagged row is one whose state is current, or which is
 primary. Ids are texts, numbered here in text order; created is the created_at column.
 */
module MergePolicy {
  import opened Wrappers
  import opened Collections

  datatype Row<G> = Row(group: G, created: int, flagged: bool)

  type Table<G> = map<int, Row<G>>

  /** artifact_id, stream_id, object_hash */
  type SourceKey = (string, string, string)

  /** The order rows are ranked in: transcripts newest first, sequences oldest first, then by id. */
  datatype Ranking = NewestFirst | OldestFirst

  predicate Ahead<G>(rows: Table<G>, ranking: Ranking, i: int, j: int)
    requires i in rows && j in rows
  {
    if rows[i].created != rows[j].created then
      (if ranking.NewestFirst? then rows[i].created > rows[j].created else rows[i].created < rows[j].created)
    else i < j
  }

  predicate Flagged<G(==)>(rows: Table<G>, group: G, i: int) {
    i in rows && rows[i].flagged && rows[i].group == group
  }

  function FlaggedIn<G(==)>(rows: Table<G>, group: G): set<int> {
    set i | i in rows && Flagged(rows, group, i)
  }

  /** The first of some rows. */
  predicate First<G>(rows: Table<G>, ranking: Ranking, among: set<int>, i: int)
    requires among <= rows.Keys
  {
    i in among && forall j :: j in among && j != i ==> Ahead(rows, ranking, i, j)
  }

  lemma {:induction false} FirstExists<G>(rows: Table<G>, ranking: Ranking, among: set<int>) returns (i: int)
    requires among <= rows.Keys && among != {}
    ensures First(rows, ranking, among, i)
    decreases |among|
  {
    assert (exists i :: i in among) || among == {};
    var x :| x in among;
    if among == {x} {
      i := x;
    } else {
      var rest := among - {x};
      assert among == rest + {x};
      var y := FirstExists(rows, ranking, rest);
      i := if Ahead(rows, ranking, x, y) then x else y;
    }
  }

  lemma FirstIsUnique<G>(rows: Table<G>, ranking: Ranking, among: set<int>, i: int, j: int)
    requires among <= rows.Keys && First(rows, ranking, among, i) && First(rows, ranking, among, j)
    ensures i == j
  {
  }

  predicate Wins<G(==)>(rows: Table<G>, ranking: Ranking, i: int)
    requires i in rows
  {
    First(rows, ranking, FlaggedIn(rows, rows[i].group), i)
  }

  // ----- the reconcile

  function Groups<G(==)>(rows: Table<G>): set<G> {
    set i | i in rows && rows[i].flagged :: rows[i].group
  }

  /** Groups with more than one flagged row, as both the reconcile and the health check count them. */
  function Duplicated<G(==)>(rows: Table<G>): set<G> {
    set group | group in Groups(rows) && |FlaggedIn(rows, group)| > 1
  }

  /** No two flagged rows share a group. */
  predicate OnePerGroup<G(==)>(rows: Table<G>) {
    forall i, j :: i in rows && j in rows && rows[i].flagged && rows[j].flagged && rows[i].group == rows[j].group ==> i == j
  }

  /** Counting the flagged rows of each group finds none counted twice exactly when no two share one. */
  lemma DuplicatedMeans<G>(rows: Table<G>)
    ensures Duplicated(rows) == {} <==> OnePerGroup(rows)
  {
    forall i, j | i in rows && j in rows && rows[i].flagged && rows[j].flagged && rows[i].group == rows[j].group && i != j
      ensures rows[i].group in Duplicated(rows)
    {
      assert {i, j} <= FlaggedIn(rows, rows[i].group);
      SubsetSize({i, j}, FlaggedIn(rows, rows[i].group));
    }
    if OnePerGroup(rows) {
      forall group | group in Groups(rows)
        ensures |FlaggedIn(rows, group)| <= 1
      {
        var i :| i in rows && rows[i].flagged && rows[i].group == group;
        assert FlaggedIn(rows, group) == {i};
      }
    }
  }

  function Unflag<G>(row: Row<G>): Row<G> {
    row.(flagged := false)
  }

  /** The update of one group: all flagged rows but the first lose the flag. */
  function Demote<G(==)>(rows: Table<G>, ranking: Ranking, group: G): Table<G> {
    map i | i in rows :: if Flagged(rows, group, i) && !Wins(rows, ranking, i) then Unflag(rows[i]) else rows[i]
  }

  function Changed<G(==)>(rows: Table<G>, ranking: Ranking, group: G): set<int> {
    set i | i in rows && Flagged(rows, group, i) && !Wins(rows, ranking, i)
  }

  /** What the whole reconcile amounts to. */
  function Reconciled<G(==)>(rows: Table<G>, ranking: Ranking): Table<G> {
    map i | i in rows :: if rows[i].flagged && !Wins(rows, ranking, i) then Unflag(rows[i]) else rows[i]
  }

  function Demoted<G(==)>(rows: Table<G>, ranking: Ranking): set<int> {
    set i | i in rows && rows[i].flagged && !Wins(rows, ranking, i)
  }

  /** After the update of some groups. */
  function DemotedIn<G(==)>(rows: Table<G>, ranking: Ranking, groups: set<G>): Table<G> {
    map i | i in rows :: if rows[i].flagged && rows[i].group in groups && !Wins(rows, ranking, i) then Unflag(rows[i]) else rows[i]
  }

  function LosersIn<G(==)>(rows: Table<G>, ranking: Ranking, groups: set<G>): set<int> {
    set i | i in rows && rows[i].flagged && rows[i].group in groups && !Wins(rows, ranking, i)
  }

  lemma OtherGroupsUntouched<G>(rows: Table<G>, ranking: Ranking, done: set<G>, group: G)
    requires group !in done
    ensures var now := DemotedIn(rows, ranking, done);
            && FlaggedIn(now, group) == FlaggedIn(rows, group)
            && Changed(now, ranking, group) == Changed(rows, ranking, group)
            && Demote(now, ranking, group) == DemotedIn(rows, ranking, done + {group})
  {
    var now := DemotedIn(rows, ranking, done);
    assert FlaggedIn(now, group) == FlaggedIn(rows, group);
    forall i | i in rows && rows[i].group == group
      ensures Wins(now, ranking, i) <==> Wins(rows, ranking, i)
    {
    }
  }

  lemma LosersGrow<G>(rows: Table<G>, ranking: Ranking, done: set<G>, group: G)
    requires group !in done
    ensures |LosersIn(rows, ranking, done + {group})| == |LosersIn(rows, ranking, done)| + |Changed(rows, ranking, group)|
  {
    assert LosersIn(rows, ranking, done + {group}) == LosersIn(rows, ranking, done) + Changed(rows, ranking, group);
    assert LosersIn(rows, ranking, done) !! Changed(rows, ranking, group);
  }

  /** A group with one flagged row has no loser. */
  lemma LosersAreDuplicates<G>(rows: Table<G>, ranking: Ranking)
    ensures DemotedIn(rows, ranking, Duplicated(rows)) == Reconciled(rows, ranking)
    ensures LosersIn(rows, ranking, Duplicated(rows)) == Demoted(rows, ranking)
  {
    forall i | i in rows && rows[i].flagged && !Wins(rows, ranking, i)
      ensures rows[i].group in Duplicated(rows)
    {
      var all := FlaggedIn(rows, rows[i].group);
      var j :| j in all && j != i;
      assert {i, j} <= all;
      SubsetSize({i, j}, all);
    }
  }

  ghost predicate Progress<G>(rows: Table<G>, ranking: Ranking, done: set<G>, result: Table<G>, changes: int) {
    result == DemotedIn(rows, ranking, done) && changes == |LosersIn(rows, ranking, done)|
  }

  lemma NothingDone<G>(rows: Table<G>, ranking: Ranking)
    ensures Progress(rows, ranking, {}, rows, 0)
  {
    assert LosersIn(rows, ranking, {}) == {};
  }

  lemma OneMoreGroup<G>(rows: Table<G>, ranking: Ranking, done: set<G>, group: G, result: Table<G>, changes: int)
    requires group !in done && Progress(rows, ranking, done, result, changes)
    ensures Progress(rows, ranking, done + {group}, Demote(result, ranking, group), changes + |Changed(result, ranking, group)|)
  {
    OtherGroupsUntouched(rows, ranking, done, group);
    LosersGrow(rows, ranking, done, group);
  }

  /** Group after group is demoted; the order of the groups does not show in the result. */
  method ReconcileTable<G(==)>(rows: Table<G>, ranking: Ranking) returns (result: Table<G>, changes: nat)
    ensures result == Reconciled(rows, ranking)
    ensures changes == |Demoted(rows, ranking)|
  {
    result, changes := rows, 0;
    var groups := Duplicated(rows);
    var rest := groups;
    NothingDone(rows, ranking);
    assert groups - rest == {};
    while rest != {}
      invariant rest <= groups && Progress(rows, ranking, groups - rest, result, changes)
      decreases rest
    {
      var group :| group in rest;
      OneMoreGroup(rows, ranking, groups - rest, group, result, changes);
      OneLeftLess(groups, rest, group);
      changes := changes + |Changed(result, ranking, group)|;
      result := Demote(result, ranking, group);
      rest := rest - {group};
    }
    assert groups - rest == groups;
    LosersAreDuplicates(rows, ranking);
  }

  /** The catalog's two flagged tables; either may be missing. */
  class FlaggedTables {
    var transcripts: Option<Table<SourceKey>>
    var sequences: Option<Table<string>>

    constructor (transcripts: Option<Table<SourceKey>>, sequences: Option<Table<string>>)
      ensures this.transcripts == transcripts && this.sequences == sequences
    {
      this.transcripts := transcripts;
      this.sequences := sequences;
    }

    method ReconcileSingletonFlags() returns (demotedTranscripts: nat, demotedSequences: nat)
      modifies this
      ensures transcripts == if old(transcripts).Some? then Some(Reconciled(old(transcripts).value, NewestFirst)) else None
      ensures sequences == if old(sequences).Some? then Some(Reconciled(old(sequences).value, OldestFirst)) else None
      ensures demotedTranscripts == if old(transcripts).Some? then |Demoted(old(transcripts).value, NewestFirst)| else 0
      ensures demotedSequences == if old(sequences).Some? then |Demoted(old(sequences).value, OldestFirst)| else 0
    {
      demotedTranscripts, demotedSequences := 0, 0;
      if transcripts.Some? {
        var rows;
        rows, demotedTranscripts := ReconcileTable(transcripts.value, NewestFirst);
        transcripts := Some(rows);
      }
      if sequences.Some? {
        var rows;
        rows, demotedSequences := ReconcileTable(sequences.value, OldestFirst);
        sequences := Some(rows);
      }
    }

    /** The check passes when no foreign key is violated and no two flagged rows share a group. */
    method VerifyConstraintHealth(foreignKeyViolations: nat) returns (healthy: bool)
      ensures healthy <==>
                && foreignKeyViolations == 0
                && (transcripts.Some? ==> OnePerGroup(transcripts.value))
                && (sequences.Some? ==> OnePerGroup(sequences.value))
    {
      var currents := if transcripts.Some? then Duplicated(transcripts.value) else {};
      var primaries := if sequences.Some? then Duplicated(sequences.value) else {};
      if transcripts.Some? { DuplicatedMeans(transcripts.value); }
      if sequences.Some? { DuplicatedMeans(sequences.value); }
      healthy := foreignKeyViolations == 0 && currents == {} && primaries == {};
    }
  }

  // ----- what the reconcile leaves

  /** A group that had flagged rows has exactly one left: the first of those it had. */
  lemma OneIsLeft<G>(rows: Table<G>, ranking: Ranking, group: G) returns (winner: int)
    requires group in Groups(rows)
    ensures First(rows, ranking, FlaggedIn(rows, group), winner)
    ensures FlaggedIn(Reconciled(rows, ranking), group) == {winner}
  {
    var flagged := FlaggedIn(rows, group);
    var i :| i in rows && rows[i].flagged && rows[i].group == group;
    assert i in flagged;
    winner := FirstExists(rows, ranking, flagged);
    var now := Reconciled(rows, ranking);
    forall j
      ensures j in FlaggedIn(now, group) <==> j == winner
    {
      if j in flagged && First(rows, ranking, flagged, j) { FirstIsUnique(rows, ranking, flagged, j, winner); }
    }
  }

  /** Nothing else is touched, and no flag is ever set. */
  lemma OnlyFlagsAreCleared<G>(rows: Table<G>, ranking: Ranking, i: int)
    requires i in rows
    ensures var now := Reconciled(rows, ranking);
            && now.Keys == rows.Keys
            && now[i].group == rows[i].group && now[i].created == rows[i].created && (now[i].flagged ==> rows[i].flagged)
  {
  }

  /** Row i comes before row j: newer or older as ranked, and of two made at once the one with the lower id. */
  predicate ComesBefore<G>(rows: Table<G>, ranking: Ranking, i: int, j: int)
    requires i in rows && j in rows
  {
    match ranking
    case NewestFirst => rows[i].created > rows[j].created || (rows[i].created == rows[j].created && i < j)
    case OldestFirst => rows[i].created < rows[j].created || (rows[i].created == rows[j].created && i < j)
  }

  /** A row keeps its flag exactly when it comes before every other flagged row of its group: the newest, or the oldest. */
  lemma KeepsItsFlag<G>(rows: Table<G>, ranking: Ranking, i: int)
    requires i in rows
    ensures Reconciled(rows, ranking)[i].flagged <==>
              rows[i].flagged &&
              forall j :: j in rows && rows[j].flagged && rows[j].group == rows[i].group && j != i ==> ComesBefore(rows, ranking, i, j)
  {
    if rows[i].flagged {
      forall j | j in rows && rows[j].flagged && rows[j].group == rows[i].group && j != i
        ensures j in FlaggedIn(rows, rows[i].group) && (Ahead(rows, ranking, i, j) <==> ComesBefore(rows, ranking, i, j))
      {
      }
      assert i in FlaggedIn(rows, rows[i].group);
    }
  }

  lemma OnlyFlagged<G>(rows: Table<G>, ranking: Ranking, group: G)
    ensures group in Groups(Reconciled(rows, ranking)) ==> group in Groups(rows)
  {
  }

  /** After the reconcile both duplicate counts of the health check find nothing. */
  lemma NothingDuplicated<G>(rows: Table<G>, ranking: Ranking)
    ensures Duplicated(Reconciled(rows, ranking)) == {}
  {
    var now := Reconciled(rows, ranking);
    forall group | group in Groups(now)
      ensures |FlaggedIn(now, group)| <= 1
    {
      OnlyFlagged(rows, ranking, group);
      var winner := OneIsLeft(rows, ranking, group);
    }
  }

  /** Without duplicates there is nothing to reconcile, so a second reconcile changes nothing. */
  lemma NothingToReconcile<G>(rows: Table<G>, ranking: Ranking)
    requires Duplicated(rows) == {}
    ensures Reconciled(rows, ranking) == rows && Demoted(rows, ranking) == {}
  {
    LosersAreDuplicates(rows, ranking);
  }

  lemma ReconcileIsIdempotent<G>(rows: Table<G>, ranking: Ranking)
    ensures Reconciled(Reconciled(rows, ranking), ranking) == Reconciled(rows, ranking)
    ensures Demoted(Reconciled(rows, ranking), ranking) == {}
  {
    NothingDuplicated(rows, ranking);
    NothingToReconcile(Reconciled(rows, ranking), ranking);
  }

  /** A reconcile changes something exactly when the health check would have found a duplicate. */
  lemma ReconcilesIffDuplicated<G>(rows: Table<G>, ranking: Ranking)
    ensures Reconciled(rows, ranking) != rows <==> Duplicated(rows) != {}
  {
    if Duplicated(rows) == {} {
      NothingToReconcile(rows, ranking);
    } else {
      NothingDuplicated(rows, ranking);
    }
  }

  /** After the reconcile no two flagged rows share a group, so only foreign keys can still fail the health check. */
  lemma ReconciledIsHealthy<G>(rows: Table<G>, ranking: Ranking)
    ensures OnePerGroup(Reconciled(rows, ranking))
  {
    NothingDuplicated(rows, ranking);
    DuplicatedMeans(Reconciled(rows, ranking));
  }

  // ----- the primary sequence

  function Primaries(rows: Table<string>): set<int> {
    set i | i in rows && rows[i].flagged
  }

  /** The read takes the first primary row of all, whatever its book. */
  predicate IsPrimary(rows: Table<string>, i: int) {
    First(rows, OldestFirst, Primaries(rows), i)
  }

  lemma StillPrimary(rows: Table<string>, i: int)
    requires IsPrimary(rows, i)
    ensures IsPrimary(Reconciled(rows, OldestFirst), i)
  {
    var now := Reconciled(rows, OldestFirst);
    assert i in Primaries(rows);
    forall j | j in FlaggedIn(rows, rows[i].group) && j != i
      ensures Ahead(rows, OldestFirst, i, j)
    {
      assert j in Primaries(rows);
    }
    assert i in FlaggedIn(rows, rows[i].group);
    assert Wins(rows, OldestFirst, i) && i in Primaries(now);
    forall j | j in Primaries(now) && j != i
      ensures Ahead(now, OldestFirst, i, j)
    {
      assert j in Primaries(rows);
    }
  }

  lemma AheadOfLosers(rows: Table<string>, i: int, j: int)
    requires IsPrimary(Reconciled(rows, OldestFirst), i) && j in Primaries(rows) && j != i && i in rows
    ensures Ahead(rows, OldestFirst, i, j)
  {
    var now := Reconciled(rows, OldestFirst);
    assert rows[j].group in Groups(rows);
    var winner := OneIsLeft(rows, OldestFirst, rows[j].group);
    assert winner in FlaggedIn(now, rows[j].group);
    assert winner in Primaries(now);
    assert j in FlaggedIn(rows, rows[j].group);
    assert winner == i || Ahead(now, OldestFirst, i, winner);
    assert winner == j || Ahead(rows, OldestFirst, winner, j);
  }

  /** So it reads the same row before and after the reconcile. */
  lemma PrimaryIsUnchanged(rows: Table<string>, i: int)
    ensures IsPrimary(Reconciled(rows, OldestFirst), i) <==> IsPrimary(rows, i)
  {
    if IsPrimary(rows, i) { StillPrimary(rows, i); }
    if IsPrimary(Reconciled(rows, OldestFirst), i) {
      assert i in Primaries(rows);
      forall j | j in Primaries(rows) && j != i
        ensures Ahead(rows, OldestFirst, i, j)
      {
        AheadOfLosers(rows, i, j);
      }
    }
  }
}
