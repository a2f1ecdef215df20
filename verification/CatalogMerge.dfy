/**
 Merging a fork's catalog back (mergeRefs, src/fork.ts): every key of every semantic table,
 conflicts and touched resources collected on the way. A table is a map from the text of its
 primary key to the row.
 */
module CatalogMerge {
  import opened Wrappers
  import opened Collections
  import opened RowMerge

  type Table = map<string, Row>

  type Catalog = map<string, Table>

  datatype TableShape = TableShape(table: string, primaryKey: seq<string>)

  datatype RowConflict = RowConflict(table: string, key: string, reason: Reason)

  /** A name in the write set: a kind and the column values it is made of. */
  datatype Resource = Resource(kind: string, values: seq<Value>)

  function TableOf(c: Catalog, table: string): Table {
    if table in c then c[table] else map[]
  }

  function RowAt(c: Catalog, table: string, key: string): Option<Row> {
    if key in TableOf(c, table) then Some(TableOf(c, table)[key]) else None
  }

  /** String(row[column] ?? "") before it is turned into text. */
  function Field(row: Row, column: string): Value {
    if column in row && row[column] != Null then row[column] else Text("")
  }

  function ResourcesFor(shape: TableShape, row: Row): set<Resource> {
    var one := (kind: string, column: string) => Resource(kind, [Field(row, column)]);
    if shape.table == "sequences" then {one("sequence", "sequence_id")}
    else if shape.table == "sequence_tracks" then {one("sequence", "sequence_id"), one("track", "track_id")}
    else if shape.table == "sequence_clips" then {one("clip", "clip_id"), one("track", "track_id")}
    else if shape.table in {"clip_links", "clip_transforms"} then {one("clip", "clip_id")}
    else if shape.table == "transitions" then {one("transition", "transition_id")}
    else if shape.table == "caption_cues" then {one("track", "track_id")}
    else if shape.table in {"artifacts", "artifact_files", "artifact_streams", "artifact_metadata", "audio_waveforms"} then
      {one("artifact", "artifact_id")}
    else if shape.table == OBJECTS then {one("object", "object_hash")}
    else if shape.table in {"transcripts", "transcript_segments"} then {one("transcript", "transcript_id")}
    else if shape.table in {"book", "book_metadata"} then {Resource("book", [])}
    else if shape.table in {"notebooks", "cells", "edges", "runs", "cell_references", "pinned_search_results"} then
      {one("notebook", "notebook_id")}
    else {Resource(shape.table, seq(|shape.primaryKey|, i requires 0 <= i < |shape.primaryKey| => Field(row, shape.primaryKey[i])))}
  }

  // ----- the merge of two catalogs, key by key

  function OutcomeAt(base: Catalog, ours: Catalog, theirs: Catalog, table: string, key: string): Outcome {
    MergeRow(table, RowAt(base, table, key), RowAt(ours, table, key), RowAt(theirs, table, key))
  }

  function MergedAt(base: Catalog, ours: Catalog, theirs: Catalog, table: string, key: string): Option<Row> {
    Applied(RowAt(ours, table, key), OutcomeAt(base, ours, theirs, table, key))
  }

  /** The keys the loop visits. */
  function Keys(base: Catalog, theirs: Catalog, table: string): set<string> {
    TableOf(base, table).Keys + TableOf(theirs, table).Keys
  }

  function MergedTable(base: Catalog, ours: Catalog, theirs: Catalog, table: string): Table {
    map key | key in TableOf(ours, table).Keys + TableOf(theirs, table).Keys && MergedAt(base, ours, theirs, table, key).Some?
      :: MergedAt(base, ours, theirs, table, key).value
  }

  function ConflictsIn(base: Catalog, ours: Catalog, theirs: Catalog, table: string): set<RowConflict> {
    set key | key in Keys(base, theirs, table) && OutcomeAt(base, ours, theirs, table, key).Conflict?
      :: RowConflict(table, key, OutcomeAt(base, ours, theirs, table, key).reason)
  }

  /** The row a change is told about: the new one, or the one deleted. */
  function Touched(base: Catalog, ours: Catalog, theirs: Catalog, table: string, key: string): Option<Row> {
    var outcome := OutcomeAt(base, ours, theirs, table, key);
    if outcome.Put? then Some(outcome.row) else if outcome.Delete? then RowAt(ours, table, key) else None
  }

  function ResourcesAt(base: Catalog, ours: Catalog, theirs: Catalog, shape: TableShape, key: string): set<Resource> {
    var touched := Touched(base, ours, theirs, shape.table, key);
    if touched.Some? then ResourcesFor(shape, touched.value) else {}
  }

  function TouchedIn(base: Catalog, ours: Catalog, theirs: Catalog, shape: TableShape): set<Resource> {
    set key, resource | key in Keys(base, theirs, shape.table) && resource in ResourcesAt(base, ours, theirs, shape, key) :: resource
  }

  predicate ChangesIn(base: Catalog, ours: Catalog, theirs: Catalog, table: string) {
    exists key | key in Keys(base, theirs, table) :: Touched(base, ours, theirs, table, key).Some?
  }

  function Tables(shapes: seq<TableShape>): set<string> {
    set shape | shape in shapes :: shape.table
  }

  function MergeCatalog(shapes: seq<TableShape>, base: Catalog, ours: Catalog, theirs: Catalog): Catalog {
    map table | table in Tables(shapes) :: MergedTable(base, ours, theirs, table)
  }

  /** A row seen by neither base nor theirs stays, so the merged table answers for every key. */
  lemma MergedRowAt(shapes: seq<TableShape>, base: Catalog, ours: Catalog, theirs: Catalog, table: string, key: string)
    requires table in Tables(shapes)
    ensures RowAt(MergeCatalog(shapes, base, ours, theirs), table, key) == MergedAt(base, ours, theirs, table, key)
    ensures key !in Keys(base, theirs, table) ==> MergedAt(base, ours, theirs, table, key) == RowAt(ours, table, key)
  {
  }

  // ----- the loops

  datatype TableMerge = TableMerge(rows: Table, conflicts: set<RowConflict>, writeSet: set<Resource>, changed: bool)

  /** One turn of the key loop. */
  function ApplyOutcome(m: TableMerge, shape: TableShape, key: string, ours: Table, outcome: Outcome): TableMerge {
    match outcome
    case Keep => m
    case Put(row) => m.(rows := m.rows[key := row], writeSet := m.writeSet + ResourcesFor(shape, row), changed := true)
    case Delete =>
      m.(rows := m.rows - {key}, writeSet := m.writeSet + (if key in ours then ResourcesFor(shape, ours[key]) else {}), changed := true)
    case Conflict(reason) => m.(conflicts := m.conflicts + {RowConflict(shape.table, key, reason)})
  }

  function VisitedConflicts(base: Catalog, ours: Catalog, theirs: Catalog, table: string, done: set<string>): set<RowConflict> {
    set key | key in done && OutcomeAt(base, ours, theirs, table, key).Conflict?
      :: RowConflict(table, key, OutcomeAt(base, ours, theirs, table, key).reason)
  }

  function VisitedResources(base: Catalog, ours: Catalog, theirs: Catalog, shape: TableShape, done: set<string>): set<Resource> {
    set key, resource | key in done && resource in ResourcesAt(base, ours, theirs, shape, key) :: resource
  }

  ghost predicate VisitedRows(base: Catalog, ours: Catalog, theirs: Catalog, table: string, done: set<string>, rows: Table) {
    forall key :: (if key in rows then Some(rows[key]) else None) ==
      if key in done then MergedAt(base, ours, theirs, table, key) else RowAt(ours, table, key)
  }

  ghost predicate Visited(base: Catalog, ours: Catalog, theirs: Catalog, shape: TableShape, done: set<string>, m: TableMerge) {
    && VisitedRows(base, ours, theirs, shape.table, done, m.rows)
    && m.conflicts == VisitedConflicts(base, ours, theirs, shape.table, done)
    && m.writeSet == VisitedResources(base, ours, theirs, shape, done)
    && (m.changed <==> exists key | key in done :: Touched(base, ours, theirs, shape.table, key).Some?)
  }

  /** The outcome puts the merged row under its key and leaves the other keys. */
  lemma OutcomeApplied(m: TableMerge, shape: TableShape, key: string, ours: Table, outcome: Outcome, other: string)
    ensures var m' := ApplyOutcome(m, shape, key, ours, outcome);
            && (other != key ==> (other in m'.rows <==> other in m.rows) && (other in m.rows ==> m'.rows[other] == m.rows[other]))
            && (outcome.Put? ==> key in m'.rows && m'.rows[key] == outcome.row)
            && (outcome.Delete? ==> key !in m'.rows)
            && (outcome.Keep? || outcome.Conflict? ==> m'.rows == m.rows)
  {
  }

  lemma VisitRow(base: Catalog, ours: Catalog, theirs: Catalog, shape: TableShape, done: set<string>, key: string, m: TableMerge)
    requires VisitedRows(base, ours, theirs, shape.table, done, m.rows) && key !in done
    ensures var outcome := OutcomeAt(base, ours, theirs, shape.table, key);
            var m' := ApplyOutcome(m, shape, key, TableOf(ours, shape.table), outcome);
            VisitedRows(base, ours, theirs, shape.table, done + {key}, m'.rows)
  {
    var outcome := OutcomeAt(base, ours, theirs, shape.table, key);
    var rows := ApplyOutcome(m, shape, key, TableOf(ours, shape.table), outcome).rows;
    forall other
      ensures (if other in rows then Some(rows[other]) else None) ==
                if other in done + {key} then MergedAt(base, ours, theirs, shape.table, other) else RowAt(ours, shape.table, other)
    {
      OutcomeApplied(m, shape, key, TableOf(ours, shape.table), outcome, other);
    }
  }

  lemma VisitConflict(base: Catalog, ours: Catalog, theirs: Catalog, table: string, done: set<string>, key: string)
    ensures var outcome := OutcomeAt(base, ours, theirs, table, key);
            VisitedConflicts(base, ours, theirs, table, done + {key}) ==
              VisitedConflicts(base, ours, theirs, table, done) + (if outcome.Conflict? then {RowConflict(table, key, outcome.reason)} else {})
  {
  }

  lemma VisitResource(base: Catalog, ours: Catalog, theirs: Catalog, shape: TableShape, done: set<string>, key: string)
    ensures VisitedResources(base, ours, theirs, shape, done + {key}) ==
              VisitedResources(base, ours, theirs, shape, done) + ResourcesAt(base, ours, theirs, shape, key)
  {
  }

  lemma VisitKey(base: Catalog, ours: Catalog, theirs: Catalog, shape: TableShape, done: set<string>, key: string, m: TableMerge)
    requires Visited(base, ours, theirs, shape, done, m) && key !in done
    ensures var outcome := OutcomeAt(base, ours, theirs, shape.table, key);
            Visited(base, ours, theirs, shape, done + {key}, ApplyOutcome(m, shape, key, TableOf(ours, shape.table), outcome))
  {
    var m' := ApplyOutcome(m, shape, key, TableOf(ours, shape.table), OutcomeAt(base, ours, theirs, shape.table, key));
    VisitRow(base, ours, theirs, shape, done, key, m);
    VisitConflict(base, ours, theirs, shape.table, done, key);
    VisitResource(base, ours, theirs, shape, done, key);
    assert m'.writeSet == m.writeSet + ResourcesAt(base, ours, theirs, shape, key);
    assert m'.changed <==> m.changed || Touched(base, ours, theirs, shape.table, key).Some?;
  }

  lemma AllVisited(base: Catalog, ours: Catalog, theirs: Catalog, shape: TableShape, m: TableMerge)
    requires Visited(base, ours, theirs, shape, Keys(base, theirs, shape.table), m)
    ensures m.rows == MergedTable(base, ours, theirs, shape.table)
  {
    var merged := MergedTable(base, ours, theirs, shape.table);
    forall key
      ensures key in m.rows <==> key in merged
      ensures key in m.rows ==> m.rows[key] == merged[key]
    {
      var row := if key in m.rows then Some(m.rows[key]) else None;
      if key in Keys(base, theirs, shape.table) {
        assert row == MergedAt(base, ours, theirs, shape.table, key);
      } else {
        assert row == RowAt(ours, shape.table, key) == MergedAt(base, ours, theirs, shape.table, key);
      }
    }
  }

  method MergeTable(shape: TableShape, base: Catalog, ours: Catalog, theirs: Catalog) returns (m: TableMerge)
    ensures m.rows == MergedTable(base, ours, theirs, shape.table)
    ensures m.conflicts == ConflictsIn(base, ours, theirs, shape.table)
    ensures m.writeSet == TouchedIn(base, ours, theirs, shape)
    ensures m.changed <==> ChangesIn(base, ours, theirs, shape.table)
  {
    var ourTable := TableOf(ours, shape.table);
    m := TableMerge(ourTable, {}, {}, false);
    var keys := Keys(base, theirs, shape.table);
    var rest := keys;
    while rest != {}
      invariant rest <= keys && Visited(base, ours, theirs, shape, keys - rest, m)
      decreases rest
    {
      var key :| key in rest;
      VisitKey(base, ours, theirs, shape, keys - rest, key, m);
      OneLeftLess(keys, rest, key);
      m := ApplyOutcome(m, shape, key, ourTable, OutcomeAt(base, ours, theirs, shape.table, key));
      rest := rest - {key};
    }
    assert keys - rest == keys;
    AllVisited(base, ours, theirs, shape, m);
  }

  /** Conflicts refuse the merge; without changes nothing is written; else the new rows and what they touch. */
  datatype MergeResult = Refused(conflicts: set<RowConflict>) | NothingToDo | Merged(rows: Catalog, writeSet: set<Resource>)

  function AllConflicts(shapes: seq<TableShape>, base: Catalog, ours: Catalog, theirs: Catalog): set<RowConflict> {
    if shapes == [] then {}
    else AllConflicts(shapes[..|shapes| - 1], base, ours, theirs) + ConflictsIn(base, ours, theirs, shapes[|shapes| - 1].table)
  }

  function AllTouched(shapes: seq<TableShape>, base: Catalog, ours: Catalog, theirs: Catalog): set<Resource> {
    if shapes == [] then {}
    else AllTouched(shapes[..|shapes| - 1], base, ours, theirs) + TouchedIn(base, ours, theirs, shapes[|shapes| - 1])
  }

  predicate AnyChange(shapes: seq<TableShape>, base: Catalog, ours: Catalog, theirs: Catalog) {
    shapes != [] &&
    (AnyChange(shapes[..|shapes| - 1], base, ours, theirs) || ChangesIn(base, ours, theirs, shapes[|shapes| - 1].table))
  }

  lemma OneMoreShape(shapes: seq<TableShape>, i: nat)
    requires i < |shapes|
    ensures shapes[..i + 1] == shapes[..i] + [shapes[i]]
    ensures shapes[..i + 1][..|shapes[..i + 1]| - 1] == shapes[..i]
  {
  }

  lemma TablesGrow(shapes: seq<TableShape>, i: nat)
    requires i < |shapes|
    ensures Tables(shapes[..i + 1]) == Tables(shapes[..i]) + {shapes[i].table}
  {
    assert shapes[..i + 1] == shapes[..i] + [shapes[i]];
    forall table | table in Tables(shapes[..i]) + {shapes[i].table}
      ensures table in Tables(shapes[..i + 1])
    {
      if table != shapes[i].table {
        var shape :| shape in shapes[..i] && shape.table == table;
        assert shape in shapes[..i + 1];
      } else {
        assert shapes[i] in shapes[..i + 1];
      }
    }
  }

  lemma OneMoreCatalog(shapes: seq<TableShape>, base: Catalog, ours: Catalog, theirs: Catalog, i: nat)
    requires i < |shapes|
    ensures MergeCatalog(shapes[..i + 1], base, ours, theirs) ==
              MergeCatalog(shapes[..i], base, ours, theirs)[shapes[i].table := MergedTable(base, ours, theirs, shapes[i].table)]
  {
    TablesGrow(shapes, i);
  }

  method MergeRefs(shapes: seq<TableShape>, base: Catalog, ours: Catalog, theirs: Catalog) returns (r: MergeResult)
    ensures r.Refused? <==> AllConflicts(shapes, base, ours, theirs) != {}
    ensures r.Refused? ==> r.conflicts == AllConflicts(shapes, base, ours, theirs)
    ensures r.NothingToDo? <==> AllConflicts(shapes, base, ours, theirs) == {} && !AnyChange(shapes, base, ours, theirs)
    ensures r.Merged? ==> r.rows == MergeCatalog(shapes, base, ours, theirs)
    ensures r.Merged? ==> r.writeSet == AllTouched(shapes, base, ours, theirs)
  {
    var merged: Catalog := map[];
    var conflicts: set<RowConflict> := {};
    var writeSet: set<Resource> := {};
    var changed := false;
    for i := 0 to |shapes|
      invariant merged == MergeCatalog(shapes[..i], base, ours, theirs)
      invariant conflicts == AllConflicts(shapes[..i], base, ours, theirs)
      invariant writeSet == AllTouched(shapes[..i], base, ours, theirs)
      invariant changed == AnyChange(shapes[..i], base, ours, theirs)
    {
      var m := MergeTable(shapes[i], base, ours, theirs);
      OneMoreShape(shapes, i);
      OneMoreCatalog(shapes, base, ours, theirs, i);
      merged := merged[shapes[i].table := m.rows];
      conflicts := conflicts + m.conflicts;
      writeSet := writeSet + m.writeSet;
      changed := changed || m.changed;
    }
    assert shapes[..|shapes|] == shapes;
    if conflicts != {} { return Refused(conflicts); }
    if !changed { return NothingToDo; }
    return Merged(merged, writeSet);
  }

  // ----- what is collected, told without the order in which tables are visited

  /** The i-th table has the conflict. */
  predicate ConflictAt(shapes: seq<TableShape>, base: Catalog, ours: Catalog, theirs: Catalog, i: int, x: RowConflict) {
    0 <= i < |shapes| && x in ConflictsIn(base, ours, theirs, shapes[i].table)
  }

  /** A change of the i-th table touches the resource. */
  predicate TouchedAt(shapes: seq<TableShape>, base: Catalog, ours: Catalog, theirs: Catalog, i: int, x: Resource) {
    0 <= i < |shapes| && x in TouchedIn(base, ours, theirs, shapes[i])
  }

  /** The i-th table changes. */
  predicate ChangesAt(shapes: seq<TableShape>, base: Catalog, ours: Catalog, theirs: Catalog, i: int) {
    0 <= i < |shapes| && ChangesIn(base, ours, theirs, shapes[i].table)
  }

  /** What is said of a table is the same in the list and in a part of it. */
  lemma SameConflict(shapes: seq<TableShape>, base: Catalog, ours: Catalog, theirs: Catalog, n: nat, i: int, x: RowConflict)
    requires i < n <= |shapes|
    ensures ConflictAt(shapes[..n], base, ours, theirs, i, x) == ConflictAt(shapes, base, ours, theirs, i, x)
  {
  }

  lemma SameTouched(shapes: seq<TableShape>, base: Catalog, ours: Catalog, theirs: Catalog, n: nat, i: int, x: Resource)
    requires i < n <= |shapes|
    ensures TouchedAt(shapes[..n], base, ours, theirs, i, x) == TouchedAt(shapes, base, ours, theirs, i, x)
  {
  }

  lemma SameChange(shapes: seq<TableShape>, base: Catalog, ours: Catalog, theirs: Catalog, n: nat, i: int)
    requires i < n <= |shapes|
    ensures ChangesAt(shapes[..n], base, ours, theirs, i) == ChangesAt(shapes, base, ours, theirs, i)
  {
  }

  lemma {:induction false} ConflictsCollected(shapes: seq<TableShape>, base: Catalog, ours: Catalog, theirs: Catalog, x: RowConflict)
    ensures x in AllConflicts(shapes, base, ours, theirs) <==> exists i :: ConflictAt(shapes, base, ours, theirs, i, x)
    decreases |shapes|
  {
    if shapes == [] {
    } else {
      var n := |shapes| - 1;
      ConflictsCollected(shapes[..n], base, ours, theirs, x);
      forall i | i < n
        ensures ConflictAt(shapes[..n], base, ours, theirs, i, x) == ConflictAt(shapes, base, ours, theirs, i, x)
      {
        SameConflict(shapes, base, ours, theirs, n, i, x);
      }
      assert ConflictAt(shapes, base, ours, theirs, n, x) <==> x in ConflictsIn(base, ours, theirs, shapes[n].table);
    }
  }

  lemma {:induction false} ResourcesCollected(shapes: seq<TableShape>, base: Catalog, ours: Catalog, theirs: Catalog, x: Resource)
    ensures x in AllTouched(shapes, base, ours, theirs) <==> exists i :: TouchedAt(shapes, base, ours, theirs, i, x)
    decreases |shapes|
  {
    if shapes == [] {
    } else {
      var n := |shapes| - 1;
      ResourcesCollected(shapes[..n], base, ours, theirs, x);
      forall i | i < n
        ensures TouchedAt(shapes[..n], base, ours, theirs, i, x) == TouchedAt(shapes, base, ours, theirs, i, x)
      {
        SameTouched(shapes, base, ours, theirs, n, i, x);
      }
      assert TouchedAt(shapes, base, ours, theirs, n, x) <==> x in TouchedIn(base, ours, theirs, shapes[n]);
    }
  }

  lemma {:induction false} ChangesCollected(shapes: seq<TableShape>, base: Catalog, ours: Catalog, theirs: Catalog)
    ensures AnyChange(shapes, base, ours, theirs) <==> exists i :: ChangesAt(shapes, base, ours, theirs, i)
    decreases |shapes|
  {
    if shapes == [] {
    } else {
      var n := |shapes| - 1;
      ChangesCollected(shapes[..n], base, ours, theirs);
      forall i | i < n
        ensures ChangesAt(shapes[..n], base, ours, theirs, i) == ChangesAt(shapes, base, ours, theirs, i)
      {
        SameChange(shapes, base, ours, theirs, n, i);
      }
      assert ChangesAt(shapes, base, ours, theirs, n) <==> ChangesIn(base, ours, theirs, shapes[n].table);
    }
  }
}
