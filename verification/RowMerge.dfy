/** Three-way merge of one row (src/fork.ts), and the algebra it obeys. */
module RowMerge {
  import opened Wrappers

  /** What a column can hold. Numbers are compared, never computed with. */
  datatype Value = Null | Num(n: real) | Text(text: string) | Blob(bytes: seq<bv8>)

  type Row = map<string, Value>

  const OBJECTS := "objects"
  const FORGOTTEN := "forgotten_at"

  // ----- comparing rows

  function HexDigit(d: bv8): char {
    if d < 10 then (48 + d as int) as char else (87 + d as int) as char
  }

  function Hex(bytes: seq<bv8>): string {
    if bytes == [] then "" else [HexDigit(bytes[0] >> 4), HexDigit(bytes[0] & 15)] + Hex(bytes[1..])
  }

  /** Bytes compare as their tagged hexadecimal text. */
  function Comparable(v: Value): Value {
    match v
    case Blob(bytes) => Text("blob:" + Hex(bytes))
    case _ => v
  }

  /** A column of a row; a missing one reads as null. */
  function Cell(row: Row, column: string): Value {
    if column in row then Comparable(row[column]) else Null
  }

  predicate RowsEqual(left: Row, right: Row) {
    forall column | column in left.Keys + right.Keys :: Cell(left, column) == Cell(right, column)
  }

  /** What comparing can see of a row: its non-null columns in comparable form. */
  function Canon(row: Row): Row {
    map column | column in row && Comparable(row[column]) != Null :: Comparable(row[column])
  }

  lemma CanonCell(row: Row, column: string)
    ensures Cell(Canon(row), column) == Cell(row, column)
    ensures column in Canon(row) <==> Cell(row, column) != Null
  {
  }

  lemma RowsEqualIsCanon(left: Row, right: Row)
    ensures RowsEqual(left, right) <==> Canon(left) == Canon(right)
  {
    if RowsEqual(left, right) {
      forall column
        ensures column in Canon(left) <==> column in Canon(right)
        ensures column in Canon(left) ==> Canon(left)[column] == Canon(right)[column]
      {
        CanonCell(left, column);
        CanonCell(right, column);
        if column !in left.Keys + right.Keys { assert Cell(left, column) == Cell(right, column); }
      }
    } else {
      var column :| column in left.Keys + right.Keys && Cell(left, column) != Cell(right, column);
      CanonCell(left, column);
      CanonCell(right, column);
    }
  }

  // ----- objects rows

  /** The stamp both sides end up with: the earlier one, a forget winning over none. */
  function Earlier(a: Value, b: Value): Value {
    if a != Null && b != Null then
      if a.Num? && b.Num? && b.n < a.n then b else a
    else if a != Null then a else b
  }

  /** The forgotten_at column is an integer column. */
  predicate StampTyped(row: Row) {
    Cell(row, FORGOTTEN) == Null || Cell(row, FORGOTTEN).Num?
  }

  predicate SameExceptStamp(ours: Row, theirs: Row) {
    forall column | column in ours.Keys + theirs.Keys && column != FORGOTTEN :: Cell(ours, column) == Cell(theirs, column)
  }

  /** Objects rows that differ in the stamp only are merged instead of conflicting. */
  function ResolveObjectsRow(table: string, ours: Row, theirs: Row): Option<Row> {
    if table != OBJECTS || !SameExceptStamp(ours, theirs) then None
    else Some(ours[FORGOTTEN := Earlier(Cell(ours, FORGOTTEN), Cell(theirs, FORGOTTEN))])
  }

  // ----- one row

  datatype Reason = AddedDifferently | ModifiedDeleted | DeletedModified | ModifiedDifferently

  datatype Outcome = Keep | Put(row: Row) | Delete | Conflict(reason: Reason)

  function Resolved(table: string, o: Row, t: Row, otherwise: Reason): Outcome {
    var resolved := ResolveObjectsRow(table, o, t);
    if resolved.None? then Conflict(otherwise)
    else if RowsEqual(resolved.value, o) then Keep
    else Put(resolved.value)
  }

  /** The branches of the merge loop for one key. */
  function MergeRow(table: string, b: Option<Row>, o: Option<Row>, t: Option<Row>): Outcome {
    if t.Some? && b.None? then
      if o.None? then Put(t.value)
      else if RowsEqual(o.value, t.value) then Keep
      else Resolved(table, o.value, t.value, AddedDifferently)
    else if t.None? && b.Some? then
      if o.None? then Keep
      else if RowsEqual(o.value, b.value) then Delete
      else Conflict(ModifiedDeleted)
    else if t.Some? && b.Some? && !RowsEqual(t.value, b.value) then
      if o.None? then Conflict(DeletedModified)
      else if RowsEqual(o.value, b.value) || RowsEqual(o.value, t.value) then
        if RowsEqual(o.value, t.value) then Keep else Put(t.value)
      else Resolved(table, o.value, t.value, ModifiedDifferently)
    else Keep
  }

  function Applied(o: Option<Row>, outcome: Outcome): Option<Row> {
    match outcome
    case Put(row) => Some(row)
    case Delete => None
    case _ => o
  }

  // ----- the algebra on canonical rows

  function CanonOpt(r: Option<Row>): Option<Row> {
    if r.Some? then Some(Canon(r.value)) else None
  }

  function Stamp(r: Option<Row>): Value {
    if r.Some? && FORGOTTEN in r.value then r.value[FORGOTTEN] else Null
  }

  predicate Typed(r: Option<Row>) {
    Stamp(r) == Null || Stamp(r).Num?
  }

  predicate CanonRow(r: Option<Row>) {
    r.Some? ==> forall column | column in r.value :: r.value[column] != Null
  }

  function Rest(r: Row): Row {
    r - {FORGOTTEN}
  }

  /** The changes of two sides can be told as one: for objects rows, when only the stamps differ. */
  predicate Resolvable(table: string, x: Option<Row>, y: Option<Row>) {
    table == OBJECTS && x.Some? && y.Some? && Rest(x.value) == Rest(y.value)
  }

  /**
   The merge on canonical rows: an unchanged side yields to the other, equal changes are one
   change, and of two resolvable changes the one with the earlier stamp wins. None is a conflict.
   */
  function Combine(table: string, b: Option<Row>, o: Option<Row>, t: Option<Row>): Option<Option<Row>> {
    if t == b then Some(o)
    else if o == b || o == t then Some(t)
    else if Resolvable(table, o, t) then Some(if Earlier(Stamp(o), Stamp(t)) == Stamp(o) then o else t)
    else None
  }

  lemma StampOfCanon(r: Option<Row>)
    ensures r.Some? ==> Stamp(CanonOpt(r)) == Cell(r.value, FORGOTTEN)
    ensures r.Some? ==> (Typed(CanonOpt(r)) <==> StampTyped(r.value))
    ensures CanonRow(CanonOpt(r))
  {
    if r.Some? { CanonCell(r.value, FORGOTTEN); }
  }

  lemma SameExceptStampIsRest(o: Row, t: Row)
    ensures SameExceptStamp(o, t) <==> Rest(Canon(o)) == Rest(Canon(t))
  {
    if SameExceptStamp(o, t) {
      forall column
        ensures column in Rest(Canon(o)) <==> column in Rest(Canon(t))
        ensures column in Rest(Canon(o)) ==> Rest(Canon(o))[column] == Rest(Canon(t))[column]
      {
        CanonCell(o, column);
        CanonCell(t, column);
      }
    } else {
      var column :| column in o.Keys + t.Keys && column != FORGOTTEN && Cell(o, column) != Cell(t, column);
      CanonCell(o, column);
      CanonCell(t, column);
      assert column in Rest(Canon(o)) || column in Rest(Canon(t));
    }
  }

  /** A resolved row is, as far as comparing can see, one of the two rows it came from. */
  lemma ResolvedIsOneOfThem(o: Row, t: Row)
    requires StampTyped(o) && StampTyped(t) && SameExceptStamp(o, t)
    ensures var r := o[FORGOTTEN := Earlier(Cell(o, FORGOTTEN), Cell(t, FORGOTTEN))];
            Canon(r) == if Earlier(Cell(o, FORGOTTEN), Cell(t, FORGOTTEN)) == Cell(o, FORGOTTEN) then Canon(o) else Canon(t)
  {
    var stamp := Earlier(Cell(o, FORGOTTEN), Cell(t, FORGOTTEN));
    var r := o[FORGOTTEN := stamp];
    var w := if stamp == Cell(o, FORGOTTEN) then o else t;
    forall column | column in r.Keys + w.Keys
      ensures Cell(r, column) == Cell(w, column)
    {
    }
    RowsEqualIsCanon(r, w);
  }

  lemma ResolvedIsCombine(table: string, b: Option<Row>, o: Row, t: Row, otherwise: Reason)
    requires StampTyped(o) && StampTyped(t) && !RowsEqual(o, t)
    requires CanonOpt(b) != Some(Canon(o)) && CanonOpt(b) != Some(Canon(t))
    ensures var outcome, combined := Resolved(table, o, t, otherwise), Combine(table, CanonOpt(b), Some(Canon(o)), Some(Canon(t)));
            && (outcome.Conflict? <==> combined.None?)
            && (!outcome.Conflict? ==> CanonOpt(Applied(Some(o), outcome)) == combined.value)
            && !outcome.Delete?
  {
    RowsEqualIsCanon(o, t);
    SameExceptStampIsRest(o, t);
    StampOfCanon(Some(o));
    StampOfCanon(Some(t));
    if table == OBJECTS && SameExceptStamp(o, t) {
      ResolvedIsOneOfThem(o, t);
      RowsEqualIsCanon(o[FORGOTTEN := Earlier(Cell(o, FORGOTTEN), Cell(t, FORGOTTEN))], o);
    }
  }

  ghost predicate TypedOpt(r: Option<Row>) {
    r.Some? ==> StampTyped(r.value)
  }

  /** The loop's branches compute the algebra, as far as comparing can see. */
  lemma MergeRowIsCombine(table: string, b: Option<Row>, o: Option<Row>, t: Option<Row>)
    requires TypedOpt(o) && TypedOpt(t)
    ensures var outcome, combined := MergeRow(table, b, o, t), Combine(table, CanonOpt(b), CanonOpt(o), CanonOpt(t));
            && (outcome.Conflict? <==> combined.None?)
            && (!outcome.Conflict? ==> CanonOpt(Applied(o, outcome)) == combined.value)
  {
    if b.Some? && t.Some? { RowsEqualIsCanon(t.value, b.value); }
    if b.Some? && o.Some? { RowsEqualIsCanon(o.value, b.value); }
    if o.Some? && t.Some? {
      RowsEqualIsCanon(o.value, t.value);
      if CanonOpt(b) != CanonOpt(o) && CanonOpt(b) != CanonOpt(t) && !RowsEqual(o.value, t.value) {
        ResolvedIsCombine(table, b, o.value, t.value, if b.None? then AddedDifferently else ModifiedDifferently);
      }
    }
  }

  /** Nothing is written unless comparing can see the difference. */
  lemma KeepMeansUnchanged(table: string, b: Option<Row>, o: Option<Row>, t: Option<Row>)
    ensures var outcome := MergeRow(table, b, o, t);
            !outcome.Conflict? ==> (outcome == Keep <==> CanonOpt(Applied(o, outcome)) == CanonOpt(o))
  {
    if b.Some? && o.Some? { RowsEqualIsCanon(o.value, b.value); }
    if o.Some? && t.Some? {
      RowsEqualIsCanon(o.value, t.value);
      var resolved := ResolveObjectsRow(table, o.value, t.value);
      if resolved.Some? { RowsEqualIsCanon(resolved.value, o.value); }
    }
  }

  // ----- laws of Combine

  lemma SameRestSameStamp(x: Row, y: Row)
    requires CanonRow(Some(x)) && CanonRow(Some(y)) && Rest(x) == Rest(y) && Stamp(Some(x)) == Stamp(Some(y))
    ensures x == y
  {
    assert forall column :: column in x <==> column in y by {
      forall column
        ensures column in x <==> column in y
      {
        assert column != FORGOTTEN ==> (column in x <==> column in Rest(x)) && (column in y <==> column in Rest(y));
      }
    }
    forall column | column in x
      ensures x[column] == y[column]
    {
      if column != FORGOTTEN { assert Rest(x)[column] == Rest(y)[column]; }
    }
  }

  /** Which of two resolvable rows wins does not depend on which side each is on. */
  lemma CombineCommutes(table: string, b: Option<Row>, x: Option<Row>, y: Option<Row>)
    requires Typed(x) && Typed(y) && CanonRow(x) && CanonRow(y)
    ensures Combine(table, b, x, y) == Combine(table, b, y, x)
  {
    if Resolvable(table, x, y) && Stamp(x) == Stamp(y) { SameRestSameStamp(x.value, y.value); }
  }

  function CombineAll(table: string, b: Option<Row>, p: Option<Option<Row>>, x: Option<Row>): Option<Option<Row>> {
    if p.None? then None else Combine(table, b, p.value, x)
  }

  /** The winner of a merge is one of the rows that went in. */
  lemma CombineIsOneOfThem(table: string, b: Option<Row>, x: Option<Row>, y: Option<Row>)
    ensures Combine(table, b, x, y).Some? ==> Combine(table, b, x, y).value in {x, y}
  {
  }

  /** Two merges in a row can be exchanged, conflicts included. */
  lemma CombineSwaps(table: string, b: Option<Row>, p: Option<Row>, x: Option<Row>, y: Option<Row>)
    requires Typed(p) && Typed(x) && Typed(y) && CanonRow(p) && CanonRow(x) && CanonRow(y)
    ensures CombineAll(table, b, Combine(table, b, p, x), y) == CombineAll(table, b, Combine(table, b, p, y), x)
  {
    CombineCommutes(table, b, x, y);
    CombineCommutes(table, b, p, x);
    CombineCommutes(table, b, p, y);
  }

  /** Merging the same change again changes nothing. */
  lemma CombineAbsorbs(table: string, b: Option<Row>, o: Option<Row>, t: Option<Row>)
    requires Typed(o) && Typed(t) && CanonRow(o) && CanonRow(t)
    ensures CombineAll(table, b, Combine(table, b, o, t), t) == Combine(table, b, o, t)
  {
  }
}
