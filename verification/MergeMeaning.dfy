/**
 What a merge does with a row and what it reports (mergeRefs, src/fork.ts), said of the three rows
 alone: by which of them look the same, not by the branches taken.
 */
module MergeMeaning {
  import opened Wrappers
  import opened RowMerge
  import opened CatalogMerge
  import opened MergeLaws

  // ----- what comparing can see

  lemma DigitsDiffer(a: bv8, b: bv8)
    requires a < 16 && b < 16
    ensures HexDigit(a) == HexDigit(b) <==> a == b
  {
  }

  lemma BytesDiffer(a: bv8, b: bv8)
    ensures a >> 4 == b >> 4 && a & 15 == b & 15 ==> a == b
    ensures a >> 4 < 16 && a & 15 < 16
  {
  }

  /** The text of some bytes: the two digits of the first, then the text of the others. */
  lemma HexApart(a: seq<bv8>)
    requires a != []
    ensures var h := Hex(a); |h| == 2 + |Hex(a[1..])| && h[0] == HexDigit(a[0] >> 4) && h[1] == HexDigit(a[0] & 15) && h[2..] == Hex(a[1..])
  {
  }

  lemma SameByte(a: bv8, b: bv8)
    ensures HexDigit(a >> 4) == HexDigit(b >> 4) && HexDigit(a & 15) == HexDigit(b & 15) ==> a == b
  {
    BytesDiffer(a, b);
    BytesDiffer(b, a);
    DigitsDiffer(a >> 4, b >> 4);
    DigitsDiffer(a & 15, b & 15);
  }

  lemma {:induction false} HexIsInjective(a: seq<bv8>, b: seq<bv8>)
    ensures |Hex(a)| == 2 * |a|
    ensures Hex(a) == Hex(b) <==> a == b
    decreases |a|
  {
    if a == [] {
      if b != [] { HexApart(b); }
    } else if b == [] {
      HexApart(a);
      HexIsInjective(a[1..], b);
    } else {
      hide Hex, HexDigit;
      HexApart(a);
      HexApart(b);
      HexIsInjective(a[1..], b[1..]);
      SameByte(a[0], b[0]);
      assert a == [a[0]] + a[1..] && b == [b[0]] + b[1..];
    }
  }

  const HEX_DIGITS := "0123456789abcdef"

  lemma DigitRead(d: bv8)
    requires d < 16
    ensures HexDigit(d) == HEX_DIGITS[d as int]
  {
    if d < 10 {
      assert d == 0 || d == 1 || d == 2 || d == 3 || d == 4 || d == 5 || d == 6 || d == 7 || d == 8 || d == 9;
    } else {
      assert d == 10 || d == 11 || d == 12 || d == 13 || d == 14 || d == 15;
    }
  }

  /** Byte i is written as its high and its low digit, in lower case. */
  lemma {:induction false} HexRead(bytes: seq<bv8>, i: nat)
    requires i < |bytes|
    ensures |Hex(bytes)| == 2 * |bytes|
    ensures bytes[i] / 16 < 16 && bytes[i] % 16 < 16
    ensures Hex(bytes)[2 * i] == HEX_DIGITS[(bytes[i] / 16) as int] && Hex(bytes)[2 * i + 1] == HEX_DIGITS[(bytes[i] % 16) as int]
    decreases i
  {
    HexIsInjective(bytes, bytes);
    var b := bytes[i];
    assert b / 16 == b >> 4 && b % 16 == b & 15;
    if i == 0 {
      DigitRead(b >> 4);
      DigitRead(b & 15);
    } else {
      HexRead(bytes[1..], i - 1);
      assert Hex(bytes)[2..] == Hex(bytes[1..]);
    }
  }

  /** Two values compare equal when they are, or when one is the tagged text of the other's bytes. */
  lemma ValuesCompare(v: Value, w: Value)
    ensures Comparable(v) == Comparable(w) <==>
              || v == w
              || (v.Blob? && w == Text("blob:" + Hex(v.bytes)))
              || (w.Blob? && v == Text("blob:" + Hex(w.bytes)))
  {
    if v.Blob? && w.Blob? {
      HexIsInjective(v.bytes, w.bytes);
      assert ("blob:" + Hex(v.bytes))[5..] == Hex(v.bytes) && ("blob:" + Hex(w.bytes))[5..] == Hex(w.bytes);
    }
  }

  /** Both are missing, or both are there and look the same in every column, a missing column reading as null. */
  ghost predicate Alike(x: Option<Row>, y: Option<Row>) {
    if x.Some? && y.Some? then forall column: string :: Cell(x.value, column) == Cell(y.value, column) else x == y
  }

  lemma AlikeIsEqual(x: Row, y: Row)
    ensures Alike(Some(x), Some(y)) <==> RowsEqual(x, y)
  {
    if RowsEqual(x, y) {
      forall column: string
        ensures Cell(x, column) == Cell(y, column)
      {
        if column !in x.Keys + y.Keys { assert Cell(x, column) == Null == Cell(y, column); }
      }
    }
  }

  /** Rows of objects that look the same but for when they were forgotten. */
  ghost predicate DifferInStamp(table: string, o: Option<Row>, t: Option<Row>) {
    table == "objects" && o.Some? && t.Some? &&
    forall column: string :: column != "forgotten_at" ==> Cell(o.value, column) == Cell(t.value, column)
  }

  lemma StampIsAllThatDiffers(table: string, o: Row, t: Row)
    ensures DifferInStamp(table, Some(o), Some(t)) <==> ResolveObjectsRow(table, o, t).Some?
  {
    if SameExceptStamp(o, t) {
      forall column: string | column != "forgotten_at"
        ensures Cell(o, column) == Cell(t, column)
      {
        if column !in o.Keys + t.Keys { assert Cell(o, column) == Null == Cell(t, column); }
      }
    }
  }

  // ----- the reasons of conflicts

  /** What a reported reason says of the row in the base, in ours and in theirs. */
  ghost predicate Justified(reason: Reason, table: string, b: Option<Row>, o: Option<Row>, t: Option<Row>) {
    match reason
    case AddedDifferently => b.None? && o.Some? && t.Some? && !Alike(o, t) && !DifferInStamp(table, o, t)
    case ModifiedDeleted => b.Some? && o.Some? && t.None? && !Alike(o, b)
    case DeletedModified => b.Some? && o.None? && t.Some? && !Alike(t, b)
    case ModifiedDifferently =>
      b.Some? && o.Some? && t.Some? && !Alike(o, b) && !Alike(t, b) && !Alike(o, t) && !DifferInStamp(table, o, t)
  }

  lemma RowConflictMeans(table: string, b: Option<Row>, o: Option<Row>, t: Option<Row>, reason: Reason)
    ensures MergeRow(table, b, o, t) == Conflict(reason) <==> Justified(reason, table, b, o, t)
  {
    hide Alike, DifferInStamp, RowsEqual, ResolveObjectsRow;
    if b.Some? && o.Some? { AlikeIsEqual(o.value, b.value); }
    if b.Some? && t.Some? { AlikeIsEqual(t.value, b.value); }
    if o.Some? && t.Some? {
      AlikeIsEqual(o.value, t.value);
      StampIsAllThatDiffers(table, o.value, t.value);
    }
  }

  /** The conflicts a refused merge reports are exactly those the three rows of some key justify, with that reason. */
  lemma ConflictsMean(shapes: seq<TableShape>, base: Catalog, ours: Catalog, theirs: Catalog, x: RowConflict)
    ensures x in AllConflicts(shapes, base, ours, theirs) <==>
              && x.table in Tables(shapes)
              && Justified(x.reason, x.table, RowAt(base, x.table, x.key), RowAt(ours, x.table, x.key), RowAt(theirs, x.table, x.key))
  {
    hide Justified, MergeRow;
    ConflictsCollected(shapes, base, ours, theirs, x);
    RowConflictMeans(x.table, RowAt(base, x.table, x.key), RowAt(ours, x.table, x.key), RowAt(theirs, x.table, x.key), x.reason);
    UnvisitedKept(base, ours, theirs, x.table, x.key);
    if x.table in Tables(shapes) {
      var i := ShapeOf(shapes, x.table);
      assert ConflictAt(shapes, base, ours, theirs, i, x) <==> x in ConflictsIn(base, ours, theirs, x.table);
    }
    if i :| ConflictAt(shapes, base, ours, theirs, i, x) { assert shapes[i] in shapes; }
  }

  // ----- the rows that are written

  /** The earlier of two stamps; a null one counts as none. */
  predicate IsEarlier(s: Value, a: Value, b: Value) {
    && (s == a || s == b)
    && (s == Null ==> a == Null && b == Null)
    && (a.Num? && b.Num? ==> s.Num? && s.n <= a.n && s.n <= b.n)
  }

  /** The row is ours as stored, but for the stamp, which is the earlier one. */
  ghost predicate IsOursStamped(row: Option<Row>, o: Option<Row>, t: Option<Row>) {
    && row.Some? && o.Some? && t.Some?
    && (forall column: string :: column != "forgotten_at" ==>
          (column in row.value <==> column in o.value) && (column in o.value ==> row.value[column] == o.value[column]))
    && IsEarlier(Cell(row.value, "forgotten_at"), Cell(o.value, "forgotten_at"), Cell(t.value, "forgotten_at"))
  }

  lemma ResolvedIsStamped(table: string, o: Row, t: Row, otherwise: Reason)
    requires StampTyped(o) && StampTyped(t) && ResolveObjectsRow(table, o, t).Some?
    ensures IsOursStamped(Applied(Some(o), Resolved(table, o, t, otherwise)), Some(o), Some(t))
  {
    var r := o[FORGOTTEN := Earlier(Cell(o, FORGOTTEN), Cell(t, FORGOTTEN))];
    assert Cell(r, FORGOTTEN) == Earlier(Cell(o, FORGOTTEN), Cell(t, FORGOTTEN));
    AlikeIsEqual(r, o);
  }

  /**
   The row a merge leaves, as stored: ours when theirs did not change or changed alike, theirs when
   ours did not change, and else ours with the earlier stamp.
   */
  ghost predicate MergedFrom(row: Option<Row>, b: Option<Row>, o: Option<Row>, t: Option<Row>) {
    if Alike(t, b) || Alike(o, t) then row == o
    else if Alike(o, b) then row == t
    else IsOursStamped(row, o, t)
  }

  lemma MissingIsAlike(b: Option<Row>, o: Option<Row>, t: Option<Row>)
    ensures b.None? || o.None? ==> (Alike(o, b) <==> o == b)
    ensures b.None? || t.None? ==> (Alike(t, b) <==> t == b)
    ensures o.None? || t.None? ==> (Alike(o, t) <==> o == t)
  {
  }

  lemma MergedRowMeans(table: string, b: Option<Row>, o: Option<Row>, t: Option<Row>)
    requires TypedOpt(o) && TypedOpt(t) && !MergeRow(table, b, o, t).Conflict?
    ensures MergedFrom(Applied(o, MergeRow(table, b, o, t)), b, o, t)
  {
    hide Alike, IsOursStamped, RowsEqual, ResolveObjectsRow, StampTyped;
    if b.Some? && o.Some? { AlikeIsEqual(o.value, b.value); }
    if b.Some? && t.Some? { AlikeIsEqual(t.value, b.value); }
    MissingIsAlike(b, o, t);
    if o.Some? && t.Some? {
      AlikeIsEqual(o.value, t.value);
      if ResolveObjectsRow(table, o.value, t.value).Some? {
        ResolvedIsStamped(table, o.value, t.value, AddedDifferently);
        ResolvedIsStamped(table, o.value, t.value, ModifiedDifferently);
      }
    }
  }

  /** Every row of the merged catalog, in tables that are merged, is the one its three rows call for. */
  lemma CatalogMeans(shapes: seq<TableShape>, base: Catalog, ours: Catalog, theirs: Catalog, table: string, key: string)
    requires table in Tables(shapes) && TypedCatalog(ours) && TypedCatalog(theirs) && !Clashes(shapes, base, ours, theirs)
    ensures MergedFrom(RowAt(MergeCatalog(shapes, base, ours, theirs), table, key),
                       RowAt(base, table, key), RowAt(ours, table, key), RowAt(theirs, table, key))
  {
    hide MergedFrom, MergeRow;
    MergedRowAt(shapes, base, ours, theirs, table, key);
    MergedRowMeans(table, RowAt(base, table, key), RowAt(ours, table, key), RowAt(theirs, table, key));
  }
}
