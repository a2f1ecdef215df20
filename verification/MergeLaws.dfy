/**
 What merging whole catalogs amounts to (mergeRefs, src/fork.ts): the order of the forks does
 not matter, a merge repeated is a merge done, and what is reported is exactly what changed.
 */
module MergeLaws {
  import opened Wrappers
  import opened RowMerge
  import opened CatalogMerge

  /** forgotten_at is an integer column of objects; the other tables do not have it. */
  ghost predicate TypedCatalog(c: Catalog) {
    forall table, key :: TypedOpt(RowAt(c, table, key))
  }

  /** A row as far as comparing can see it. */
  function Seen(c: Catalog, table: string, key: string): Option<Row> {
    CanonOpt(RowAt(c, table, key))
  }

  ghost predicate Agree(shapes: seq<TableShape>, c: Catalog, d: Catalog) {
    forall table, key :: table in Tables(shapes) ==> Seen(c, table, key) == Seen(d, table, key)
  }

  ghost predicate Clashes(shapes: seq<TableShape>, base: Catalog, ours: Catalog, theirs: Catalog) {
    exists table, key :: table in Tables(shapes) && OutcomeAt(base, ours, theirs, table, key).Conflict?
  }

  // ----- what the method's answer means

  /** A key neither base nor theirs has is kept, so looking at every key is looking at the visited ones. */
  lemma UnvisitedKept(base: Catalog, ours: Catalog, theirs: Catalog, table: string, key: string)
    ensures key !in Keys(base, theirs, table) ==> OutcomeAt(base, ours, theirs, table, key) == Keep
  {
  }

  lemma ShapeOf(shapes: seq<TableShape>, table: string) returns (i: nat)
    requires table in Tables(shapes)
    ensures i < |shapes| && shapes[i].table == table
  {
    var shape :| shape in shapes && shape.table == table;
    i :| i < |shapes| && shapes[i] == shape;
  }

  lemma RefusedMeansClash(shapes: seq<TableShape>, base: Catalog, ours: Catalog, theirs: Catalog)
    ensures AllConflicts(shapes, base, ours, theirs) != {} <==> Clashes(shapes, base, ours, theirs)
  {
    if Clashes(shapes, base, ours, theirs) {
      var table, key :| table in Tables(shapes) && OutcomeAt(base, ours, theirs, table, key).Conflict?;
      var i := ShapeOf(shapes, table);
      UnvisitedKept(base, ours, theirs, table, key);
      var x := RowConflict(table, key, OutcomeAt(base, ours, theirs, table, key).reason);
      assert ConflictAt(shapes, base, ours, theirs, i, x);
      ConflictsCollected(shapes, base, ours, theirs, x);
    } else if AllConflicts(shapes, base, ours, theirs) != {} {
      var x :| x in AllConflicts(shapes, base, ours, theirs);
      ConflictsCollected(shapes, base, ours, theirs, x);
    }
  }

  lemma DeletesOurs(table: string, b: Option<Row>, o: Option<Row>, t: Option<Row>)
    ensures MergeRow(table, b, o, t).Delete? ==> o.Some?
  {
  }

  lemma TouchedMeansChanged(shapes: seq<TableShape>, base: Catalog, ours: Catalog, theirs: Catalog, table: string, key: string)
    requires table in Tables(shapes) && !OutcomeAt(base, ours, theirs, table, key).Conflict?
    ensures var merged := MergeCatalog(shapes, base, ours, theirs);
            && (Seen(merged, table, key) != Seen(ours, table, key) <==> Touched(base, ours, theirs, table, key).Some?)
            && (Touched(base, ours, theirs, table, key).Some? ==>
                  Touched(base, ours, theirs, table, key) ==
                    if RowAt(merged, table, key).Some? then RowAt(merged, table, key) else RowAt(ours, table, key))
  {
    MergedRowAt(shapes, base, ours, theirs, table, key);
    KeepMeansUnchanged(table, RowAt(base, table, key), RowAt(ours, table, key), RowAt(theirs, table, key));
    DeletesOurs(table, RowAt(base, table, key), RowAt(ours, table, key), RowAt(theirs, table, key));
  }

  /** A change is reported exactly when the merged rows differ visibly from ours. */
  lemma NothingToDoMeansEqual(shapes: seq<TableShape>, base: Catalog, ours: Catalog, theirs: Catalog)
    requires !Clashes(shapes, base, ours, theirs)
    ensures AnyChange(shapes, base, ours, theirs) <==> !Agree(shapes, MergeCatalog(shapes, base, ours, theirs), ours)
  {
    var merged := MergeCatalog(shapes, base, ours, theirs);
    ChangesCollected(shapes, base, ours, theirs);
    forall table, key | table in Tables(shapes)
      ensures Seen(merged, table, key) != Seen(ours, table, key) <==> Touched(base, ours, theirs, table, key).Some?
    {
      TouchedMeansChanged(shapes, base, ours, theirs, table, key);
    }
    if AnyChange(shapes, base, ours, theirs) {
      var i :| ChangesAt(shapes, base, ours, theirs, i);
      var key :| key in Keys(base, theirs, shapes[i].table) && Touched(base, ours, theirs, shapes[i].table, key).Some?;
      assert shapes[i].table in Tables(shapes);
      assert Seen(merged, shapes[i].table, key) != Seen(ours, shapes[i].table, key);
    } else {
      forall table, key | table in Tables(shapes)
        ensures Seen(merged, table, key) == Seen(ours, table, key)
      {
        var i := ShapeOf(shapes, table);
        assert !ChangesAt(shapes, base, ours, theirs, i);
        UnvisitedKept(base, ours, theirs, table, key);
      }
    }
  }

  /** The row whose resources a visible change is charged to: the new row, or the one that went. */
  function Charged(merged: Catalog, ours: Catalog, table: string, key: string): Option<Row> {
    if Seen(merged, table, key) == Seen(ours, table, key) then None
    else if RowAt(merged, table, key).Some? then RowAt(merged, table, key) else RowAt(ours, table, key)
  }

  predicate ChargedTo(merged: Catalog, ours: Catalog, shape: TableShape, key: string, x: Resource) {
    var row := Charged(merged, ours, shape.table, key);
    row.Some? && x in ResourcesFor(shape, row.value)
  }

  lemma TouchedIsCharged(shapes: seq<TableShape>, base: Catalog, ours: Catalog, theirs: Catalog, shape: TableShape, x: Resource)
    requires shape.table in Tables(shapes) && !Clashes(shapes, base, ours, theirs)
    ensures x in TouchedIn(base, ours, theirs, shape) <==>
              exists key :: ChargedTo(MergeCatalog(shapes, base, ours, theirs), ours, shape, key, x)
  {
    var merged := MergeCatalog(shapes, base, ours, theirs);
    forall key
      ensures ChargedTo(merged, ours, shape, key, x) <==> key in Keys(base, theirs, shape.table) && x in ResourcesAt(base, ours, theirs, shape, key)
    {
      TouchedMeansChanged(shapes, base, ours, theirs, shape.table, key);
      UnvisitedKept(base, ours, theirs, shape.table, key);
    }
  }

  /** The write set names the resources of the rows that changed, and no others. */
  lemma WriteSetIsExact(shapes: seq<TableShape>, base: Catalog, ours: Catalog, theirs: Catalog, x: Resource)
    requires !Clashes(shapes, base, ours, theirs)
    ensures var merged := MergeCatalog(shapes, base, ours, theirs);
            x in AllTouched(shapes, base, ours, theirs) <==>
              exists i, key :: 0 <= i < |shapes| && ChargedTo(merged, ours, shapes[i], key, x)
  {
    var merged := MergeCatalog(shapes, base, ours, theirs);
    ResourcesCollected(shapes, base, ours, theirs, x);
    forall i | 0 <= i < |shapes|
      ensures TouchedAt(shapes, base, ours, theirs, i, x) <==> exists key :: ChargedTo(merged, ours, shapes[i], key, x)
    {
      assert shapes[i].table in Tables(shapes);
      TouchedIsCharged(shapes, base, ours, theirs, shapes[i], x);
    }
  }

  // ----- merging the same fork again

  lemma AppliedIsTyped(table: string, b: Option<Row>, o: Option<Row>, t: Option<Row>)
    requires TypedOpt(o) && TypedOpt(t)
    ensures TypedOpt(Applied(o, MergeRow(table, b, o, t)))
  {
    if o.Some? && t.Some? && ResolveObjectsRow(table, o.value, t.value).Some? {
      var r := ResolveObjectsRow(table, o.value, t.value).value;
      assert Cell(r, FORGOTTEN) == Earlier(Cell(o.value, FORGOTTEN), Cell(t.value, FORGOTTEN));
    }
  }

  lemma RowMergedAgain(table: string, b: Option<Row>, o: Option<Row>, t: Option<Row>)
    requires TypedOpt(o) && TypedOpt(t) && !MergeRow(table, b, o, t).Conflict?
    ensures MergeRow(table, b, Applied(o, MergeRow(table, b, o, t)), t) == Keep
  {
    var merged := Applied(o, MergeRow(table, b, o, t));
    AppliedIsTyped(table, b, o, t);
    MergeRowIsCombine(table, b, o, t);
    MergeRowIsCombine(table, b, merged, t);
    StampOfCanon(o);
    StampOfCanon(t);
    CombineAbsorbs(table, CanonOpt(b), CanonOpt(o), CanonOpt(t));
    KeepMeansUnchanged(table, b, merged, t);
  }

  /** A second merge of the same fork finds no conflict and nothing to do. */
  lemma MergedAgain(shapes: seq<TableShape>, base: Catalog, ours: Catalog, theirs: Catalog)
    requires TypedCatalog(ours) && TypedCatalog(theirs) && !Clashes(shapes, base, ours, theirs)
    ensures var merged := MergeCatalog(shapes, base, ours, theirs);
            AllConflicts(shapes, base, merged, theirs) == {} && !AnyChange(shapes, base, merged, theirs)
  {
    var merged := MergeCatalog(shapes, base, ours, theirs);
    forall table, key | table in Tables(shapes)
      ensures OutcomeAt(base, merged, theirs, table, key) == Keep
    {
      MergedRowAt(shapes, base, ours, theirs, table, key);
      RowMergedAgain(table, RowAt(base, table, key), RowAt(ours, table, key), RowAt(theirs, table, key));
    }
    RefusedMeansClash(shapes, base, merged, theirs);
    forall i | 0 <= i < |shapes|
      ensures !ChangesAt(shapes, base, merged, theirs, i)
    {
      assert shapes[i].table in Tables(shapes);
    }
    ChangesCollected(shapes, base, merged, theirs);
  }

  // ----- merging many forks

  /** Fork after fork is merged into the first catalog; None once a merge is refused. */
  ghost function MergeAll(shapes: seq<TableShape>, base: Catalog, sides: seq<Catalog>): Option<Catalog>
    requires sides != []
    decreases |sides|
  {
    if |sides| == 1 then Some(sides[0])
    else
      var n := |sides| - 1;
      var before := MergeAll(shapes, base, sides[..n]);
      if before.None? || Clashes(shapes, base, before.value, sides[n]) then None
      else Some(MergeCatalog(shapes, base, before.value, sides[n]))
  }

  /** The same for one row, on canonical rows, starting from the base. */
  function Fold(table: string, key: string, base: Catalog, sides: seq<Catalog>): Option<Option<Row>>
    decreases |sides|
  {
    if sides == [] then Some(Seen(base, table, key))
    else
      var n := |sides| - 1;
      CombineAll(table, Seen(base, table, key), Fold(table, key, base, sides[..n]), Seen(sides[n], table, key))
  }

  ghost predicate AllTyped(sides: seq<Catalog>) {
    forall i :: 0 <= i < |sides| ==> TypedCatalog(sides[i])
  }

  predicate Settled(r: Option<Row>) {
    Typed(r) && CanonRow(r)
  }

  lemma SeenIsSettled(c: Catalog, table: string, key: string)
    requires TypedCatalog(c)
    ensures Settled(Seen(c, table, key))
  {
    StampOfCanon(RowAt(c, table, key));
  }

  lemma {:induction false} FoldIsSettled(table: string, key: string, base: Catalog, sides: seq<Catalog>)
    requires TypedCatalog(base) && AllTyped(sides)
    ensures Fold(table, key, base, sides).Some? ==> Settled(Fold(table, key, base, sides).value)
    decreases |sides|
  {
    SeenIsSettled(base, table, key);
    if sides == [] {
    } else {
      var n := |sides| - 1;
      FoldIsSettled(table, key, base, sides[..n]);
      SeenIsSettled(sides[n], table, key);
      var before := Fold(table, key, base, sides[..n]);
      if before.Some? {
        CombineIsOneOfThem(table, Seen(base, table, key), before.value, Seen(sides[n], table, key));
      }
    }
  }

  function Without(sides: seq<Catalog>, i: nat): seq<Catalog>
    requires i < |sides|
  {
    sides[..i] + sides[i + 1..]
  }

  /** Any side can be merged last. */
  lemma {:induction false} FoldMovesToEnd(table: string, key: string, base: Catalog, sides: seq<Catalog>, i: nat)
    requires i < |sides| && TypedCatalog(base) && AllTyped(sides)
    ensures Fold(table, key, base, sides) ==
              CombineAll(table, Seen(base, table, key), Fold(table, key, base, Without(sides, i)), Seen(sides[i], table, key))
    decreases |sides|
  {
    var n := |sides| - 1;
    if i == n {
      assert Without(sides, i) == sides[..n];
    } else {
      var front, rest := sides[..n], Without(sides, i);
      FoldMovesToEnd(table, key, base, front, i);
      var kept := Without(front, i);
      assert rest == kept + [sides[n]] && rest[..|rest| - 1] == kept;
      FoldIsSettled(table, key, base, kept);
      SeenIsSettled(sides[i], table, key);
      SeenIsSettled(sides[n], table, key);
      var before := Fold(table, key, base, kept);
      if before.Some? {
        CombineSwaps(table, Seen(base, table, key), before.value, Seen(sides[i], table, key), Seen(sides[n], table, key));
      }
    }
  }

  lemma WithoutKeepsTheRest(sides: seq<Catalog>, i: nat)
    requires i < |sides|
    ensures multiset(sides) == multiset(Without(sides, i)) + multiset{sides[i]}
    ensures AllTyped(sides) ==> AllTyped(Without(sides, i))
  {
    assert sides == sides[..i] + [sides[i]] + sides[i + 1..];
    forall k | 0 <= k < |sides| - 1
      ensures Without(sides, i)[k] == sides[if k < i then k else k + 1]
    {
    }
  }

  lemma SameRest<T>(a: multiset<T>, b: multiset<T>, x: T)
    requires a + multiset{x} == b + multiset{x}
    ensures a == b
  {
    assert a == a + multiset{x} - multiset{x};
    assert b == b + multiset{x} - multiset{x};
  }

  lemma LastApart(ys: seq<Catalog>)
    requires ys != []
    ensures multiset(ys) == multiset(ys[..|ys| - 1]) + multiset{ys[|ys| - 1]}
  {
    assert ys == ys[..|ys| - 1] + [ys[|ys| - 1]];
  }

  lemma LastIsSomewhere(xs: seq<Catalog>, ys: seq<Catalog>) returns (i: nat)
    requires multiset(xs) == multiset(ys) && ys != []
    ensures i < |xs| && xs[i] == ys[|ys| - 1]
    ensures multiset(Without(xs, i)) == multiset(ys[..|ys| - 1])
  {
    var last := ys[|ys| - 1];
    assert last in multiset(xs);
    i :| 0 <= i < |xs| && xs[i] == last;
    WithoutKeepsTheRest(xs, i);
    LastApart(ys);
    SameRest(multiset(Without(xs, i)), multiset(ys[..|ys| - 1]), last);
  }

  lemma {:induction false} FoldPermutes(table: string, key: string, base: Catalog, xs: seq<Catalog>, ys: seq<Catalog>)
    requires multiset(xs) == multiset(ys) && TypedCatalog(base) && AllTyped(xs) && AllTyped(ys)
    ensures Fold(table, key, base, xs) == Fold(table, key, base, ys)
    decreases |ys|
  {
    assert |xs| == |multiset(xs)| == |multiset(ys)| == |ys|;
    if ys == [] {
    } else {
      var n := |ys| - 1;
      var i := LastIsSomewhere(xs, ys);
      WithoutKeepsTheRest(xs, i);
      FoldMovesToEnd(table, key, base, xs, i);
      FoldPermutes(table, key, base, Without(xs, i), ys[..n]);
    }
  }

  /** Merging catalogs is folding every row: refused when some row's fold is, else the folds. */
  ghost predicate FoldsTo(shapes: seq<TableShape>, base: Catalog, sides: seq<Catalog>, merged: Option<Catalog>) {
    if merged.Some? then
      forall table, key :: table in Tables(shapes) ==> Fold(table, key, base, sides) == Some(Seen(merged.value, table, key))
    else
      exists table, key :: table in Tables(shapes) && Fold(table, key, base, sides).None?
  }

  lemma MergedIsTyped(shapes: seq<TableShape>, base: Catalog, ours: Catalog, theirs: Catalog)
    requires TypedCatalog(ours) && TypedCatalog(theirs)
    ensures TypedCatalog(MergeCatalog(shapes, base, ours, theirs))
  {
    forall table, key
      ensures TypedOpt(RowAt(MergeCatalog(shapes, base, ours, theirs), table, key))
    {
      if table in Tables(shapes) {
        MergedRowAt(shapes, base, ours, theirs, table, key);
        AppliedIsTyped(table, RowAt(base, table, key), RowAt(ours, table, key), RowAt(theirs, table, key));
      }
    }
  }

  lemma OneMoreFork(shapes: seq<TableShape>, base: Catalog, sides: seq<Catalog>, before: Catalog)
    requires sides != [] && TypedCatalog(before) && TypedCatalog(sides[|sides| - 1])
    requires FoldsTo(shapes, base, sides[..|sides| - 1], Some(before))
    ensures var last := sides[|sides| - 1];
            FoldsTo(shapes, base, sides, if Clashes(shapes, base, before, last) then None else Some(MergeCatalog(shapes, base, before, last)))
  {
    var last := sides[|sides| - 1];
    forall table, key | table in Tables(shapes)
      ensures Fold(table, key, base, sides).None? <==> OutcomeAt(base, before, last, table, key).Conflict?
      ensures Fold(table, key, base, sides).Some? ==>
                Fold(table, key, base, sides) == Some(Seen(MergeCatalog(shapes, base, before, last), table, key))
    {
      MergedRowAt(shapes, base, before, last, table, key);
      assert Fold(table, key, base, sides[..|sides| - 1]) == Some(Seen(before, table, key));
      MergeRowIsCombine(table, RowAt(base, table, key), RowAt(before, table, key), RowAt(last, table, key));
    }
  }

  lemma {:induction false} MergeAllFolds(shapes: seq<TableShape>, base: Catalog, sides: seq<Catalog>)
    requires sides != [] && AllTyped(sides)
    ensures FoldsTo(shapes, base, sides, MergeAll(shapes, base, sides))
    ensures MergeAll(shapes, base, sides).Some? ==> TypedCatalog(MergeAll(shapes, base, sides).value)
    decreases |sides|
  {
    var n := |sides| - 1;
    if n == 0 {
      assert sides[..0] == [];
      forall table, key
        ensures Fold(table, key, base, sides) == Some(Seen(sides[0], table, key))
      {
        assert Fold(table, key, base, sides[..0]) == Some(Seen(base, table, key));
      }
    } else {
      MergeAllFolds(shapes, base, sides[..n]);
      var before := MergeAll(shapes, base, sides[..n]);
      if before.None? {
        var table, key :| table in Tables(shapes) && Fold(table, key, base, sides[..n]).None?;
        assert Fold(table, key, base, sides).None?;
      } else {
        OneMoreFork(shapes, base, sides, before.value);
        MergedIsTyped(shapes, base, before.value, sides[n]);
      }
    }
  }

  /**
   Forks of one base can be merged in any order, and into any one of them: either every order is
   refused, or all end with the same rows.
   */
  lemma OrderOfForksIsIrrelevant(shapes: seq<TableShape>, base: Catalog, xs: seq<Catalog>, ys: seq<Catalog>)
    requires xs != [] && ys != [] && multiset(xs) == multiset(ys)
    requires TypedCatalog(base) && AllTyped(xs) && AllTyped(ys)
    ensures MergeAll(shapes, base, xs).Some? <==> MergeAll(shapes, base, ys).Some?
    ensures MergeAll(shapes, base, xs).Some? ==>
              Agree(shapes, MergeAll(shapes, base, xs).value, MergeAll(shapes, base, ys).value)
  {
    MergeAllFolds(shapes, base, xs);
    MergeAllFolds(shapes, base, ys);
    forall table, key
      ensures Fold(table, key, base, xs) == Fold(table, key, base, ys)
    {
      FoldPermutes(table, key, base, xs, ys);
    }
  }

  // ----- forgotten objects

  function EarliestStamp(key: string, sides: seq<Catalog>): Value
    decreases |sides|
  {
    if sides == [] then Null
    else Earlier(EarliestStamp(key, sides[..|sides| - 1]), Stamp(Seen(sides[|sides| - 1], OBJECTS, key)))
  }

  /** The stamp is null or no earlier than e. */
  predicate NotBefore(e: Value, s: Value) {
    s == Null || (s.Num? && e.Num? && e.n <= s.n)
  }

  lemma EarlierOfTwo(a: Value, b: Value, s: Value)
    requires (a == Null || a.Num?) && (b == Null || b.Num?)
    ensures var e := Earlier(a, b);
            && e in {a, b} && NotBefore(e, a) && NotBefore(e, b)
            && (NotBefore(a, s) || NotBefore(b, s) ==> NotBefore(e, s))
  {
  }

  lemma {:induction false} EarliestIsTyped(key: string, sides: seq<Catalog>)
    requires AllTyped(sides)
    ensures EarliestStamp(key, sides) == Null || EarliestStamp(key, sides).Num?
    decreases |sides|
  {
    if sides == [] {
    } else {
      EarliestIsTyped(key, sides[..|sides| - 1]);
      SeenIsSettled(sides[|sides| - 1], OBJECTS, key);
    }
  }

  lemma {:induction false} NoneBeforeEarliest(key: string, sides: seq<Catalog>, i: nat)
    requires AllTyped(sides) && i < |sides|
    ensures NotBefore(EarliestStamp(key, sides), Stamp(Seen(sides[i], OBJECTS, key)))
    decreases |sides|
  {
    var n := |sides| - 1;
    EarliestIsTyped(key, sides[..n]);
    SeenIsSettled(sides[n], OBJECTS, key);
    EarlierOfTwo(EarliestStamp(key, sides[..n]), Stamp(Seen(sides[n], OBJECTS, key)), Stamp(Seen(sides[i], OBJECTS, key)));
    if i == n {
    } else {
      NoneBeforeEarliest(key, sides[..n], i);
    }
  }

  lemma {:induction false} EarliestOccurs(key: string, sides: seq<Catalog>) returns (i: nat)
    requires EarliestStamp(key, sides) != Null
    ensures i < |sides| && Stamp(Seen(sides[i], OBJECTS, key)) == EarliestStamp(key, sides)
    decreases |sides|
  {
    var n := |sides| - 1;
    if EarliestStamp(key, sides) == Stamp(Seen(sides[n], OBJECTS, key)) {
      i := n;
    } else {
      i := EarliestOccurs(key, sides[..n]);
    }
  }

  /** The earliest stamp is one of the stamps, and none is earlier; without stamps it is null. */
  lemma EarliestIsLeast(key: string, sides: seq<Catalog>)
    requires AllTyped(sides)
    ensures var e := EarliestStamp(key, sides);
            && (e == Null || e.Num?)
            && (forall i :: 0 <= i < |sides| ==> NotBefore(e, Stamp(Seen(sides[i], OBJECTS, key))))
            && (e != Null ==> exists i :: 0 <= i < |sides| && Stamp(Seen(sides[i], OBJECTS, key)) == e)
  {
    EarliestIsTyped(key, sides);
    forall i | 0 <= i < |sides|
      ensures NotBefore(EarliestStamp(key, sides), Stamp(Seen(sides[i], OBJECTS, key)))
    {
      NoneBeforeEarliest(key, sides, i);
    }
    if EarliestStamp(key, sides) != Null {
      var i := EarliestOccurs(key, sides);
    }
  }

  lemma {:induction false} FoldKeepsEarliest(key: string, base: Catalog, sides: seq<Catalog>)
    requires Stamp(Seen(base, OBJECTS, key)) == Null
    requires Fold(OBJECTS, key, base, sides).Some?
    ensures Stamp(Fold(OBJECTS, key, base, sides).value) == EarliestStamp(key, sides)
    decreases |sides|
  {
    if sides == [] {
    } else {
      FoldKeepsEarliest(key, base, sides[..|sides| - 1]);
    }
  }

  /** An object live in the base and forgotten on any side ends forgotten, with the earliest stamp. */
  lemma ForgottenStaysForgotten(shapes: seq<TableShape>, base: Catalog, sides: seq<Catalog>, key: string, i: nat)
    requires OBJECTS in Tables(shapes) && sides != [] && AllTyped(sides) && MergeAll(shapes, base, sides).Some?
    requires Stamp(Seen(base, OBJECTS, key)) == Null
    requires i < |sides| && Stamp(Seen(sides[i], OBJECTS, key)) != Null
    ensures var merged := RowAt(MergeAll(shapes, base, sides).value, OBJECTS, key);
            merged.Some? && Cell(merged.value, FORGOTTEN) == EarliestStamp(key, sides) != Null
  {
    MergeAllFolds(shapes, base, sides);
    FoldKeepsEarliest(key, base, sides);
    EarliestIsLeast(key, sides);
    StampOfCanon(RowAt(MergeAll(shapes, base, sides).value, OBJECTS, key));
  }
}
