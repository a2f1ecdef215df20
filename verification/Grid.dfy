/**
 The notebook board (src/notebook-grid.ts) and the repair of cells that share slots
 (repairCellSlots and assertCellSlotFree, src/domain.ts). Cell ids are texts, numbered here in
 text order.
 */
module Grid {
  import opened Wrappers
  import opened Collections

  const ROWS := 64
  const COLUMNS := 8

  datatype Slot = Slot(row: int, column: int)

  datatype Cell = Cell(timeline: bool, slot: Slot)

  type Board = map<int, Cell>

  datatype GridFault = OutOfGrid | GridFull | NoEmptyRow | SlotOccupied

  predicate InGrid(s: Slot) {
    0 <= s.row < ROWS && 0 <= s.column < COLUMNS
  }

  function RowSlots(row: int): set<Slot> {
    set column | 0 <= column < COLUMNS :: Slot(row, column)
  }

  /** A timeline takes its whole row, any other cell its slot. */
  function Occupied(c: Cell): set<Slot> {
    if c.timeline then RowSlots(c.slot.row) else {c.slot}
  }

  // ----- free slots and rows

  /** The n-th slot of the board, row by row. */
  function SlotNumber(n: nat): Slot {
    Slot(n / COLUMNS, n % COLUMNS)
  }

  /** The free ones among the first n slots. */
  function FreeAmong(occupied: set<Slot>, n: nat): seq<Slot> {
    if n == 0 then []
    else FreeAmong(occupied, n - 1) + if SlotNumber(n - 1) in occupied then [] else [SlotNumber(n - 1)]
  }

  predicate RowEmpty(occupied: set<Slot>, row: int) {
    forall s :: s in occupied ==> s.row != row
  }

  /** The first of the first n rows that is empty. */
  function EmptyRowAmong(occupied: set<Slot>, n: nat): Option<int> {
    if n == 0 then None
    else
      var before := EmptyRowAmong(occupied, n - 1);
      if before.Some? then before else if RowEmpty(occupied, n - 1) then Some(n - 1) else None
  }

  lemma {:induction false} EmptyRowIsFirst(occupied: set<Slot>, n: nat)
    ensures match EmptyRowAmong(occupied, n)
            case Some(row) => 0 <= row < n && RowEmpty(occupied, row) && forall r :: 0 <= r < row ==> !RowEmpty(occupied, r)
            case None => forall r :: 0 <= r < n ==> !RowEmpty(occupied, r)
  {
    if n == 0 {
    } else {
      EmptyRowIsFirst(occupied, n - 1);
    }
  }

  lemma {:induction false} EmptyRowStays(occupied: set<Slot>, row: nat, n: nat)
    requires row < n && EmptyRowAmong(occupied, row).None? && RowEmpty(occupied, row)
    ensures EmptyRowAmong(occupied, n) == Some(row)
    decreases n
  {
    if n == row + 1 {
    } else {
      EmptyRowStays(occupied, row, n - 1);
    }
  }

  method FirstEmptyNotebookGridRow(occupied: set<Slot>) returns (r: Result<Slot, GridFault>)
    ensures r == match EmptyRowAmong(occupied, ROWS) case Some(row) => Ok(Slot(row, 0)) case None => Err(NoEmptyRow)
  {
    var rows := set s | s in occupied :: s.row;
    for row := 0 to ROWS
      invariant EmptyRowAmong(occupied, row).None?
    {
      assert row in rows <==> !RowEmpty(occupied, row);
      if row !in rows {
        EmptyRowStays(occupied, row, ROWS);
        return Ok(Slot(row, 0));
      }
    }
    return Err(NoEmptyRow);
  }

  /** The first free slots in address order; all occupied slots must lie on the board. */
  function FirstEmpty(occupied: set<Slot>, count: nat): Result<seq<Slot>, GridFault> {
    if count == 0 then Ok([])
    else if exists s :: s in occupied && !InGrid(s) then Err(OutOfGrid)
    else
      var free := FreeAmong(occupied, ROWS * COLUMNS);
      if |free| < count then Err(GridFull) else Ok(free[..count])
  }

  lemma {:induction false} FreeExtends(occupied: set<Slot>, n: nat, m: nat)
    requires n <= m
    ensures |FreeAmong(occupied, n)| <= |FreeAmong(occupied, m)|
    ensures FreeAmong(occupied, m)[..|FreeAmong(occupied, n)|] == FreeAmong(occupied, n)
    decreases m
  {
    if n == m {
    } else {
      FreeExtends(occupied, n, m - 1);
    }
  }

  method FirstEmptyNotebookGridSlots(occupied: set<Slot>, count: nat) returns (r: Result<seq<Slot>, GridFault>)
    ensures r == FirstEmpty(occupied, count)
  {
    if count == 0 { return Ok([]); }
    if exists s :: s in occupied && !InGrid(s) { return Err(OutOfGrid); }
    var result: seq<Slot> := [];
    for row := 0 to ROWS
      invariant result == FreeAmong(occupied, row * COLUMNS) && |result| < count
    {
      for column := 0 to COLUMNS
        invariant result == FreeAmong(occupied, row * COLUMNS + column) && |result| < count
      {
        var n := row * COLUMNS + column;
        assert SlotNumber(n) == Slot(row, column);
        if Slot(row, column) !in occupied {
          result := result + [Slot(row, column)];
          if |result| == count {
            FreeExtends(occupied, n + 1, ROWS * COLUMNS);
            return Ok(result);
          }
        }
      }
    }
    return Err(GridFull);
  }

  /** Every listed slot is free and on the board, and none before the first listed one is free. */
  lemma {:induction false} FreeSlotsAreFree(occupied: set<Slot>, n: nat)
    requires n <= ROWS * COLUMNS
    ensures forall i :: 0 <= i < |FreeAmong(occupied, n)| ==> FreeAmong(occupied, n)[i] !in occupied && InGrid(FreeAmong(occupied, n)[i])
    ensures forall k :: 0 <= k < n && SlotNumber(k) !in occupied ==> SlotNumber(k) in FreeAmong(occupied, n)
  {
    if n == 0 {
    } else {
      FreeSlotsAreFree(occupied, n - 1);
    }
  }

  lemma {:induction false} FirstIsNumbered(occupied: set<Slot>, n: nat)
    requires FreeAmong(occupied, n) != []
    ensures exists m: nat :: m < n && FreeAmong(occupied, n)[0] == SlotNumber(m)
  {
    if FreeAmong(occupied, n - 1) == [] {
      assert FreeAmong(occupied, n)[0] == SlotNumber(n - 1);
    } else {
      FirstIsNumbered(occupied, n - 1);
    }
  }

  /** A first free slot comes before every other free slot of the board. */
  lemma {:induction false} FirstFreeIsFirst(occupied: set<Slot>, n: nat, k: nat)
    requires k < n && SlotNumber(k) !in occupied
    ensures FreeAmong(occupied, n) != []
    ensures exists m: nat :: m <= k && FreeAmong(occupied, n)[0] == SlotNumber(m)
    decreases n
  {
    if k < n - 1 {
      FirstFreeIsFirst(occupied, n - 1, k);
    } else if FreeAmong(occupied, n - 1) == [] {
      assert FreeAmong(occupied, n)[0] == SlotNumber(k);
    } else {
      FirstIsNumbered(occupied, n - 1);
    }
  }

  // ----- the order cells are looked at

  predicate ListedBefore(board: Board, i: int, j: int)
    requires i in board && j in board
  {
    var a, b := board[i].slot, board[j].slot;
    if a.row != b.row then a.row < b.row else if a.column != b.column then a.column < b.column else i < j
  }

  /** The query's answer: every cell once, by row, column and id. */
  predicate Listed(board: Board, rows: seq<int>) {
    && (forall k :: 0 <= k < |rows| ==> rows[k] in board)
    && (forall id :: id in board ==> id in rows)
    && (forall k, l :: 0 <= k < l < |rows| ==> ListedBefore(board, rows[k], rows[l]))
  }

  /** The stable sort: the protected cell, then the timelines, then the rest. */
  function Rank(board: Board, protected: Option<int>, id: int): int
    requires id in board
  {
    if protected == Some(id) then 0 else if board[id].timeline then 1 else 2
  }

  predicate HasRank(board: Board, protected: Option<int>, rank: int, id: int) {
    id in board && Rank(board, protected, id) == rank
  }

  function OfRank(board: Board, rows: seq<int>, protected: Option<int>, rank: int): seq<int> {
    Filter((id: int) => HasRank(board, protected, rank, id), rows)
  }

  function Ranked(board: Board, rows: seq<int>, protected: Option<int>): seq<int> {
    OfRank(board, rows, protected, 0) + OfRank(board, rows, protected, 1) + OfRank(board, rows, protected, 2)
  }

  predicate Once(order: seq<int>) {
    forall k, l :: 0 <= k < l < |order| ==> order[k] != order[l]
  }

  predicate Covers(board: Board, order: seq<int>) {
    Once(order) && (forall k :: 0 <= k < |order| ==> order[k] in board) && forall id :: id in board ==> id in order
  }

  lemma {:induction false} FilterOnce(keep: int -> bool, s: seq<int>)
    requires Once(s)
    ensures Once(Filter(keep, s))
    decreases |s|
  {
    if s == [] {
    } else {
      var n := |s| - 1;
      FilterOnce(keep, s[..n]);
      forall k | 0 <= k < |Filter(keep, s[..n])|
        ensures Filter(keep, s[..n])[k] != s[n]
      {
        Filtered(keep, s[..n], Filter(keep, s[..n])[k]);
      }
    }
  }

  lemma OfRankOnce(board: Board, rows: seq<int>, protected: Option<int>, rank: int)
    requires Listed(board, rows)
    ensures Once(OfRank(board, rows, protected, rank))
    ensures forall id :: id in OfRank(board, rows, protected, rank) <==> HasRank(board, protected, rank, id)
  {
    FilterOnce((id: int) => HasRank(board, protected, rank, id), rows);
    forall id
      ensures id in OfRank(board, rows, protected, rank) <==> HasRank(board, protected, rank, id)
    {
      Filtered((id: int) => HasRank(board, protected, rank, id), rows, id);
    }
  }

  lemma JoinOnce(xs: seq<int>, ys: seq<int>)
    requires Once(xs) && Once(ys) && forall x :: x in xs ==> x !in ys
    ensures Once(xs + ys)
  {
    forall k, l | 0 <= k < l < |xs + ys|
      ensures (xs + ys)[k] != (xs + ys)[l]
    {
      if k < |xs| <= l { assert xs[k] in xs && ys[l - |xs|] in ys; }
    }
  }

  lemma RankedCovers(board: Board, rows: seq<int>, protected: Option<int>)
    requires Listed(board, rows)
    ensures Covers(board, Ranked(board, rows, protected))
  {
    var a, b, c := OfRank(board, rows, protected, 0), OfRank(board, rows, protected, 1), OfRank(board, rows, protected, 2);
    OfRankOnce(board, rows, protected, 0);
    OfRankOnce(board, rows, protected, 1);
    OfRankOnce(board, rows, protected, 2);
    JoinOnce(a, b);
    JoinOnce(a + b, c);
    forall id | id in board
      ensures id in a + b + c
    {
      assert HasRank(board, protected, Rank(board, protected, id), id);
    }
    var order := a + b + c;
    forall k | 0 <= k < |order|
      ensures order[k] in board
    {
      assert order[k] in a || order[k] in b || order[k] in c;
    }
    assert Ranked(board, rows, protected) == order;
  }

  lemma ProtectedIsFirst(board: Board, rows: seq<int>, id: int)
    requires Listed(board, rows) && id in board
    ensures |Ranked(board, rows, Some(id))| > 0 && Ranked(board, rows, Some(id))[0] == id
  {
    OfRankOnce(board, rows, Some(id), 0);
    var first := OfRank(board, rows, Some(id), 0);
    assert HasRank(board, Some(id), 0, id) && id in first;
    assert first[0] in first && HasRank(board, Some(id), 0, first[0]);
    assert Ranked(board, rows, Some(id))[0] == first[0];
  }

  // ----- the greedy pass

  /** A cell keeps its place when no cell kept before it holds one of its slots. */
  predicate Kept(board: Board, order: seq<int>, k: nat)
    requires k < |order| && forall k :: 0 <= k < |order| ==> order[k] in board
    decreases k, 1
  {
    Occupied(board[order[k]]) !! Taken(board, order, k)
  }

  /** The slots of the cells kept among the first n. */
  function Taken(board: Board, order: seq<int>, n: nat): set<Slot>
    requires n <= |order| && forall k :: 0 <= k < |order| ==> order[k] in board
    decreases n, 0
  {
    if n == 0 then {}
    else Taken(board, order, n - 1) + if Kept(board, order, n - 1) then Occupied(board[order[n - 1]]) else {}
  }

  function Displaced(board: Board, order: seq<int>, n: nat): seq<int>
    requires n <= |order| && forall k :: 0 <= k < |order| ==> order[k] in board
  {
    if n == 0 then []
    else Displaced(board, order, n - 1) + if Kept(board, order, n - 1) then [] else [order[n - 1]]
  }

  // ----- placing the displaced

  function NewSlot(timeline: bool, occupied: set<Slot>): Result<Slot, GridFault> {
    if timeline then
      match EmptyRowAmong(occupied, ROWS) case Some(row) => Ok(Slot(row, 0)) case None => Err(NoEmptyRow)
    else
      match FirstEmpty(occupied, 1) case Ok(slots) => Ok(slots[0]) case Err(e) => Err(e)
  }

  datatype Placing = Placing(board: Board, occupied: set<Slot>)

  /** The first m displaced cells placed one after the other. */
  function PlaceFirst(start: Placing, displaced: seq<int>, m: nat): Result<Placing, GridFault>
    requires m <= |displaced| && forall k :: 0 <= k < |displaced| ==> displaced[k] in start.board
    ensures var r := PlaceFirst(start, displaced, m);
            r.Ok? ==> r.value.board.Keys == start.board.Keys
  {
    if m == 0 then Ok(start)
    else
      var before := PlaceFirst(start, displaced, m - 1);
      if before.Err? then before
      else
        var id := displaced[m - 1];
        var cell := before.value.board[id];
        var slot := NewSlot(cell.timeline, before.value.occupied);
        if slot.Err? then Err(slot.error)
        else
          var moved := Cell(cell.timeline, slot.value);
          Ok(Placing(before.value.board[id := moved], before.value.occupied + Occupied(moved)))
  }

  lemma {:induction false} DisplacedInBoard(board: Board, order: seq<int>, n: nat)
    requires n <= |order| && forall k :: 0 <= k < |order| ==> order[k] in board
    ensures forall i :: 0 <= i < |Displaced(board, order, n)| ==> Displaced(board, order, n)[i] in board
  {
    if n == 0 {
    } else {
      DisplacedInBoard(board, order, n - 1);
    }
  }

  /** The whole repair, given the order cells are looked at. */
  function Repaired(board: Board, order: seq<int>): Result<Board, GridFault>
    requires Covers(board, order)
  {
    DisplacedInBoard(board, order, |order|);
    var displaced := Displaced(board, order, |order|);
    match PlaceFirst(Placing(board, Taken(board, order, |order|)), displaced, |displaced|)
    case Ok(p) => Ok(p.board)
    case Err(e) => Err(e)
  }

  // ----- what a repair that succeeds leaves

  predicate DisjointCells(board: Board, ids: set<int>) {
    forall i, j :: i in ids && j in ids && i in board && j in board && i != j ==> Occupied(board[i]) !! Occupied(board[j])
  }

  predicate Holds(board: Board, ids: set<int>, occupied: set<Slot>) {
    forall i :: i in ids && i in board ==> Occupied(board[i]) <= occupied
  }

  function KeptIds(board: Board, order: seq<int>, n: nat): set<int>
    requires n <= |order| && forall k :: 0 <= k < |order| ==> order[k] in board
  {
    set k | 0 <= k < n && Kept(board, order, k) :: order[k]
  }

  /** The taken slots are those of the kept cells. */
  lemma {:induction false} TakenByKept(board: Board, order: seq<int>, n: nat, s: Slot)
    requires Covers(board, order) && n <= |order|
    ensures s in Taken(board, order, n) <==> exists k :: 0 <= k < n && Kept(board, order, k) && s in Occupied(board[order[k]])
    decreases n
  {
    if n == 0 {
    } else {
      TakenByKept(board, order, n - 1, s);
    }
  }

  lemma KeptApart(board: Board, order: seq<int>, k: nat, l: nat)
    requires Covers(board, order) && k < l < |order| && Kept(board, order, k) && Kept(board, order, l)
    ensures Occupied(board[order[k]]) !! Occupied(board[order[l]])
  {
    forall s | s in Occupied(board[order[k]])
      ensures s !in Occupied(board[order[l]])
    {
      TakenByKept(board, order, l, s);
    }
  }

  /** The cells the greedy pass keeps share no slot. */
  lemma KeptAreDisjoint(board: Board, order: seq<int>, n: nat)
    requires Covers(board, order) && n <= |order|
    ensures DisjointCells(board, KeptIds(board, order, n))
    ensures Holds(board, KeptIds(board, order, n), Taken(board, order, n))
  {
    forall k | 0 <= k < n && Kept(board, order, k)
      ensures Occupied(board[order[k]]) <= Taken(board, order, n)
    {
      forall s | s in Occupied(board[order[k]])
        ensures s in Taken(board, order, n)
      {
        TakenByKept(board, order, n, s);
      }
    }
    forall k, l | 0 <= k < l < n && Kept(board, order, k) && Kept(board, order, l)
      ensures Occupied(board[order[k]]) !! Occupied(board[order[l]])
    {
      KeptApart(board, order, k, l);
    }
  }

  predicate DisplacedAt(board: Board, order: seq<int>, k: int, id: int)
    requires forall k :: 0 <= k < |order| ==> order[k] in board
  {
    0 <= k < |order| && order[k] == id && !Kept(board, order, k)
  }

  lemma {:induction false} WhereDisplaced(board: Board, order: seq<int>, n: nat, id: int) returns (k: nat)
    requires n <= |order| && (forall k :: 0 <= k < |order| ==> order[k] in board) && id in Displaced(board, order, n)
    ensures k < n && DisplacedAt(board, order, k, id)
    decreases n
  {
    if id in Displaced(board, order, n - 1) {
      k := WhereDisplaced(board, order, n - 1, id);
    } else {
      k := n - 1;
    }
  }

  lemma {:induction false} DisplacedIsIn(board: Board, order: seq<int>, n: nat, k: nat, id: int)
    requires n <= |order| && (forall k :: 0 <= k < |order| ==> order[k] in board) && k < n && DisplacedAt(board, order, k, id)
    ensures id in Displaced(board, order, n)
    decreases n
  {
    if k == n - 1 {
    } else {
      DisplacedIsIn(board, order, n - 1, k, id);
    }
  }

  lemma {:induction false} DisplacedOnce(board: Board, order: seq<int>, n: nat)
    requires Covers(board, order) && n <= |order|
    ensures Once(Displaced(board, order, n))
    decreases n
  {
    if n == 0 {
    } else {
      DisplacedOnce(board, order, n - 1);
      if order[n - 1] in Displaced(board, order, n - 1) {
        var k := WhereDisplaced(board, order, n - 1, order[n - 1]);
      }
      if !Kept(board, order, n - 1) { JoinOnce(Displaced(board, order, n - 1), [order[n - 1]]); }
    }
  }

  /** The displaced cells are the others, each once, in the order they were looked at. */
  lemma DisplacedAreTheRest(board: Board, order: seq<int>, n: nat)
    requires Covers(board, order) && n <= |order|
    ensures var displaced := Displaced(board, order, n);
            && Once(displaced)
            && forall id :: id in displaced <==> exists k :: 0 <= k < n && order[k] == id && !Kept(board, order, k)
  {
    DisplacedOnce(board, order, n);
    forall id
      ensures id in Displaced(board, order, n) <==> exists k :: 0 <= k < n && order[k] == id && !Kept(board, order, k)
    {
      if id in Displaced(board, order, n) { var k := WhereDisplaced(board, order, n, id); }
      if k :| 0 <= k < n && order[k] == id && !Kept(board, order, k) { DisplacedIsIn(board, order, n, k, id); }
    }
  }

  /** A new slot is on the board, and what the cell then occupies is on the board and free. */
  lemma NewSlotIsFree(timeline: bool, occupied: set<Slot>)
    ensures NewSlot(timeline, occupied).Ok? ==>
              var slots := Occupied(Cell(timeline, NewSlot(timeline, occupied).value));
              slots !! occupied && forall s :: s in slots ==> InGrid(s)
  {
    if timeline { EmptyRowIsFirst(occupied, ROWS); } else { FreeSlotsAreFree(occupied, ROWS * COLUMNS); }
  }

  ghost predicate GoodPlacing(start: Placing, displaced: seq<int>, m: nat, p: Placing, settled: set<int>)
    requires m <= |displaced|
  {
    && p.board.Keys == start.board.Keys
    && DisjointCells(p.board, settled) && Holds(p.board, settled, p.occupied)
    && (forall k :: 0 <= k < m ==> displaced[k] in p.board && forall s :: s in Occupied(p.board[displaced[k]]) ==> InGrid(s))
  }

  /** The ids that have their place: the kept ones and the first m displaced ones. */
  function PlacedIds(kept: set<int>, displaced: seq<int>, m: nat): set<int>
    requires m <= |displaced|
  {
    kept + set k | 0 <= k < m :: displaced[k]
  }

  lemma OneMorePlaced(start: Placing, kept: set<int>, displaced: seq<int>, m: nat, before: Placing)
    requires 0 < m <= |displaced| && Once(displaced) && kept <= start.board.Keys
    requires forall k :: 0 <= k < |displaced| ==> displaced[k] in start.board && displaced[k] !in kept
    requires GoodPlacing(start, displaced, m - 1, before, PlacedIds(kept, displaced, m - 1))
    requires NewSlot(before.board[displaced[m - 1]].timeline, before.occupied).Ok?
    ensures var cell := before.board[displaced[m - 1]];
            var moved := Cell(cell.timeline, NewSlot(cell.timeline, before.occupied).value);
            GoodPlacing(start, displaced, m, Placing(before.board[displaced[m - 1] := moved], before.occupied + Occupied(moved)),
                        PlacedIds(kept, displaced, m))
  {
    var id := displaced[m - 1];
    var settled, now := PlacedIds(kept, displaced, m - 1), PlacedIds(kept, displaced, m);
    NewSlotIsFree(before.board[id].timeline, before.occupied);
    assert now == settled + {id} && id !in settled;
  }

  lemma {:induction false} PlacingIsGood(start: Placing, kept: set<int>, displaced: seq<int>, m: nat)
    requires m <= |displaced| && Once(displaced) && (forall k :: 0 <= k < |displaced| ==> displaced[k] in start.board && displaced[k] !in kept)
    requires DisjointCells(start.board, kept) && Holds(start.board, kept, start.occupied) && kept <= start.board.Keys
    requires PlaceFirst(start, displaced, m).Ok?
    ensures GoodPlacing(start, displaced, m, PlaceFirst(start, displaced, m).value, PlacedIds(kept, displaced, m))
    decreases m
  {
    if m == 0 {
      assert PlacedIds(kept, displaced, 0) == kept;
    } else {
      PlacingIsGood(start, kept, displaced, m - 1);
      var before := PlaceFirst(start, displaced, m - 1).value;
      OneMorePlaced(start, kept, displaced, m, before);
    }
  }

  lemma EveryoneIsPlaced(board: Board, order: seq<int>)
    requires Covers(board, order)
    ensures var displaced := Displaced(board, order, |order|);
            && PlacedIds(KeptIds(board, order, |order|), displaced, |displaced|) == board.Keys
            && forall k :: 0 <= k < |displaced| ==> displaced[k] in board && displaced[k] !in KeptIds(board, order, |order|)
  {
    DisplacedAreTheRest(board, order, |order|);
    DisplacedInBoard(board, order, |order|);
    var displaced := Displaced(board, order, |order|);
    forall id | id in board
      ensures id in PlacedIds(KeptIds(board, order, |order|), displaced, |displaced|)
    {
      var k :| 0 <= k < |order| && order[k] == id;
      if !Kept(board, order, k) { assert id in displaced; }
    }
    forall k | 0 <= k < |displaced|
      ensures displaced[k] !in KeptIds(board, order, |order|)
    {
      assert displaced[k] in displaced;
    }
  }

  /** Everything the steps of a repair keep, for the whole repair. */
  lemma RepairIsGood(board: Board, order: seq<int>)
    requires Covers(board, order) && Repaired(board, order).Ok?
    ensures var displaced := Displaced(board, order, |order|);
            var start := Placing(board, Taken(board, order, |order|));
            && (forall k :: 0 <= k < |displaced| ==> displaced[k] in board)
            && PlaceFirst(start, displaced, |displaced|).Ok?
            && PlaceFirst(start, displaced, |displaced|).value.board == Repaired(board, order).value
            && GoodPlacing(start, displaced, |displaced|, PlaceFirst(start, displaced, |displaced|).value, board.Keys)
  {
    DisplacedAreTheRest(board, order, |order|);
    KeptAreDisjoint(board, order, |order|);
    EveryoneIsPlaced(board, order);
    var displaced := Displaced(board, order, |order|);
    PlacingIsGood(Placing(board, Taken(board, order, |order|)), KeptIds(board, order, |order|), displaced, |displaced|);
  }

  /** No two cells of the result share a slot. */
  lemma NoSharedSlots(board: Board, order: seq<int>, i: int, j: int)
    requires Covers(board, order) && Repaired(board, order).Ok? && i in board && j in board && i != j
    ensures var now := Repaired(board, order).value;
            now.Keys == board.Keys && Occupied(now[i]) !! Occupied(now[j])
  {
    RepairIsGood(board, order);
  }

  lemma {:induction false} TypesKept(start: Placing, displaced: seq<int>, m: nat, id: int)
    requires m <= |displaced| && (forall k :: 0 <= k < |displaced| ==> displaced[k] in start.board) && id in start.board
    ensures PlaceFirst(start, displaced, m).Ok? ==> PlaceFirst(start, displaced, m).value.board[id].timeline == start.board[id].timeline
    decreases m
  {
    if m == 0 {
    } else {
      TypesKept(start, displaced, m - 1, id);
    }
  }

  lemma {:induction false} OthersStay(start: Placing, displaced: seq<int>, m: nat, id: int)
    requires m <= |displaced| && (forall k :: 0 <= k < |displaced| ==> displaced[k] in start.board) && id in start.board
    requires forall k :: 0 <= k < m ==> displaced[k] != id
    ensures PlaceFirst(start, displaced, m).Ok? ==> PlaceFirst(start, displaced, m).value.board[id] == start.board[id]
    decreases m
  {
    if m == 0 {
    } else {
      OthersStay(start, displaced, m - 1, id);
    }
  }

  lemma KeptIsNotDisplaced(board: Board, order: seq<int>, k: nat, displaced: seq<int>, i: nat)
    requires Covers(board, order) && k < |order| && Kept(board, order, k)
    requires displaced == Displaced(board, order, |order|) && i < |displaced|
    ensures displaced[i] != order[k]
  {
    DisplacedAreTheRest(board, order, |order|);
    assert displaced[i] in displaced;
  }

  /** A cell the greedy pass keeps does not move, and no cell changes its type. */
  lemma KeptDoNotMove(board: Board, order: seq<int>, k: nat)
    requires Covers(board, order) && Repaired(board, order).Ok? && k < |order|
    ensures var now := Repaired(board, order).value;
            order[k] in now && now[order[k]].timeline == board[order[k]].timeline
              && (Kept(board, order, k) ==> now[order[k]] == board[order[k]])
  {
    DisplacedInBoard(board, order, |order|);
    var displaced := Displaced(board, order, |order|);
    var start := Placing(board, Taken(board, order, |order|));
    TypesKept(start, displaced, |displaced|, order[k]);
    if Kept(board, order, k) {
      forall i | 0 <= i < |displaced|
        ensures displaced[i] != order[k]
      {
        KeptIsNotDisplaced(board, order, k, displaced, i);
      }
      OthersStay(start, displaced, |displaced|, order[k]);
    }
  }

  predicate OnBoard(c: Cell) {
    forall s :: s in Occupied(c) ==> InGrid(s)
  }

  /** Cells on the board stay on it, and displaced ones are put on it. */
  lemma StaysOnBoard(board: Board, order: seq<int>, k: nat)
    requires Covers(board, order) && Repaired(board, order).Ok? && k < |order|
    ensures order[k] in Repaired(board, order).value
    ensures OnBoard(board[order[k]]) || !Kept(board, order, k) ==> OnBoard(Repaired(board, order).value[order[k]])
  {
    RepairIsGood(board, order);
    KeptDoNotMove(board, order, k);
    DisplacedAreTheRest(board, order, |order|);
    var displaced := Displaced(board, order, |order|);
    if !Kept(board, order, k) {
      assert order[k] in displaced;
      var i :| 0 <= i < |displaced| && displaced[i] == order[k];
    }
  }

  /** The protected cell is always kept. */
  lemma ProtectedDoesNotMove(board: Board, rows: seq<int>, id: int)
    requires Listed(board, rows) && id in board
    ensures Covers(board, Ranked(board, rows, Some(id)))
    ensures var r := Repaired(board, Ranked(board, rows, Some(id)));
            r.Ok? ==> id in r.value && r.value[id] == board[id]
  {
    var order := Ranked(board, rows, Some(id));
    RankedCovers(board, rows, Some(id));
    ProtectedIsFirst(board, rows, id);
    assert Kept(board, order, 0);
    if Repaired(board, order).Ok? { KeptDoNotMove(board, order, 0); }
  }

  /** A displaced cell shares a slot with a kept cell that was looked at before it. */
  lemma DisplacedByKept(board: Board, order: seq<int>, k: nat) returns (j: nat)
    requires Covers(board, order) && k < |order| && !Kept(board, order, k)
    ensures j < k && Kept(board, order, j) && !(Occupied(board[order[j]]) !! Occupied(board[order[k]]))
  {
    var s :| s in Occupied(board[order[k]]) && s in Taken(board, order, k);
    TakenByKept(board, order, k, s);
    j :| 0 <= j < k && Kept(board, order, j) && s in Occupied(board[order[j]]);
  }

  predicate CollisionFree(board: Board) {
    DisjointCells(board, board.Keys)
  }

  /** A layout without collisions is left as it is. */
  lemma CollisionFreeIsKept(board: Board, order: seq<int>)
    requires Covers(board, order) && CollisionFree(board)
    ensures Repaired(board, order) == Ok(board)
  {
    forall k | 0 <= k < |order|
      ensures Kept(board, order, k)
    {
      if !Kept(board, order, k) { var j := DisplacedByKept(board, order, k); }
    }
    DisplacedAreTheRest(board, order, |order|);
    var displaced := Displaced(board, order, |order|);
    assert forall k :: 0 <= k < |displaced| ==> displaced[k] in displaced;
  }

  /** So a repair changes a layout exactly when it had a collision, and a second repair changes nothing. */
  lemma RepairsIffColliding(board: Board, order: seq<int>)
    requires Covers(board, order)
    ensures Repaired(board, order) == Ok(board) <==> CollisionFree(board)
    ensures Repaired(board, order).Ok? ==> CollisionFree(Repaired(board, order).value)
  {
    if CollisionFree(board) { CollisionFreeIsKept(board, order); }
    if Repaired(board, order).Ok? {
      var now := Repaired(board, order).value;
      RepairIsGood(board, order);
      forall i, j | i in now && j in now && i != j
        ensures Occupied(now[i]) !! Occupied(now[j])
      {
        NoSharedSlots(board, order, i, j);
      }
    }
  }

  // ----- when there is room

  function FreeSlots(occupied: set<Slot>): set<Slot> {
    set row, column | 0 <= row < ROWS && 0 <= column < COLUMNS && Slot(row, column) !in occupied :: Slot(row, column)
  }

  function EmptyRows(occupied: set<Slot>): set<int> {
    set row | 0 <= row < ROWS && RowEmpty(occupied, row)
  }

  lemma {:induction false} SlotsOfRow(row: int, n: nat)
    ensures |set column | 0 <= column < n :: Slot(row, column)| == n
  {
    var all := set column | 0 <= column < n :: Slot(row, column);
    if n == 0 {
      assert all == {};
    } else {
      SlotsOfRow(row, n - 1);
      assert all == (set column | 0 <= column < n - 1 :: Slot(row, column)) + {Slot(row, n - 1)};
    }
  }

  predicate AllOnGrid(slots: set<Slot>) {
    forall s :: s in slots ==> InGrid(s)
  }

  lemma EmptyRowsAfter(occupied: set<Slot>, row: int)
    requires 0 <= row < ROWS && RowEmpty(occupied, row)
    ensures EmptyRows(occupied + RowSlots(row)) == EmptyRows(occupied) - {row}
  {
    var after := occupied + RowSlots(row);
    assert Slot(row, 0) in after;
    forall r | 0 <= r < ROWS && r != row
      ensures RowEmpty(after, r) <==> RowEmpty(occupied, r)
    {
      assert forall s :: s in RowSlots(row) ==> s.row == row;
    }
  }

  lemma RoomForTimeline(occupied: set<Slot>)
    requires AllOnGrid(occupied)
    ensures NewSlot(true, occupied).Ok? <==> EmptyRows(occupied) != {}
    ensures NewSlot(true, occupied).Ok? ==>
              var after := occupied + RowSlots(NewSlot(true, occupied).value.row);
              |FreeSlots(after)| == |FreeSlots(occupied)| - COLUMNS && |EmptyRows(after)| == |EmptyRows(occupied)| - 1
  {
    EmptyRowIsFirst(occupied, ROWS);
    match EmptyRowAmong(occupied, ROWS)
    case Some(row) =>
      var after := occupied + RowSlots(row);
      assert row in EmptyRows(occupied);
      SlotsOfRow(row, COLUMNS);
      assert RowSlots(row) <= FreeSlots(occupied);
      assert FreeSlots(after) == FreeSlots(occupied) - RowSlots(row);
      assert Slot(row, 0) in after;
      EmptyRowsAfter(occupied, row);
    case None => assert EmptyRows(occupied) == {};
  }

  lemma RoomForPlain(occupied: set<Slot>)
    requires AllOnGrid(occupied)
    ensures NewSlot(false, occupied).Ok? <==> FreeSlots(occupied) != {}
    ensures NewSlot(false, occupied).Ok? ==>
              |FreeSlots(occupied + {NewSlot(false, occupied).value})| == |FreeSlots(occupied)| - 1
  {
    var free := FreeAmong(occupied, ROWS * COLUMNS);
    FreeSlotsAreFree(occupied, ROWS * COLUMNS);
    if free != [] {
      var s := free[0];
      assert s == Slot(s.row, s.column) && s in FreeSlots(occupied);
      assert FreeSlots(occupied + {s}) == FreeSlots(occupied) - {s};
    } else {
      forall row, column | 0 <= row < ROWS && 0 <= column < COLUMNS
        ensures Slot(row, column) in occupied
      {
        assert SlotNumber(row * COLUMNS + column) == Slot(row, column);
      }
      assert FreeSlots(occupied) == {};
    }
  }

  /** A new place is found exactly when there is a free one, and it uses up what the cell needs. */
  lemma RoomForOne(timeline: bool, occupied: set<Slot>)
    requires AllOnGrid(occupied)
    ensures NewSlot(timeline, occupied).Ok? <==> if timeline then |EmptyRows(occupied)| > 0 else |FreeSlots(occupied)| > 0
    ensures NewSlot(timeline, occupied).Ok? ==>
              var after := occupied + Occupied(Cell(timeline, NewSlot(timeline, occupied).value));
              && AllOnGrid(after)
              && |FreeSlots(after)| == |FreeSlots(occupied)| - (if timeline then COLUMNS else 1)
              && (timeline ==> |EmptyRows(after)| == |EmptyRows(occupied)| - 1)
  {
    NewSlotIsFree(timeline, occupied);
    if timeline { RoomForTimeline(occupied); } else { RoomForPlain(occupied); }
  }

  /** Timelines come first, from some place on there are none. */
  predicate TimelinesUpTo(board: Board, ids: seq<int>, t: nat) {
    t <= |ids| && forall i :: 0 <= i < |ids| ==> ids[i] in board && (board[ids[i]].timeline <==> i < t)
  }

  /** What the first m displaced cells need: rows, and slots besides them. */
  function RowsNeeded(t: nat, m: nat): nat {
    if m < t then m else t
  }

  function SlotsNeeded(t: nat, m: nat): nat {
    if m < t then 0 else m - t
  }

  lemma PlaceLast(start: Placing, displaced: seq<int>, t: nat, m: nat)
    requires 0 < m <= |displaced| && TimelinesUpTo(start.board, displaced, t)
    ensures var before, r := PlaceFirst(start, displaced, m - 1), PlaceFirst(start, displaced, m);
            if before.Err? || !AllOnGrid(before.value.occupied) then before.Err? ==> r == before
            else
              var x, timeline := before.value.occupied, m - 1 < t;
              && (r.Ok? <==> if timeline then |EmptyRows(x)| > 0 else |FreeSlots(x)| > 0)
              && (r.Err? ==> r.error == if timeline then NoEmptyRow else GridFull)
              && (r.Ok? ==>
                    && AllOnGrid(r.value.occupied)
                    && |FreeSlots(r.value.occupied)| == |FreeSlots(x)| - (if timeline then COLUMNS else 1)
                    && (timeline ==> |EmptyRows(r.value.occupied)| == |EmptyRows(x)| - 1))
  {
    var before := PlaceFirst(start, displaced, m - 1);
    if before.Ok? && AllOnGrid(before.value.occupied) {
      TypesKept(start, displaced, m - 1, displaced[m - 1]);
      RoomForOne(m - 1 < t, before.value.occupied);
    }
  }

  /** The first m displaced cells find a place exactly when there are rows and slots enough for them. */
  lemma {:induction false} RoomForFirst(start: Placing, displaced: seq<int>, t: nat, m: nat)
    requires m <= |displaced| && AllOnGrid(start.occupied) && TimelinesUpTo(start.board, displaced, t)
    ensures var rows, plain, r := RowsNeeded(t, m), SlotsNeeded(t, m), PlaceFirst(start, displaced, m);
            && (r.Ok? <==> rows <= |EmptyRows(start.occupied)| && (plain > 0 ==> COLUMNS * rows + plain <= |FreeSlots(start.occupied)|))
            && (r.Err? ==> r.error == if rows > |EmptyRows(start.occupied)| then NoEmptyRow else GridFull)
            && (r.Ok? ==> AllOnGrid(r.value.occupied))
            && (r.Ok? ==> |FreeSlots(r.value.occupied)| == |FreeSlots(start.occupied)| - COLUMNS * rows - plain)
            && (r.Ok? && plain == 0 ==> |EmptyRows(r.value.occupied)| == |EmptyRows(start.occupied)| - rows)
    decreases m
  {
    if m == 0 {
    } else {
      RoomForFirst(start, displaced, t, m - 1);
      PlaceLast(start, displaced, t, m);
    }
  }

  lemma MemberAt(a: seq<int>, i: nat)
    requires i < |a|
    ensures a[i] in a
  {
  }

  lemma ProtectedAlone(board: Board, protected: Option<int>, a: seq<int>)
    requires Once(a) && forall id :: id in a ==> HasRank(board, protected, 0, id)
    ensures |a| <= 1
  {
    if |a| > 1 {
      MemberAt(a, 0);
      MemberAt(a, 1);
    }
  }

  lemma RankedTimelinesFirst(board: Board, rows: seq<int>, protected: Option<int>, k: nat, l: nat)
    requires Listed(board, rows)
    requires var order := Ranked(board, rows, protected); 0 < k < l < |order| && order[l] in board && board[order[l]].timeline
    ensures var order := Ranked(board, rows, protected); order[k] in board && board[order[k]].timeline
  {
    var a, b, c := OfRank(board, rows, protected, 0), OfRank(board, rows, protected, 1), OfRank(board, rows, protected, 2);
    var order := Ranked(board, rows, protected);
    assert order == a + b + c;
    OfRankOnce(board, rows, protected, 0);
    OfRankOnce(board, rows, protected, 1);
    OfRankOnce(board, rows, protected, 2);
    ProtectedAlone(board, protected, a);
    assert forall i :: 0 <= i < |b| ==> b[i] in b && HasRank(board, protected, 1, b[i]);
    assert forall i :: 0 <= i < |c| ==> c[i] in c && HasRank(board, protected, 2, c[i]);
  }

  lemma FirstIsKept(board: Board, order: seq<int>)
    requires Covers(board, order) && order != []
    ensures Kept(board, order, 0)
  {
    assert Taken(board, order, 0) == {};
  }

  lemma {:induction false} DisplacedFrom(board: Board, order: seq<int>, n: nat, i: nat) returns (k: nat)
    requires Covers(board, order) && n <= |order| && i < |Displaced(board, order, n)|
    ensures 0 < k < n && order[k] == Displaced(board, order, n)[i]
    ensures forall j :: i < j < |Displaced(board, order, n)| ==> exists l :: k < l < n && order[l] == Displaced(board, order, n)[j]
    decreases n
  {
    FirstIsKept(board, order);
    var before := Displaced(board, order, n - 1);
    if i < |before| {
      k := DisplacedFrom(board, order, n - 1, i);
    } else {
      k := n - 1;
    }
  }

  lemma {:induction false} Boundary(board: Board, ids: seq<int>) returns (t: nat)
    requires forall i :: 0 <= i < |ids| ==> ids[i] in board
    requires forall i, j :: 0 <= i < j < |ids| && board[ids[j]].timeline ==> board[ids[i]].timeline
    ensures TimelinesUpTo(board, ids, t)
    decreases |ids|
  {
    if ids == [] {
      t := 0;
    } else {
      var n := |ids| - 1;
      t := Boundary(board, ids[..n]);
      assert forall i :: 0 <= i < n ==> ids[..n][i] == ids[i];
      if board[ids[n]].timeline { t := n + 1; }
    }
  }

  /** The displaced cells are placed timelines first. */
  lemma DisplacedTimelinesFirst(board: Board, rows: seq<int>, protected: Option<int>) returns (t: nat)
    requires Listed(board, rows)
    ensures var order := Ranked(board, rows, protected);
            Covers(board, order) && TimelinesUpTo(board, Displaced(board, order, |order|), t)
  {
    var order := Ranked(board, rows, protected);
    RankedCovers(board, rows, protected);
    DisplacedInBoard(board, order, |order|);
    var displaced := Displaced(board, order, |order|);
    forall i, j | 0 <= i < j < |displaced| && board[displaced[j]].timeline
      ensures board[displaced[i]].timeline
    {
      var k := DisplacedFrom(board, order, |order|, i);
      var l :| k < l < |order| && order[l] == displaced[j];
      RankedTimelinesFirst(board, rows, protected, k, l);
    }
    t := Boundary(board, displaced);
  }

  /**
   A board whose cells all lie on the grid can be repaired exactly when the kept cells leave an
   empty row for every displaced timeline and, besides those rows, a slot for every other
   displaced cell. Without rows enough that is the fault, else that the board is full.
   */
  lemma RepairSucceedsIff(board: Board, rows: seq<int>, protected: Option<int>) returns (t: nat)
    requires Listed(board, rows) && forall id :: id in board ==> OnBoard(board[id])
    ensures var order := Ranked(board, rows, protected);
            && Covers(board, order)
            && var displaced, taken := Displaced(board, order, |order|), Taken(board, order, |order|);
               && TimelinesUpTo(board, displaced, t)
               && (Repaired(board, order).Ok? <==>
                     t <= |EmptyRows(taken)| && (|displaced| > t ==> COLUMNS * t + (|displaced| - t) <= |FreeSlots(taken)|))
               && (Repaired(board, order).Err? ==>
                     Repaired(board, order).error == if t > |EmptyRows(taken)| then NoEmptyRow else GridFull)
  {
    t := DisplacedTimelinesFirst(board, rows, protected);
    var order := Ranked(board, rows, protected);
    var displaced, taken := Displaced(board, order, |order|), Taken(board, order, |order|);
    forall s | s in taken
      ensures InGrid(s)
    {
      TakenByKept(board, order, |order|, s);
    }
    RoomForFirst(Placing(board, taken), displaced, t, |displaced|);
  }

  // ----- checks and repairs on the stored cells

  /** A requested place is taken when another cell occupies one of its slots. */
  predicate PlaceTaken(board: Board, id: int, cell: Cell) {
    exists other :: other in board && other != id && !(Occupied(board[other]) !! Occupied(cell))
  }

  function OccupiedByOthers(board: Board, id: int): set<Slot> {
    set other, s | other in board && other != id && s in Occupied(board[other]) :: s
  }

  lemma {:induction false} PlacingFailed(start: Placing, displaced: seq<int>, n: nat, m: nat)
    requires n <= m <= |displaced| && (forall k :: 0 <= k < |displaced| ==> displaced[k] in start.board)
    requires PlaceFirst(start, displaced, n).Err?
    ensures PlaceFirst(start, displaced, m) == PlaceFirst(start, displaced, n)
    decreases m
  {
    if n == m {
    } else {
      PlacingFailed(start, displaced, n, m - 1);
    }
  }

  lemma {:induction false} PlacingFaults(start: Placing, displaced: seq<int>, m: nat)
    requires m <= |displaced| && forall k :: 0 <= k < |displaced| ==> displaced[k] in start.board
    ensures PlaceFirst(start, displaced, m) != Err(SlotOccupied)
    decreases m
  {
    if m == 0 {
    } else {
      PlacingFaults(start, displaced, m - 1);
    }
  }

  /** A repair runs out of room or off the board, it does not report an occupied slot. */
  lemma NoSuchFault(board: Board, order: seq<int>)
    requires Covers(board, order)
    ensures Repaired(board, order) != Err(SlotOccupied)
  {
    DisplacedInBoard(board, order, |order|);
    var displaced := Displaced(board, order, |order|);
    PlacingFaults(Placing(board, Taken(board, order, |order|)), displaced, |displaced|);
  }

  /** A cell put at a free place stays there, and on a board without collisions nothing else moves. */
  lemma PutIsSettled(board: Board, id: int, cell: Cell, rows: seq<int>)
    requires Listed(board[id := cell], rows) && !PlaceTaken(board, id, cell)
    ensures Covers(board[id := cell], Ranked(board[id := cell], rows, Some(id)))
    ensures var r := Repaired(board[id := cell], Ranked(board[id := cell], rows, Some(id)));
            && (r.Ok? ==> CollisionFree(r.value) && id in r.value && r.value[id] == cell)
            && (CollisionFree(board) ==> r == Ok(board[id := cell]))
  {
    var stored := board[id := cell];
    var order := Ranked(stored, rows, Some(id));
    ProtectedDoesNotMove(stored, rows, id);
    RepairsIffColliding(stored, order);
    if CollisionFree(board) {
      forall i, j | i in stored && j in stored && i != j
        ensures Occupied(stored[i]) !! Occupied(stored[j])
      {
        if i != id && j != id { assert Occupied(board[i]) !! Occupied(board[j]); }
      }
    }
  }

  class Notebook {
    var cells: Board

    constructor (cells: Board)
      ensures this.cells == cells
    {
      this.cells := cells;
    }

    method AssertCellSlotFree(id: int, cell: Cell) returns (fault: Option<GridFault>)
      ensures fault == if PlaceTaken(cells, id, cell) then Some(SlotOccupied) else None
    {
      var requested := Occupied(cell);
      var others := OccupiedByOthers(cells, id);
      if s :| s in others && s in requested {
        assert PlaceTaken(cells, id, cell);
        return Some(SlotOccupied);
      }
      forall other | other in cells && other != id
        ensures Occupied(cells[other]) !! Occupied(cell)
      {
        assert forall s :: s in Occupied(cells[other]) ==> s in others;
      }
      return None;
    }

    method KeepGreedily(ranked: seq<int>) returns (occupied: set<Slot>, displaced: seq<int>)
      requires Covers(cells, ranked)
      ensures occupied == Taken(cells, ranked, |ranked|)
      ensures displaced == Displaced(cells, ranked, |ranked|)
    {
      occupied, displaced := {}, [];
      for k := 0 to |ranked|
        invariant occupied == Taken(cells, ranked, k) && displaced == Displaced(cells, ranked, k)
      {
        var slots := Occupied(cells[ranked[k]]);
        if slots !! occupied {
          occupied := occupied + slots;
        } else {
          displaced := displaced + [ranked[k]];
        }
      }
    }

    method PlaceFor(timeline: bool, occupied: set<Slot>) returns (r: Result<Slot, GridFault>)
      ensures r == NewSlot(timeline, occupied)
    {
      if timeline {
        r := FirstEmptyNotebookGridRow(occupied);
      } else {
        var slots := FirstEmptyNotebookGridSlots(occupied, 1);
        r := match slots case Ok(found) => Ok(found[0]) case Err(e) => Err(e);
      }
    }

    method PlaceDisplaced(displaced: seq<int>, kept: set<Slot>) returns (fault: Option<GridFault>)
      requires forall k :: 0 <= k < |displaced| ==> displaced[k] in cells
      modifies this
      ensures match PlaceFirst(Placing(old(cells), kept), displaced, |displaced|)
              case Ok(p) => fault.None? && cells == p.board
              case Err(e) => fault == Some(e) && cells == old(cells)
    {
      var before := cells;
      var occupied := kept;
      for m := 0 to |displaced|
        invariant PlaceFirst(Placing(before, kept), displaced, m) == Ok(Placing(cells, occupied))
      {
        var cell := cells[displaced[m]];
        var slot := PlaceFor(cell.timeline, occupied);
        if slot.Err? {
          PlacingFailed(Placing(before, kept), displaced, m + 1, |displaced|);
          cells := before;
          return Some(slot.error);
        }
        cells := cells[displaced[m] := cell.(slot := slot.value)];
        occupied := occupied + Occupied(cells[displaced[m]]);
      }
      fault := None;
    }

    /** rows is the stored order of the cells. A failed repair is rolled back with its transaction. */
    method RepairCellSlots(rows: seq<int>, protected: Option<int>) returns (fault: Option<GridFault>)
      requires Listed(cells, rows)
      modifies this
      ensures Covers(old(cells), Ranked(old(cells), rows, protected))
      ensures match Repaired(old(cells), Ranked(old(cells), rows, protected))
              case Ok(board) => fault.None? && cells == board
              case Err(e) => fault == Some(e) && cells == old(cells)
    {
      var ranked := Ranked(cells, rows, protected);
      RankedCovers(cells, rows, protected);
      var occupied, displaced := KeepGreedily(ranked);
      DisplacedInBoard(cells, ranked, |ranked|);
      fault := PlaceDisplaced(displaced, occupied);
    }

    /** Inserting or updating a cell: the place is checked, the cell stored, and the board repaired around it. */
    method PutCell(id: int, cell: Cell, rows: seq<int>) returns (fault: Option<GridFault>)
      requires Listed(cells[id := cell], rows)
      modifies this
      ensures fault == Some(SlotOccupied) <==> PlaceTaken(old(cells), id, cell)
      ensures fault.Some? ==> cells == old(cells)
      ensures fault.None? ==> CollisionFree(cells) && id in cells && cells[id] == cell
      ensures CollisionFree(old(cells)) && !PlaceTaken(old(cells), id, cell) ==> fault.None? && cells == old(cells)[id := cell]
    {
      fault := AssertCellSlotFree(id, cell);
      if fault.Some? { return; }
      var before := cells;
      cells := cells[id := cell];
      ghost var stored := cells;
      fault := RepairCellSlots(rows, Some(id));
      PutIsSettled(old(cells), id, cell, rows);
      if fault.Some? {
        NoSuchFault(stored, Ranked(stored, rows, Some(id)));
        cells := before;
      }
    }
  }
}
