/**
 Which of two colliding cells stays, and where the others go (repairCellSlots, src/domain.ts), said
 of the boards before and after a repair alone.
 */
module GridPriority {
  import opened Wrappers
  import opened Collections
  import opened Grid

  // ----- what it is to share a slot

  /** On the grid two cells are apart when they have different slots, and different rows if one is a timeline. */
  lemma ApartMeans(a: Cell, b: Cell)
    requires InGrid(a.slot) && InGrid(b.slot)
    ensures Occupied(a) !! Occupied(b) <==> a.slot != b.slot && (a.timeline || b.timeline ==> a.slot.row != b.slot.row)
  {
    if a.timeline { assert a.slot in RowSlots(a.slot.row); }
    if b.timeline { assert b.slot in RowSlots(b.slot.row); }
    if a.timeline && b.timeline && a.slot.row == b.slot.row {
      assert a.slot in Occupied(a) && a.slot in Occupied(b);
    }
  }

  /** The board has 64 rows of 8 slots. */
  lemma Capacity(s: Slot)
    ensures InGrid(s) <==> 0 <= s.row <= 63 && 0 <= s.column <= 7
  {
  }

  // ----- the first free slots

  predicate AddressBefore(s: Slot, t: Slot) {
    s.row < t.row || (s.row == t.row && s.column < t.column)
  }

  /** The number of a slot in address order. */
  function Number(s: Slot): int {
    8 * s.row + s.column
  }

  lemma Numbered(s: Slot, t: Slot)
    requires InGrid(s) && InGrid(t)
    ensures 0 <= Number(s) < ROWS * COLUMNS && SlotNumber(Number(s)) == s
    ensures AddressBefore(s, t) <==> Number(s) < Number(t)
  {
  }

  predicate InOrder(slots: seq<Slot>) {
    forall k, l :: 0 <= k < l < |slots| ==> Number(slots[k]) < Number(slots[l])
  }

  predicate Below(slots: seq<Slot>, n: int) {
    forall k :: 0 <= k < |slots| ==> InGrid(slots[k]) && Number(slots[k]) < n
  }

  lemma OneMoreInOrder(slots: seq<Slot>, n: nat)
    requires n < ROWS * COLUMNS && InOrder(slots) && Below(slots, n)
    ensures InOrder(slots + [SlotNumber(n)]) && Below(slots + [SlotNumber(n)], n + 1) && Below(slots, n + 1)
  {
    assert InGrid(SlotNumber(n)) && Number(SlotNumber(n)) == n;
  }

  lemma {:induction false} FreeInOrder(occupied: set<Slot>, n: nat)
    requires n <= ROWS * COLUMNS
    ensures InOrder(FreeAmong(occupied, n)) && Below(FreeAmong(occupied, n), n)
  {
    if n == 0 {
    } else {
      hide InOrder, Below, SlotNumber;
      FreeInOrder(occupied, n - 1);
      OneMoreInOrder(FreeAmong(occupied, n - 1), n - 1);
    }
  }

  predicate Listable(occupied: set<Slot>, s: Slot) {
    0 <= s.row < 64 && 0 <= s.column < 8 && s !in occupied
  }

  lemma FreeListed(occupied: set<Slot>, s: Slot)
    ensures s in FreeAmong(occupied, ROWS * COLUMNS) <==> Listable(occupied, s)
  {
    FreeSlotsAreFree(occupied, ROWS * COLUMNS);
    if InGrid(s) { Numbered(s, s); }
  }

  lemma {:induction false} SizeOfOnce(xs: seq<Slot>)
    requires InOrder(xs)
    ensures |set s | s in xs| == |xs|
    decreases |xs|
  {
    if xs == [] {
    } else {
      var n := |xs| - 1;
      SizeOfOnce(xs[..n]);
      assert (set s | s in xs) == (set s | s in xs[..n]) + {xs[n]};
      assert xs[n] !in xs[..n];
    }
  }

  lemma FreeCount(occupied: set<Slot>)
    ensures |FreeAmong(occupied, ROWS * COLUMNS)| == |FreeSlots(occupied)|
  {
    var free := FreeAmong(occupied, ROWS * COLUMNS);
    FreeInOrder(occupied, ROWS * COLUMNS);
    SizeOfOnce(free);
    forall s
      ensures s in FreeSlots(occupied) <==> s in free
    {
      FreeListed(occupied, s);
      assert s == Slot(s.row, s.column);
    }
    assert FreeSlots(occupied) == set s | s in free;
  }

  /**
   Slots asked for are the first free ones of the board in address order: as many as asked for,
   each free, in order, and every other free slot comes behind them. Refused when an occupied slot
   lies off the board, or when there are not enough free ones.
   */
  lemma FirstEmptyMeans(occupied: set<Slot>, count: nat, s: Slot)
    ensures var r := FirstEmpty(occupied, count);
            && (r == Err(OutOfGrid) <==> count > 0 && exists s :: s in occupied && !InGrid(s))
            && (r == Err(GridFull) <==> count > 0 && (forall s :: s in occupied ==> InGrid(s)) && |FreeSlots(occupied)| < count)
            && (r.Err? ==> r.error in {OutOfGrid, GridFull})
            && (r.Ok? ==>
                  && |r.value| == count
                  && (forall k :: 0 <= k < count ==> Listable(occupied, r.value[k]))
                  && (forall k, l :: 0 <= k < l < count ==> AddressBefore(r.value[k], r.value[l]))
                  && (Listable(occupied, s) && s !in r.value ==> forall k :: 0 <= k < count ==> AddressBefore(r.value[k], s)))
  {
    var free := FreeAmong(occupied, ROWS * COLUMNS);
    FreeInOrder(occupied, ROWS * COLUMNS);
    FreeListed(occupied, s);
    FreeCount(occupied);
    forall k | 0 <= k < |free|
      ensures Listable(occupied, free[k])
    {
      assert free[k] in free;
      FreeListed(occupied, free[k]);
    }
    forall k, l | 0 <= k < l < |free|
      ensures AddressBefore(free[k], free[l])
    {
      Numbered(free[k], free[l]);
    }
    if Listable(occupied, s) && count <= |free| && s !in free[..count] {
      assert forall i :: 0 <= i < count ==> free[..count][i] == free[i];
      var i :| 0 <= i < |free| && free[i] == s;
    }
  }

  // ----- the order of the cells

  /** The protected cell, then the timelines, then the rest, each by row, column and id. */
  predicate GoesFirst(board: Board, protected: Option<int>, i: int, j: int)
    requires i in board && j in board
  {
    var a, b := board[i], board[j];
    if protected == Some(i) || protected == Some(j) then i != j && protected == Some(i)
    else if a.timeline != b.timeline then a.timeline
    else if a.slot.row != b.slot.row then a.slot.row < b.slot.row
    else if a.slot.column != b.slot.column then a.slot.column < b.slot.column
    else i < j
  }

  lemma {:induction false} FilterKeepsOrder(keep: int -> bool, s: seq<int>, k: nat, l: nat) returns (i: nat, j: nat)
    requires k < l < |Filter(keep, s)|
    ensures i < j < |s| && s[i] == Filter(keep, s)[k] && s[j] == Filter(keep, s)[l]
    decreases |s|
  {
    var n := |s| - 1;
    if l < |Filter(keep, s[..n])| {
      i, j := FilterKeepsOrder(keep, s[..n], k, l);
    } else {
      j := n;
      Filtered(keep, s[..n], Filter(keep, s)[k]);
      i :| 0 <= i < n && s[..n][i] == Filter(keep, s)[k];
    }
  }

  lemma OfRankInOrder(board: Board, rows: seq<int>, protected: Option<int>, rank: int, k: nat, l: nat)
    requires Listed(board, rows) && k < l < |OfRank(board, rows, protected, rank)|
    ensures var a := OfRank(board, rows, protected, rank);
            HasRank(board, protected, rank, a[k]) && HasRank(board, protected, rank, a[l]) && GoesFirst(board, protected, a[k], a[l])
  {
    var a := OfRank(board, rows, protected, rank);
    OfRankOnce(board, rows, protected, rank);
    assert a[k] in a && a[l] in a;
    var i, j := FilterKeepsOrder((id: int) => HasRank(board, protected, rank, id), rows, k, l);
  }

  lemma RankOf(board: Board, rows: seq<int>, protected: Option<int>, k: nat) returns (rank: int, at: nat)
    requires Listed(board, rows) && k < |Ranked(board, rows, protected)|
    ensures at < |OfRank(board, rows, protected, rank)| && Ranked(board, rows, protected)[k] == OfRank(board, rows, protected, rank)[at]
    ensures HasRank(board, protected, rank, Ranked(board, rows, protected)[k])
    ensures 0 <= rank <= 2
    ensures k == at + (if rank > 0 then |OfRank(board, rows, protected, 0)| else 0) + if rank > 1 then |OfRank(board, rows, protected, 1)| else 0
  {
    var a, b := OfRank(board, rows, protected, 0), OfRank(board, rows, protected, 1);
    if k < |a| {
      rank, at := 0, k;
    } else if k < |a| + |b| {
      rank, at := 1, k - |a|;
    } else {
      rank, at := 2, k - |a| - |b|;
    }
    OfRankOnce(board, rows, protected, rank);
    assert OfRank(board, rows, protected, rank)[at] in OfRank(board, rows, protected, rank);
  }

  /** Cells are looked at in that order. */
  lemma RankedInOrder(board: Board, rows: seq<int>, protected: Option<int>, k: nat, l: nat)
    requires Listed(board, rows) && k < l < |Ranked(board, rows, protected)|
    ensures var order := Ranked(board, rows, protected);
            order[k] in board && order[l] in board && GoesFirst(board, protected, order[k], order[l])
  {
    var p, x := RankOf(board, rows, protected, k);
    var q, y := RankOf(board, rows, protected, l);
    if p == q { OfRankInOrder(board, rows, protected, p, x, y); }
  }

  // ----- who stays

  predicate Stays(board: Board, now: Board, i: int) {
    i in board && i in now && now[i] == board[i]
  }

  /** Another cell that stays goes first and shares a slot. */
  predicate Ousted(board: Board, now: Board, protected: Option<int>, i: int) {
    exists j :: j in board && i in board && Stays(board, now, j) && GoesFirst(board, protected, j, i) && !(Occupied(board[j]) !! Occupied(board[i]))
  }

  lemma SlotIsOccupied(c: Cell)
    requires InGrid(c.slot)
    ensures c.slot in Occupied(c)
  {
  }

  /** A displaced cell gets another slot: its own shares with a kept one. */
  lemma DisplacedMoves(board: Board, order: seq<int>, k: nat)
    requires Covers(board, order) && Repaired(board, order).Ok? && k < |order|
    ensures order[k] in Repaired(board, order).value
    ensures Repaired(board, order).value[order[k]] == board[order[k]] <==> Kept(board, order, k)
  {
    KeptDoNotMove(board, order, k);
    if !Kept(board, order, k) {
      var j := DisplacedByKept(board, order, k);
      KeptDoNotMove(board, order, j);
      NoSharedSlots(board, order, order[j], order[k]);
    }
  }

  /**
   After a repair a cell is where it was exactly when no other cell that stayed, goes first and
   shares a slot with it.
   */
  lemma StaysUnlessOusted(board: Board, rows: seq<int>, protected: Option<int>, i: int)
    requires Listed(board, rows) && i in board
    ensures Covers(board, Ranked(board, rows, protected))
    ensures var r := Repaired(board, Ranked(board, rows, protected));
            r.Ok? ==> (Stays(board, r.value, i) <==> !Ousted(board, r.value, protected, i))
  {
    var order := Ranked(board, rows, protected);
    RankedCovers(board, rows, protected);
    if Repaired(board, order).Ok? {
      var now := Repaired(board, order).value;
      var k :| 0 <= k < |order| && order[k] == i;
      DisplacedMoves(board, order, k);
      if !Kept(board, order, k) {
        var j := DisplacedByKept(board, order, k);
        DisplacedMoves(board, order, j);
        RankedInOrder(board, rows, protected, j, k);
        assert Stays(board, now, order[j]);
      } else if j :| j in board && Stays(board, now, j) && GoesFirst(board, protected, j, i) && !(Occupied(board[j]) !! Occupied(board[i])) {
        NoSharedSlots(board, order, j, i);
      }
    }
  }

  /** Of two cells of one type that collide in one slot, neither protected, the one with the greater id never stays. */
  lemma LowerIdStays(board: Board, rows: seq<int>, protected: Option<int>, i: int, j: int)
    requires Listed(board, rows) && i in board && j in board && i < j && protected != Some(i) && protected != Some(j)
    requires board[i] == board[j] && InGrid(board[i].slot)
    ensures Covers(board, Ranked(board, rows, protected))
    ensures var r := Repaired(board, Ranked(board, rows, protected)); r.Ok? ==> !Stays(board, r.value, j)
  {
    var order := Ranked(board, rows, protected);
    StaysUnlessOusted(board, rows, protected, i);
    StaysUnlessOusted(board, rows, protected, j);
    if Repaired(board, order).Ok? && Stays(board, Repaired(board, order).value, j) {
      var now := Repaired(board, order).value;
      SlotIsOccupied(board[i]);
      if Stays(board, now, i) {
        NoSharedSlots(board, order, i, j);
      } else {
        var l :| l in board && Stays(board, now, l) && GoesFirst(board, protected, l, i) && !(Occupied(board[l]) !! Occupied(board[i]));
        NoSharedSlots(board, order, l, j);
      }
    }
  }

  // ----- where the others go

  lemma {:induction false} StaysPlaced(start: Placing, displaced: seq<int>, k: nat, n: nat)
    requires k < n <= |displaced| && Once(displaced) && forall i :: 0 <= i < |displaced| ==> displaced[i] in start.board
    requires PlaceFirst(start, displaced, n).Ok?
    ensures PlaceFirst(start, displaced, k).Ok? && PlaceFirst(start, displaced, k + 1).Ok?
    ensures PlaceFirst(start, displaced, n).value.board[displaced[k]] == PlaceFirst(start, displaced, k + 1).value.board[displaced[k]]
    decreases n
  {
    if k == n - 1 {
    } else {
      StaysPlaced(start, displaced, k, n - 1);
    }
  }

  /** One more cell is placed by what is occupied before it, and then occupies what its new place takes. */
  lemma PlacedLast(start: Placing, displaced: seq<int>, m: nat)
    requires 0 < m <= |displaced| && (forall i :: 0 <= i < |displaced| ==> displaced[i] in start.board) && PlaceFirst(start, displaced, m).Ok?
    ensures PlaceFirst(start, displaced, m - 1).Ok?
    ensures var before, now, id := PlaceFirst(start, displaced, m - 1).value, PlaceFirst(start, displaced, m).value, displaced[m - 1];
            && now.occupied == before.occupied + Occupied(now.board[id])
            && NewSlot(now.board[id].timeline, before.occupied) == Ok(now.board[id].slot)
  {
  }

  predicate PlacedOver(now: Board, ids: seq<int>, s: Slot) {
    exists k :: 0 <= k < |ids| && ids[k] in now && s in Occupied(now[ids[k]])
  }

  lemma PlacedOverMore(now: Board, ids: seq<int>, m: nat, s: Slot)
    requires 0 < m <= |ids| && ids[m - 1] in now && (PlacedOver(now, ids[..m - 1], s) || s in Occupied(now[ids[m - 1]]))
    ensures PlacedOver(now, ids[..m], s)
  {
    if PlacedOver(now, ids[..m - 1], s) {
      var k :| 0 <= k < m - 1 && ids[..m - 1][k] in now && s in Occupied(now[ids[..m - 1][k]]);
      assert ids[..m][k] == ids[..m - 1][k];
    } else {
      assert ids[..m][m - 1] == ids[m - 1];
    }
  }

  predicate OccupiedBy(start: Placing, ids: seq<int>, before: Placing, now: Board, s: Slot) {
    s in before.occupied ==> s in start.occupied || PlacedOver(now, ids, s)
  }

  lemma OneMoreOccupied(start: Placing, displaced: seq<int>, m: nat, n: nat, s: Slot, p: Placing)
    requires 0 < m <= n <= |displaced| && Once(displaced) && forall i :: 0 <= i < |displaced| ==> displaced[i] in start.board
    requires PlaceFirst(start, displaced, n) == Ok(p) && PlaceFirst(start, displaced, m - 1).Ok?
    requires OccupiedBy(start, displaced[..m - 1], PlaceFirst(start, displaced, m - 1).value, p.board, s)
    ensures PlaceFirst(start, displaced, m).Ok? && OccupiedBy(start, displaced[..m], PlaceFirst(start, displaced, m).value, p.board, s)
  {
    hide PlaceFirst, Occupied, PlacedOver, NewSlot;
    StaysPlaced(start, displaced, m - 1, n);
    PlacedLast(start, displaced, m);
    if PlacedOver(p.board, displaced[..m - 1], s) || s in Occupied(p.board[displaced[m - 1]]) {
      PlacedOverMore(p.board, displaced, m, s);
    }
  }

  /** When the m-th is placed the occupied slots are those of the kept cells and of the ones placed before. */
  lemma {:induction false} OccupiedSoFar(start: Placing, displaced: seq<int>, m: nat, n: nat, s: Slot, p: Placing)
    requires m <= n <= |displaced| && Once(displaced) && forall i :: 0 <= i < |displaced| ==> displaced[i] in start.board
    requires PlaceFirst(start, displaced, n) == Ok(p)
    ensures PlaceFirst(start, displaced, m).Ok? && OccupiedBy(start, displaced[..m], PlaceFirst(start, displaced, m).value, p.board, s)
    decreases m
  {
    if m == 0 {
    } else {
      hide PlaceFirst, OccupiedBy;
      OccupiedSoFar(start, displaced, m - 1, n, s, p);
      OneMoreOccupied(start, displaced, m, n, s, p);
    }
  }

  /** A cell that stayed, or one that goes before i, now holds the slot. */
  predicate HeldFirst(board: Board, now: Board, protected: Option<int>, i: int, s: Slot) {
    exists j :: j in board && j in now && i in board && s in Occupied(now[j]) && (Stays(board, now, j) || GoesFirst(board, protected, j, i))
  }

  lemma EarlierDisplaced(board: Board, order: seq<int>, j: nat, m: nat, k: nat) returns (l: nat)
    requires Covers(board, order) && j < m < |Displaced(board, order, |order|)|
    requires k < |order| && order[k] == Displaced(board, order, |order|)[m]
    ensures l < k && order[l] == Displaced(board, order, |order|)[j]
  {
    l := DisplacedFrom(board, order, |order|, j);
  }

  lemma HeldByPlaced(board: Board, rows: seq<int>, protected: Option<int>, order: seq<int>, k: nat, m: nat, now: Board, s: Slot)
    requires Listed(board, rows) && order == Ranked(board, rows, protected) && Covers(board, order) && now.Keys == board.Keys
    requires k < |order| && m < |Displaced(board, order, |order|)| && order[k] == Displaced(board, order, |order|)[m]
    requires PlacedOver(now, Displaced(board, order, |order|)[..m], s)
    ensures HeldFirst(board, now, protected, order[k], s)
  {
    var ids := Displaced(board, order, |order|)[..m];
    var j :| 0 <= j < |ids| && ids[j] in now && s in Occupied(now[ids[j]]);
    var l := EarlierDisplaced(board, order, j, m, k);
    RankedInOrder(board, rows, protected, l, k);
  }

  lemma HeldByKept(board: Board, order: seq<int>, protected: Option<int>, i: int, now: Board, s: Slot)
    requires Covers(board, order) && Repaired(board, order) == Ok(now) && i in board && s in Taken(board, order, |order|)
    ensures HeldFirst(board, now, protected, i, s)
  {
    TakenByKept(board, order, |order|, s);
    var k :| 0 <= k < |order| && Kept(board, order, k) && s in Occupied(board[order[k]]);
    KeptDoNotMove(board, order, k);
    assert Stays(board, now, order[k]);
  }

  function Start(board: Board, order: seq<int>): Placing
    requires Covers(board, order)
  {
    Placing(board, Taken(board, order, |order|))
  }

  /** When a cell that moved was looked at, and when it was placed. */
  lemma WhenPlaced(board: Board, order: seq<int>, i: int, now: Board) returns (k: nat, m: nat)
    requires Covers(board, order) && i in board && Repaired(board, order) == Ok(now) && !Stays(board, now, i)
    ensures k < |order| && order[k] == i && m < |Displaced(board, order, |order|)| && Displaced(board, order, |order|)[m] == i
    ensures i in now && now[i].timeline == board[i].timeline
  {
    hide PlaceFirst, Occupied;
    k :| 0 <= k < |order| && order[k] == i;
    DisplacedMoves(board, order, k);
    KeptDoNotMove(board, order, k);
    DisplacedIsIn(board, order, |order|, k, i);
    m :| 0 <= m < |Displaced(board, order, |order|)| && Displaced(board, order, |order|)[m] == i;
  }

  lemma HeldSoFar(board: Board, rows: seq<int>, protected: Option<int>, order: seq<int>, k: nat, m: nat, p: Placing, s: Slot)
    requires Listed(board, rows) && order == Ranked(board, rows, protected) && Covers(board, order)
    requires forall j :: 0 <= j < |Displaced(board, order, |order|)| ==> Displaced(board, order, |order|)[j] in board
    requires k < |order| && m < |Displaced(board, order, |order|)| && order[k] == Displaced(board, order, |order|)[m]
    requires var displaced := Displaced(board, order, |order|); PlaceFirst(Start(board, order), displaced, |displaced|) == Ok(p)
    requires Repaired(board, order) == Ok(p.board)
    ensures var before := PlaceFirst(Start(board, order), Displaced(board, order, |order|), m);
            before.Ok? && (s in before.value.occupied ==> HeldFirst(board, p.board, protected, order[k], s))
  {
    hide PlaceFirst, Occupied, PlacedOver, HeldFirst, Repaired, Displaced, Ranked, Taken, Listed;
    var displaced := Displaced(board, order, |order|);
    DisplacedOnce(board, order, |order|);
    OccupiedSoFar(Start(board, order), displaced, m, |displaced|, s, p);
    if s in PlaceFirst(Start(board, order), displaced, m).value.occupied {
      if s in Start(board, order).occupied {
        HeldByKept(board, order, protected, order[k], p.board, s);
      } else {
        HeldByPlaced(board, rows, protected, order, k, m, p.board, s);
      }
    }
  }

  lemma ItsPlace(start: Placing, displaced: seq<int>, m: nat, p: Placing)
    requires m < |displaced| && Once(displaced) && (forall j :: 0 <= j < |displaced| ==> displaced[j] in start.board)
    requires PlaceFirst(start, displaced, |displaced|) == Ok(p)
    ensures displaced[m] in p.board && PlaceFirst(start, displaced, m).Ok?
    ensures var cell := p.board[displaced[m]]; NewSlot(cell.timeline, PlaceFirst(start, displaced, m).value.occupied) == Ok(cell.slot)
  {
    hide PlaceFirst, Occupied, NewSlot;
    StaysPlaced(start, displaced, m, |displaced|);
    PlacedLast(start, displaced, m + 1);
  }

  lemma RepairedBy(board: Board, order: seq<int>, now: Board) returns (p: Placing)
    requires Covers(board, order) && Repaired(board, order) == Ok(now)
    ensures var displaced := Displaced(board, order, |order|);
            && Once(displaced) && (forall j :: 0 <= j < |displaced| ==> displaced[j] in board)
            && PlaceFirst(Start(board, order), displaced, |displaced|) == Ok(p) && p.board == now
  {
    DisplacedOnce(board, order, |order|);
    DisplacedInBoard(board, order, |order|);
    var displaced := Displaced(board, order, |order|);
    p := PlaceFirst(Start(board, order), displaced, |displaced|).value;
  }

  /** What was occupied when a cell was placed was held by cells that stayed or go before it. */
  lemma PlacedByWhatIsHeld(board: Board, rows: seq<int>, protected: Option<int>, i: int, now: Board) returns (occupied: set<Slot>)
    requires Listed(board, rows) && i in board && Covers(board, Ranked(board, rows, protected))
    requires Repaired(board, Ranked(board, rows, protected)) == Ok(now) && !Stays(board, now, i)
    ensures i in now && now[i].timeline == board[i].timeline && NewSlot(now[i].timeline, occupied) == Ok(now[i].slot)
    ensures forall s :: s in occupied ==> HeldFirst(board, now, protected, i, s)
  {
    hide PlaceFirst, Occupied, HeldFirst, Repaired, Displaced, Ranked, Taken, Listed, NewSlot, Stays;
    var order := Ranked(board, rows, protected);
    var displaced := Displaced(board, order, |order|);
    var k, m := WhenPlaced(board, order, i, now);
    var p := RepairedBy(board, order, now);
    ItsPlace(Start(board, order), displaced, m, p);
    occupied := PlaceFirst(Start(board, order), displaced, m).value.occupied;
    forall s | s in occupied
      ensures HeldFirst(board, now, protected, i, s)
    {
      HeldSoFar(board, rows, protected, order, k, m, p, s);
    }
  }

  lemma FirstPlace(timeline: bool, occupied: set<Slot>, at: Slot, s: Slot)
    requires NewSlot(timeline, occupied) == Ok(at)
    ensures InGrid(at) && (timeline ==> at.column == 0)
    ensures !timeline && InGrid(s) && AddressBefore(s, at) ==> s in occupied
    ensures timeline && 0 <= s.row < at.row ==> exists t :: t in occupied && t.row == s.row
  {
    NewSlotIsFree(timeline, occupied);
    if timeline {
      EmptyRowIsFirst(occupied, ROWS);
      if 0 <= s.row < at.row { assert !RowEmpty(occupied, s.row); }
    } else {
      FirstEmptyMeans(occupied, 1, s);
    }
  }

  /**
   A cell that had to move is put at the first place left by the cells that stay and the moved ones
   that go before it: every earlier slot is held by one of these, for a timeline some slot of every
   earlier row.
   */
  lemma MovedToFirstFree(board: Board, rows: seq<int>, protected: Option<int>, i: int, s: Slot)
    requires Listed(board, rows) && i in board
    ensures Covers(board, Ranked(board, rows, protected))
    ensures var r := Repaired(board, Ranked(board, rows, protected));
            r.Ok? && !Stays(board, r.value, i) ==>
              && i in r.value && InGrid(r.value[i].slot) && (board[i].timeline ==> r.value[i].slot.column == 0)
              && (!board[i].timeline && InGrid(s) && AddressBefore(s, r.value[i].slot) ==> HeldFirst(board, r.value, protected, i, s))
              && (board[i].timeline && 0 <= s.row < r.value[i].slot.row ==>
                    exists t: Slot :: t.row == s.row && HeldFirst(board, r.value, protected, i, t))
  {
    RankedCovers(board, rows, protected);
    var r := Repaired(board, Ranked(board, rows, protected));
    if r.Ok? && !Stays(board, r.value, i) {
      var occupied := PlacedByWhatIsHeld(board, rows, protected, i, r.value);
      FirstPlace(board[i].timeline, occupied, r.value[i].slot, s);
    }
  }

  // ----- a requested place

  /** On the grid a place is taken when another cell has the slot, or a row that one of the two takes whole. */
  lemma PlaceTakenMeans(board: Board, id: int, cell: Cell)
    requires InGrid(cell.slot) && forall other :: other in board ==> InGrid(board[other].slot)
    ensures PlaceTaken(board, id, cell) <==>
              exists other :: other in board && other != id &&
                (board[other].slot == cell.slot || ((board[other].timeline || cell.timeline) && board[other].slot.row == cell.slot.row))
  {
    forall other | other in board
      ensures Occupied(board[other]) !! Occupied(cell) <==>
                board[other].slot != cell.slot && (board[other].timeline || cell.timeline ==> board[other].slot.row != cell.slot.row)
    {
      ApartMeans(board[other], cell);
    }
  }
}
