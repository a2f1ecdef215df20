/**
 When generated slice ids are new (src/edits.ts). A slice's id is derived from the id of the
 clip it was cut from, so a family of slices goes back to one root. If the ids an intent brings
 along have roots of their own, no slice id is ever in use: whole batches then keep the
 timeline good without any further condition.
 */
module EditIds {
  import opened Wrappers
  import opened Slices
  import opened Timelines
  import opened Edits
  import opened RangeRemoval
  import opened EditSafety

  predicate IsSlice(id: Id) {
    id.Derived? && (id.seed == LeftOf || id.seed == RightOf)
  }

  /** The id a family of slices goes back to. */
  function Root(id: Id): Id {
    if IsSlice(id) then Root(id.from) else id
  }

  /** d is a, or was cut from it. */
  predicate CutFrom(a: Id, d: Id)
    decreases d
  {
    a == d || (IsSlice(d) && CutFrom(a, d.from))
  }

  lemma {:induction false} CutFromKeepsRoot(a: Id, d: Id)
    requires CutFrom(a, d)
    ensures Root(a) == Root(d)
    decreases d
  {
    if a == d {
    } else {
      CutFromKeepsRoot(a, d.from);
    }
  }

  function Depth(id: Id): nat {
    if IsSlice(id) then 1 + Depth(id.from) else 0
  }

  lemma {:induction false} DepthGrows(a: Id, d: Id)
    requires CutFrom(a, d)
    ensures Depth(a) <= Depth(d)
    decreases d
  {
    if a == d {
    } else {
      DepthGrows(a, d.from);
    }
  }

  lemma SliceIsDeeper(id: Id, side: Label)
    requires side == LeftOf || side == RightOf
    ensures CutFrom(id, Derived(id, side)) && id != Derived(id, side) && Depth(Derived(id, side)) == 1 + Depth(id)
  {
    assert IsSlice(Derived(id, side)) && Derived(id, side).from == id;
    assert CutFrom(id, id);
  }

  /** What is cut from a slice is cut from what the slice was cut from. */
  lemma {:induction false} SliceOfLater(a: Id, d: Id)
    requires IsSlice(a) && CutFrom(a, d)
    ensures CutFrom(a.from, d) && a.from != d
    decreases d
  {
    SliceIsDeeper(a.from, a.seed);
    DepthGrows(a, d);
    if a == d {
    } else {
      SliceOfLater(a, d.from);
    }
  }

  /** No clip's id was cut from another clip's id. */
  predicate Unrelated(clips: seq<Clip>) {
    forall p, q :: p in clips && q in clips && p.id != q.id ==> !CutFrom(p.id, q.id)
  }

  predicate RootsIn(clips: seq<Clip>, roots: set<Id>) {
    forall p :: p in clips ==> Root(p.id) in roots
  }

  lemma NoSliceYet(clips: seq<Clip>, c: Clip, side: Label)
    requires Unrelated(clips) && c in clips && (side == LeftOf || side == RightOf)
    ensures !HasId(clips, Derived(c.id, side))
  {
    SliceIsDeeper(c.id, side);
    HasIdIsMember(clips, Derived(c.id, side));
  }

  lemma UnrelatedIsFresh(clips: seq<Clip>, track: string, start: int, end: int)
    requires Unrelated(clips)
    ensures FreshSlices(clips, track, start, end)
  {
    forall i | 0 <= i < |clips|
      ensures !HasId(clips, Derived(clips[i].id, LeftOf)) && !HasId(clips, Derived(clips[i].id, RightOf))
    {
      NoSliceYet(clips, clips[i], LeftOf);
      NoSliceYet(clips, clips[i], RightOf);
    }
  }

  // ----- removing a range

  /** The pieces of unrelated ids are unrelated. */
  lemma PiecesUnrelated(a: Id, b: Id, p: Id, q: Id)
    requires p == a || (IsSlice(p) && p.from == a)
    requires q == b || (IsSlice(q) && q.from == b)
    requires a != b ==> !CutFrom(a, b)
    requires a == b ==> (p == a <==> q == b)
    requires p != q
    ensures !CutFrom(p, q)
  {
    if CutFrom(p, q) {
      if p != a { SliceOfLater(p, q); }
      if a == b {
        DepthGrows(p, if p == q then q else q.from);
      }
    }
  }

  lemma BecomesIds(c: Clip, track: string, start: int, end: int, ripple: bool, p: Clip)
    requires start < end && p in Becomes(c, track, start, end, ripple)
    ensures if Touched(c, track, start, end) then IsSlice(p.id) && p.id.from == c.id else p.id == c.id
  {
  }

  lemma RemovalUnrelated(t: Timeline, track: string, start: int, end: int, ripple: bool, roots: set<Id>)
    requires start < end && DistinctIds(t.clips) && Unrelated(t.clips) && RootsIn(t.clips, roots)
    ensures var u := RemoveFromTrack(t, track, start, end, ripple);
            Unrelated(u.clips) && RootsIn(u.clips, roots)
  {
    UnrelatedIsFresh(t.clips, track, start, end);
    var u := RemoveFromTrack(t, track, start, end, ripple);
    forall p | p in u.clips
      ensures exists c :: c in t.clips && p in Becomes(c, track, start, end, ripple)
      ensures Root(p.id) in roots
    {
      AfterRemoval(t, track, start, end, ripple, p);
      var c :| c in t.clips && p in Becomes(c, track, start, end, ripple);
      BecomesIds(c, track, start, end, ripple, p);
    }
    forall p, q | p in u.clips && q in u.clips && p.id != q.id
      ensures !CutFrom(p.id, q.id)
    {
      var c :| c in t.clips && p in Becomes(c, track, start, end, ripple);
      var d :| d in t.clips && q in Becomes(d, track, start, end, ripple);
      BecomesIds(c, track, start, end, ripple, p);
      BecomesIds(d, track, start, end, ripple, q);
      if c.id == d.id { SameIdSameClip(t.clips, c, d); }
      PiecesUnrelated(c.id, d.id, p.id, q.id);
    }
  }

  lemma {:induction false} RemovalsUnrelated(t: Timeline, tracks: seq<string>, start: int, end: int, ripple: bool, roots: set<Id>)
    requires 0 <= start < end && Good(t) && Unrelated(t.clips) && RootsIn(t.clips, roots)
    ensures FreshTracks(t, tracks, start, end, ripple)
    ensures RemoveFromTracks(t, tracks, start, end, ripple).Ok? ==>
              var u := RemoveFromTracks(t, tracks, start, end, ripple).value;
              Unrelated(u.clips) && RootsIn(u.clips, roots)
    decreases |tracks|
  {
    if tracks == [] {
    } else {
      var n := |tracks| - 1;
      RemovalsUnrelated(t, tracks[..n], start, end, ripple, roots);
      var before := RemoveFromTracks(t, tracks[..n], start, end, ripple);
      if before.Ok? {
        RemoveFromTracksGood(t, tracks[..n], start, end, ripple);
        UnrelatedIsFresh(before.value.clips, tracks[n], start, end);
        RemovalUnrelated(before.value, tracks[n], start, end, ripple, roots);
      }
    }
  }

  lemma RangeIsFresh(t: Timeline, tracks: seq<string>, r: SequenceRange, ripple: bool, roots: set<Id>)
    requires Good(t) && Unrelated(t.clips) && RootsIn(t.clips, roots)
    ensures FreshRange(t, tracks, r, ripple)
  {
    if RangeFault(t, r).None? { RemovalsUnrelated(t, Unique(tracks), r.start, r.start + r.frames, ripple, roots); }
  }

  lemma RangeUnrelated(t: Timeline, tracks: seq<string>, r: SequenceRange, ripple: bool, roots: set<Id>)
    requires Good(t) && Unrelated(t.clips) && RootsIn(t.clips, roots) && ApplyRemoveRange(t, tracks, r, ripple).Ok?
    ensures Unrelated(ApplyRemoveRange(t, tracks, r, ripple).value.clips)
    ensures RootsIn(ApplyRemoveRange(t, tracks, r, ripple).value.clips, roots)
  {
    hide Unrelated, RootsIn, Good;
    RemovalsUnrelated(t, Unique(tracks), r.start, r.start + r.frames, ripple, roots);
  }

  lemma RemoveRangeUnrelated(t: Timeline, tracks: seq<string>, r: SequenceRange, ripple: bool, roots: set<Id>)
    requires Good(t) && Unrelated(t.clips) && RootsIn(t.clips, roots)
    ensures FreshRange(t, tracks, r, ripple)
    ensures ApplyRemoveRange(t, tracks, r, ripple).Ok? ==>
              var u := ApplyRemoveRange(t, tracks, r, ripple).value;
              Unrelated(u.clips) && RootsIn(u.clips, roots)
  {
    hide *;
    RangeIsFresh(t, tracks, r, ripple, roots);
    if ApplyRemoveRange(t, tracks, r, ripple).Ok? { RangeUnrelated(t, tracks, r, ripple, roots); }
  }

  // ----- operations that bring ids along

  /** Every clip has an id from before, or one of the new ones. */
  predicate IdsWithin(after: seq<Clip>, before: seq<Clip>, supplied: seq<Id>) {
    forall p :: p in after ==> HasId(before, p.id) || p.id in supplied
  }

  /** The new ids have roots of their own. */
  predicate OwnRoots(roots: set<Id>, supplied: seq<Id>) {
    && (forall i :: 0 <= i < |supplied| ==> Root(supplied[i]) !in roots)
    && (forall i, j :: 0 <= i < j < |supplied| ==> Root(supplied[i]) != Root(supplied[j]))
  }

  function RootsOf(ids: seq<Id>): set<Id> {
    set i | 0 <= i < |ids| :: Root(ids[i])
  }

  /** Different ids with one root are both old. */
  lemma SameRootBefore(before: seq<Clip>, supplied: seq<Id>, roots: set<Id>, p: Id, q: Id)
    requires RootsIn(before, roots) && OwnRoots(roots, supplied) && p != q && Root(p) == Root(q)
    requires (HasId(before, p) || p in supplied) && (HasId(before, q) || q in supplied)
    ensures HasId(before, p) && HasId(before, q)
  {
    HasIdIsMember(before, p);
    HasIdIsMember(before, q);
  }

  lemma WithinIsUnrelated(after: seq<Clip>, before: seq<Clip>, supplied: seq<Id>, roots: set<Id>)
    requires Unrelated(before) && RootsIn(before, roots) && OwnRoots(roots, supplied) && IdsWithin(after, before, supplied)
    ensures Unrelated(after) && RootsIn(after, roots + RootsOf(supplied))
  {
    forall p | p in after
      ensures Root(p.id) in roots + RootsOf(supplied)
    {
      HasIdIsMember(before, p.id);
    }
    forall p, q | p in after && q in after && p.id != q.id
      ensures !CutFrom(p.id, q.id)
    {
      HasIdIsMember(before, p.id);
      HasIdIsMember(before, q.id);
      if CutFrom(p.id, q.id) {
        CutFromKeepsRoot(p.id, q.id);
        SameRootBefore(before, supplied, roots, p.id, q.id);
      }
    }
  }

  lemma InsertWithin(library: Library, t: Timeline, id: Id, p: Placement, mode: Mode)
    requires Good(t) && ApplyInsert(library, t, id, p, mode).Ok?
    ensures IdsWithin(ApplyInsert(library, t, id, p, mode).value.clips, t.clips, [id])
  {
    var u := ApplyInsert(library, t, id, p, mode).value;
    var overlaps := Overlapping(t.clips, p.track, p.start, p.start + p.frames);
    forall c | c in u.clips
      ensures HasId(t.clips, c.id) || c.id in [id]
    {
      HasIdIsMember(t.clips, c.id);
      if mode.Overwrite? {
        RemoveClipsGood(t, overlaps);
      } else {
        Shifted(t.clips, p.track, p.start, p.frames, c);
      }
    }
  }

  lemma RemoveOneWithin(t: Timeline, id: Id, ripple: bool)
    requires ApplyRemoveOne(t, id, ripple).Ok?
    ensures IdsWithin(ApplyRemoveOne(t, id, ripple).value.clips, t.clips, [])
  {
    var c := t.clips[IndexOf(t.clips, id).value];
    var rest := WithoutClip(t.clips, id);
    WithoutMembers(t.clips, id);
    forall p | p in ApplyRemoveOne(t, id, ripple).value.clips
      ensures HasId(t.clips, p.id)
    {
      HasIdIsMember(t.clips, p.id);
      if ripple { Shifted(rest, c.track, EndOf(c), c.start - EndOf(c), p); }
    }
  }

  lemma PutWithin(t: Timeline, i: nat, c: Clip)
    requires i < |t.clips| && c.id == t.clips[i].id
    ensures IdsWithin(PutClip(t, i, c).clips, t.clips, [])
  {
    forall p | p in PutClip(t, i, c).clips
      ensures HasId(t.clips, p.id)
    {
      HasIdIsMember(t.clips, p.id);
    }
  }

  function PlacedIds(opId: Id, n: nat): seq<Id> {
    if n == 0 then [] else PlacedIds(opId, n - 1) + [Derived(opId, Placed(n - 1))]
  }

  /** The ids an operation brings along, given or generated for it. */
  function Supplied(op: Operation, opId: Id): seq<Id> {
    match op
    case InsertClip(clip, _, _) => [IdOr(clip, opId, Inserted)]
    case RestoreClip(_, from, _) => [Derived(opId, Restored(from))]
    case SplitClip(_, _, left, right) => [IdOr(left, opId, Label.LeftHalf), IdOr(right, opId, Label.RightHalf)]
    case BatchReplace(_, _, placements, _) => PlacedIds(opId, |placements|)
    case _ => []
  }

  lemma SplitWithin(t: Timeline, op: Operation, opId: Id)
    requires op.SplitClip? && ApplySplit(t, op, opId).Ok?
    ensures IdsWithin(ApplySplit(t, op, opId).value.timeline.clips, t.clips, Supplied(op, opId))
  {
    var c := t.clips[IndexOf(t.clips, op.split).value];
    WithoutMembers(t.clips, c.id);
    forall p | p in ApplySplit(t, op, opId).value.timeline.clips
      ensures HasId(t.clips, p.id) || p.id in Supplied(op, opId)
    {
      HasIdIsMember(t.clips, p.id);
    }
  }

  lemma OwnRootsSplit(roots: set<Id>, ids: seq<Id>, id: Id)
    requires OwnRoots(roots, ids + [id])
    ensures OwnRoots(roots, ids) && OwnRoots(roots + RootsOf(ids), [id])
    ensures RootsOf(ids + [id]) == RootsOf(ids) + RootsOf([id])
  {
    var all := ids + [id];
    assert forall i :: 0 <= i < |ids| ==> all[i] == ids[i];
    assert all[|ids|] == id;
    assert RootsOf([id]) == {Root(id)};
    forall r
      ensures r in RootsOf(all) <==> r in RootsOf(ids) || r == Root(id)
    {
      if r in RootsOf(ids) {
        var i :| 0 <= i < |ids| && r == Root(ids[i]);
        assert r == Root(all[i]);
      }
    }
  }

  lemma {:induction false} InsertAllUnrelated(library: Library, t: Timeline, placements: seq<Placement>, opId: Id, roots: set<Id>)
    requires Good(t) && Unrelated(t.clips) && RootsIn(t.clips, roots) && OwnRoots(roots, PlacedIds(opId, |placements|))
    requires InsertAll(library, t, placements, opId).Ok?
    ensures var u := InsertAll(library, t, placements, opId).value;
            Unrelated(u.clips) && RootsIn(u.clips, roots + RootsOf(PlacedIds(opId, |placements|)))
    decreases |placements|
  {
    if placements == [] {
      assert RootsOf(PlacedIds(opId, 0)) == {};
    } else {
      var n := |placements| - 1;
      var ids := PlacedIds(opId, n);
      OwnRootsSplit(roots, ids, Derived(opId, Placed(n)));
      InsertAllUnrelated(library, t, placements[..n], opId, roots);
      InsertAllGood(library, t, placements[..n], opId);
      var before := InsertAll(library, t, placements[..n], opId).value;
      InsertWithin(library, before, Derived(opId, Placed(n)), placements[n], Overwrite);
      var u := InsertAll(library, t, placements, opId).value;
      WithinIsUnrelated(u.clips, before.clips, [Derived(opId, Placed(n))], roots + RootsOf(ids));
    }
  }

  // ----- steps and batches

  lemma PutBack(t: Timeline, i: nat, u: Timeline)
    requires i < |t.clips| && i < |u.clips| && u == PutClip(t, i, u.clips[i]) && u.clips[i].id == t.clips[i].id
    ensures IdsWithin(u.clips, t.clips, [])
  {
    PutWithin(t, i, u.clips[i]);
  }

  lemma SettingWithin(library: Library, t: Timeline, op: Operation, opId: Id)
    requires Apply(library, t, op, opId).Ok?
    requires op.MoveClip? || op.TrimClip? || op.SetTransform? || op.SetAudio? || op.SetSpeed?
    ensures IdsWithin(Apply(library, t, op, opId).value.timeline.clips, t.clips, [])
  {
    var u := Apply(library, t, op, opId).value.timeline;
    match op
    case MoveClip(id, _, _) => PutBack(t, IndexOf(t.clips, id).value, u);
    case TrimClip(id, _, _, _) => PutBack(t, IndexOf(t.clips, id).value, u);
    case SetTransform(id, _) => PutBack(t, IndexOf(t.clips, id).value, u);
    case SetAudio(id, _) => PutBack(t, IndexOf(t.clips, id).value, u);
    case SetSpeed(id, _, _, _) => PutBack(t, IndexOf(t.clips, id).value, u);
  }

  lemma SameWithin(clips: seq<Clip>)
    ensures IdsWithin(clips, clips, [])
  {
    forall p | p in clips
      ensures HasId(clips, p.id)
    {
      HasIdIsMember(clips, p.id);
    }
  }

  lemma OtherWithin(library: Library, t: Timeline, op: Operation, opId: Id)
    requires Good(t) && !op.RemoveRange? && !op.BatchReplace? && Apply(library, t, op, opId).Ok?
    ensures IdsWithin(Apply(library, t, op, opId).value.timeline.clips, t.clips, Supplied(op, opId))
  {
    match op
    case InsertClip(clip, placement, mode) => InsertWithin(library, t, IdOr(clip, opId, Inserted), placement, mode);
    case RestoreClip(action, from, placement) => InsertWithin(library, t, Derived(opId, Restored(from)), placement, Overwrite);
    case RemoveOne(id, ripple) => RemoveOneWithin(t, id, ripple);
    case SplitClip(_, _, _, _) => SplitWithin(t, op, opId);
    case SetTransition(_, _, _) => SameWithin(t.clips);
    case UpsertCaption(_) => SameWithin(t.clips);
    case _ => SettingWithin(library, t, op, opId);
  }

  /** An operation whose ids have roots of their own makes fresh slices, and the same can be said after it. */
  lemma StepUnrelated(library: Library, t: Timeline, op: Operation, opId: Id, roots: set<Id>)
    requires Good(t) && Unrelated(t.clips) && RootsIn(t.clips, roots) && OwnRoots(roots, Supplied(op, opId))
    ensures FreshFor(t, op)
    ensures Apply(library, t, op, opId).Ok? ==>
              var u := Apply(library, t, op, opId).value.timeline;
              Unrelated(u.clips) && RootsIn(u.clips, roots + RootsOf(Supplied(op, opId)))
  {
    match op
    case RemoveRange(tracks, range, ripple) => RemoveRangeUnrelated(t, tracks, range, ripple, roots);
    case BatchReplace(tracks, range, placements, ripple) =>
      RemoveRangeUnrelated(t, tracks, range, ripple, roots);
      if Apply(library, t, op, opId).Ok? {
        ApplyRemoveRangeGood(t, tracks, range, ripple);
        InsertAllUnrelated(library, ApplyRemoveRange(t, tracks, range, ripple).value, placements, opId, roots);
      }
    case _ =>
      if Apply(library, t, op, opId).Ok? {
        OtherWithin(library, t, op, opId);
        WithinIsUnrelated(Apply(library, t, op, opId).value.timeline.clips, t.clips, Supplied(op, opId), roots);
      }
  }

  function AllSupplied(steps: seq<Step>): seq<Id> {
    if steps == [] then []
    else AllSupplied(steps[..|steps| - 1]) + Supplied(steps[|steps| - 1].operation, steps[|steps| - 1].opId)
  }

  function ClipRoots(clips: seq<Clip>): set<Id> {
    set i | 0 <= i < |clips| :: Root(clips[i].id)
  }

  /** Said of the intent alone: the ids it brings along have roots of their own, and so have the clips it starts from. */
  predicate NewIds(t: Timeline, steps: seq<Step>) {
    Unrelated(t.clips) && OwnRoots(ClipRoots(t.clips), AllSupplied(steps))
  }

  lemma OwnRootsJoin(roots: set<Id>, xs: seq<Id>, ys: seq<Id>)
    requires OwnRoots(roots, xs + ys)
    ensures OwnRoots(roots, xs) && OwnRoots(roots + RootsOf(xs), ys)
    ensures RootsOf(xs + ys) == RootsOf(xs) + RootsOf(ys)
  {
    var all := xs + ys;
    assert forall i :: 0 <= i < |xs| ==> all[i] == xs[i];
    assert forall j :: 0 <= j < |ys| ==> all[|xs| + j] == ys[j];
    forall r
      ensures r in RootsOf(all) <==> r in RootsOf(xs) || r in RootsOf(ys)
    {
      if r in RootsOf(xs) {
        var i :| 0 <= i < |xs| && r == Root(xs[i]);
        assert r == Root(all[i]);
      }
      if r in RootsOf(ys) {
        var j :| 0 <= j < |ys| && r == Root(ys[j]);
        assert r == Root(all[|xs| + j]);
      }
    }
  }

  lemma {:induction false} RunUnrelated(library: Library, t: Timeline, steps: seq<Step>, roots: set<Id>)
    requires Good(t) && Unrelated(t.clips) && RootsIn(t.clips, roots) && OwnRoots(roots, AllSupplied(steps))
    ensures FreshRun(library, t, steps)
    ensures Run(library, t, steps).Ok? ==>
              var u := Run(library, t, steps).value.timeline;
              Unrelated(u.clips) && RootsIn(u.clips, roots + RootsOf(AllSupplied(steps)))
    decreases |steps|
  {
    if steps == [] {
      assert RootsOf(AllSupplied(steps)) == {};
    } else {
      var n := |steps| - 1;
      var earlier, last := AllSupplied(steps[..n]), Supplied(steps[n].operation, steps[n].opId);
      OwnRootsJoin(roots, earlier, last);
      RunUnrelated(library, t, steps[..n], roots);
      var before := Run(library, t, steps[..n]);
      if before.Ok? {
        RunGood(library, t, steps[..n]);
        StepUnrelated(library, before.value.timeline, steps[n].operation, steps[n].opId, roots + RootsOf(earlier));
      }
    }
  }

  /** A batch that brings new ids keeps the timeline good, and what it leaves passes the id and overlap checks. */
  lemma BatchKeepsGood(library: Library, t: Timeline, steps: seq<Step>)
    requires Good(t) && NewIds(t, steps)
    ensures FreshRun(library, t, steps)
    ensures Run(library, t, steps).Ok? ==> Good(Run(library, t, steps).value.timeline)
  {
    RunUnrelated(library, t, steps, ClipRoots(t.clips));
    if Run(library, t, steps).Ok? { RunGood(library, t, steps); }
  }
}
