/**
 What is checked when it is set, and not again (src/edits.ts): that the fades of a clip fit the
 clip, and that the clips a transition joins meet and are long enough for it. Here is, for every
 operation, exactly when it keeps that so. Of all this the final check only looks at the tracks
 of joined clips.
 */
module EditKeeps {
  import opened Wrappers
  import opened Collections
  import opened Slices
  import opened Timelines
  import opened Edits
  import opened RangeRemoval
  import opened EditSafety
  import opened EditMeaning

  // ----- fades

  predicate AllFadesFit(t: Timeline) {
    forall c :: c in t.clips ==> FadesFit(c)
  }

  /** The fades of a clip would fit n frames. */
  predicate FadesWithin(c: Clip, n: int) {
    c.audio.Some? ==> c.audio.value.fadeIn + c.audio.value.fadeOut <= n
  }

  predicate FadesFitPieces(c: Clip, start: int, end: int) {
    && (c.start < start ==> FadesWithin(c, start - c.start))
    && (EndOf(c) > end ==> FadesWithin(c, EndOf(c) - end))
  }

  predicate PiecesFit(clips: seq<Clip>, tracks: seq<string>, start: int, end: int) {
    forall c :: c in clips && c.track in tracks && Meets(c, start, end) ==> FadesFitPieces(c, start, end)
  }

  lemma PiecesFitIff(c: Clip, tracks: seq<string>, start: int, end: int, ripple: bool)
    requires start < end && FadesFit(c)
    ensures (forall p :: p in BecomesOn(c, tracks, start, end, ripple) ==> FadesFit(p)) <==>
              (c.track in tracks && Meets(c, start, end) ==> FadesFitPieces(c, start, end))
  {
    var b := BecomesOn(c, tracks, start, end, ripple);
    assert c.track in tracks && Meets(c, start, end) && c.start < start ==> b[0] in b;
    assert c.track in tracks && Meets(c, start, end) && EndOf(c) > end ==> b[|b| - 1] in b;
  }

  lemma InsertKeepsFades(library: Library, t: Timeline, id: Id, p: Placement, mode: Mode)
    requires Good(t) && AllFadesFit(t) && ApplyInsert(library, t, id, p, mode).Ok?
    ensures AllFadesFit(ApplyInsert(library, t, id, p, mode).value) <==> FadesFit(ClipFromPlacement(id, p))
  {
    var u, c := ApplyInsert(library, t, id, p, mode).value, ClipFromPlacement(id, p);
    assert c in u.clips;
    forall q | q in u.clips && q != c
      ensures FadesFit(q)
    {
      if mode.Overwrite? { OverwriteMeans(library, t, id, p, q); } else { InsertMeans(library, t, id, p, q); }
    }
  }

  lemma RemoveOneKeepsFades(t: Timeline, id: Id, ripple: bool)
    requires AllFadesFit(t) && ApplyRemoveOne(t, id, ripple).Ok?
    ensures AllFadesFit(ApplyRemoveOne(t, id, ripple).value)
  {
    forall q | q in ApplyRemoveOne(t, id, ripple).value.clips
      ensures FadesFit(q)
    {
      RemoveOneMeans(t, id, ripple, q);
    }
  }

  lemma PutKeepsFades(t: Timeline, i: nat, c: Clip)
    requires AllFadesFit(t) && i < |t.clips|
    ensures AllFadesFit(PutClip(t, i, c)) <==> FadesFit(c)
  {
    var u := PutClip(t, i, c);
    assert u.clips[i] in u.clips;
    forall q | q in u.clips
      ensures q == c || q in t.clips
    {
    }
  }

  lemma SplitKeepsFades(t: Timeline, op: Operation, opId: Id)
    requires op.SplitClip? && AllFadesFit(t) && ApplySplit(t, op, opId).Ok?
    ensures var c := t.clips[IndexOf(t.clips, op.split).value];
            AllFadesFit(ApplySplit(t, op, opId).value.timeline) ==
              (FadesWithin(c, op.at - c.start) && FadesWithin(c, EndOf(c) - op.at))
  {
    var c, u := t.clips[IndexOf(t.clips, op.split).value], ApplySplit(t, op, opId).value.timeline;
    SplitMeans(t, op, opId, c);
    var left, right := u.clips[|u.clips| - 2], u.clips[|u.clips| - 1];
    assert left in u.clips && right in u.clips;
    forall q | q in u.clips && q != left && q != right
      ensures FadesFit(q)
    {
      SplitMeans(t, op, opId, q);
    }
  }

  // ----- the clips a batch leaves

  /** The placement takes frames the clip is on. */
  predicate CoveredBy(c: Clip, p: Placement) {
    p.track == c.track && Meets(c, p.start, p.start + p.frames)
  }

  /** A placement from number k on covers the clip. */
  predicate Overwritten(c: Clip, placements: seq<Placement>, k: nat) {
    exists j :: k <= j < |placements| && CoveredBy(c, placements[j])
  }

  predicate PlacedAt(c: Clip, placements: seq<Placement>, opId: Id, k: nat) {
    k < |placements| && placements[k].frames >= 1 && c == ClipFromPlacement(Derived(opId, Placed(k)), placements[k])
  }

  lemma OverwrittenLast(c: Clip, placements: seq<Placement>, k: nat)
    requires k < |placements|
    ensures var n := |placements| - 1;
            Overwritten(c, placements, k) <==> Overwritten(c, placements[..n], k) || CoveredBy(c, placements[n])
  {
    var n := |placements| - 1;
    assert forall j :: 0 <= j < n ==> placements[..n][j] == placements[j];
  }

  /** Some placement left the clip, and no later one covers it. */
  predicate LastPlaced(placements: seq<Placement>, opId: Id, c: Clip) {
    exists k :: 0 <= k < |placements| && PlacedAt(c, placements, opId, k) && !Overwritten(c, placements, k + 1)
  }

  lemma LastPlacedLast(placements: seq<Placement>, opId: Id, c: Clip)
    requires placements != []
    ensures var n := |placements| - 1;
            LastPlaced(placements, opId, c) <==>
              PlacedAt(c, placements, opId, n) || (LastPlaced(placements[..n], opId, c) && !CoveredBy(c, placements[n]))
  {
    var n := |placements| - 1;
    forall k | 0 <= k < n
      ensures PlacedAt(c, placements, opId, k) <==> PlacedAt(c, placements[..n], opId, k)
      ensures Overwritten(c, placements, k + 1) <==> Overwritten(c, placements[..n], k + 1) || CoveredBy(c, placements[n])
    {
      OverwrittenLast(c, placements, k + 1);
    }
    assert !Overwritten(c, placements, n + 1);
  }

  /** In the timeline before the placements and not covered by them, or placed and not covered later. */
  predicate OnTop(clips: seq<Clip>, placements: seq<Placement>, opId: Id, p: Clip) {
    (p in clips && !Overwritten(p, placements, 0)) || LastPlaced(placements, opId, p)
  }

  /** What the placements of a batch leave: clips none of them covers, and each placed clip no later one covers. */
  lemma {:induction false} AfterPlacements(library: Library, t: Timeline, placements: seq<Placement>, opId: Id, c: Clip)
    requires Good(t) && InsertAll(library, t, placements, opId).Ok?
    ensures (c in InsertAll(library, t, placements, opId).value.clips) == OnTop(t.clips, placements, opId, c)
    decreases |placements|
  {
    if placements == [] {
    } else {
      var n := |placements| - 1;
      var before := InsertAll(library, t, placements[..n], opId).value;
      AfterPlacements(library, t, placements[..n], opId, c);
      InsertAllGood(library, t, placements[..n], opId);
      OverwriteMeans(library, before, Derived(opId, Placed(n)), placements[n], c);
      OverwrittenLast(c, placements, 0);
      LastPlacedLast(placements, opId, c);
    }
  }

  /** Every clip after a removal is what becomes of one before it. */
  lemma ComesFrom(t: Timeline, tracks: seq<string>, r: SequenceRange, ripple: bool, u: Timeline, p: Clip) returns (c: Clip)
    requires DistinctIds(t.clips) && FreshRange(t, tracks, r, ripple) && ApplyRemoveRange(t, tracks, r, ripple) == Ok(u)
    requires p in u.clips
    ensures r.frames >= 1 && c in t.clips && p in BecomesOn(c, tracks, r.start, r.start + r.frames, ripple)
  {
    RangeIsTracks(t, tracks, r, ripple, u);
    UniqueHasEach(tracks);
    AfterRemovals(t, Unique(tracks), r.start, r.start + r.frames, ripple, p);
    c :| c in t.clips && p in BecomesOn(c, Unique(tracks), r.start, r.start + r.frames, ripple);
  }

  /** And everything that becomes of a clip is there. */
  lemma StillLeft(t: Timeline, tracks: seq<string>, r: SequenceRange, ripple: bool, u: Timeline, c: Clip, p: Clip)
    requires DistinctIds(t.clips) && FreshRange(t, tracks, r, ripple) && ApplyRemoveRange(t, tracks, r, ripple) == Ok(u)
    requires r.frames >= 1 && c in t.clips && p in BecomesOn(c, tracks, r.start, r.start + r.frames, ripple)
    ensures p in u.clips
  {
    hide FreshTracks, RemoveFromTracks;
    RangeIsTracks(t, tracks, r, ripple, u);
    UniqueHasEach(tracks);
    assert p in BecomesOn(c, Unique(tracks), r.start, r.start + r.frames, ripple);
    AfterRemovals(t, Unique(tracks), r.start, r.start + r.frames, ripple, p);
  }

  lemma PieceFits(c: Clip, tracks: seq<string>, start: int, end: int, ripple: bool, p: Clip)
    requires start < end && FadesFit(c) && p in BecomesOn(c, tracks, start, end, ripple)
    requires c.track in tracks && Meets(c, start, end) ==> FadesFitPieces(c, start, end)
    ensures FadesFit(p)
  {
  }

  lemma CutClipFits(t: Timeline, tracks: seq<string>, r: SequenceRange, ripple: bool, u: Timeline, c: Clip)
    requires DistinctIds(t.clips) && AllFadesFit(t) && FreshRange(t, tracks, r, ripple) && ApplyRemoveRange(t, tracks, r, ripple) == Ok(u)
    requires AllFadesFit(u) && c in t.clips && c.track in tracks && Meets(c, r.start, r.start + r.frames)
    ensures FadesFitPieces(c, r.start, r.start + r.frames)
  {
    RangeIsTracks(t, tracks, r, ripple, u);
    forall p | p in BecomesOn(c, tracks, r.start, r.start + r.frames, ripple)
      ensures FadesFit(p)
    {
      StillLeft(t, tracks, r, ripple, u, c, p);
    }
    PiecesFitIff(c, tracks, r.start, r.start + r.frames, ripple);
  }

  /** A removal keeps fades fitting exactly when they fit the pieces of the clips it cuts. */
  lemma RemovalKeepsFades(t: Timeline, tracks: seq<string>, r: SequenceRange, ripple: bool, u: Timeline)
    requires DistinctIds(t.clips) && AllFadesFit(t) && FreshRange(t, tracks, r, ripple) && ApplyRemoveRange(t, tracks, r, ripple) == Ok(u)
    ensures AllFadesFit(u) == PiecesFit(t.clips, tracks, r.start, r.start + r.frames)
  {
    if AllFadesFit(u) {
      forall c | c in t.clips && c.track in tracks && Meets(c, r.start, r.start + r.frames)
        ensures FadesFitPieces(c, r.start, r.start + r.frames)
      {
        CutClipFits(t, tracks, r, ripple, u, c);
      }
    }
    if PiecesFit(t.clips, tracks, r.start, r.start + r.frames) {
      forall p | p in u.clips
        ensures FadesFit(p)
      {
        var c := ComesFrom(t, tracks, r, ripple, u, p);
        PieceFits(c, tracks, r.start, r.start + r.frames, ripple, p);
      }
    }
  }

  predicate PlacementFits(placements: seq<Placement>, opId: Id, k: nat)
    requires k < |placements| && placements[k].frames >= 1
  {
    var c := ClipFromPlacement(Derived(opId, Placed(k)), placements[k]);
    Overwritten(c, placements, k + 1) || FadesFit(c)
  }

  /** Fades fit every piece of the clip that no placement covers. */
  predicate UncoveredFit(c: Clip, tracks: seq<string>, start: int, end: int, ripple: bool, placements: seq<Placement>)
    requires start < end
  {
    forall p :: p in BecomesOn(c, tracks, start, end, ripple) ==> Overwritten(p, placements, 0) || FadesFit(p)
  }

  predicate AllUncoveredFit(clips: seq<Clip>, tracks: seq<string>, start: int, end: int, ripple: bool, placements: seq<Placement>)
    requires start < end
  {
    forall c :: c in clips ==> UncoveredFit(c, tracks, start, end, ripple, placements)
  }

  predicate AllPlacementsFit(placements: seq<Placement>, opId: Id) {
    forall k :: 0 <= k < |placements| && placements[k].frames >= 1 ==> PlacementFits(placements, opId, k)
  }

  /** Fades fit every piece no placement covers, and every placement no later one covers. */
  predicate BatchFits(clips: seq<Clip>, tracks: seq<string>, r: SequenceRange, placements: seq<Placement>, ripple: bool, opId: Id)
    requires r.frames >= 1
  {
    AllUncoveredFit(clips, tracks, r.start, r.start + r.frames, ripple, placements) && AllPlacementsFit(placements, opId)
  }

  lemma PlacedOver(library: Library, t: Timeline, placements: seq<Placement>, opId: Id, u: Timeline, p: Clip)
    requires Good(t) && InsertAll(library, t, placements, opId) == Ok(u)
    ensures p in t.clips ==> Overwritten(p, placements, 0) || p in u.clips
    ensures p in u.clips ==> LastPlaced(placements, opId, p) || (p in t.clips && !Overwritten(p, placements, 0))
  {
    AfterPlacements(library, t, placements, opId, p);
  }

  /** What the placements of a batch leave of the clips there, and what they add. */
  ghost predicate PlacedOnto(before: seq<Clip>, placements: seq<Placement>, opId: Id, after: seq<Clip>) {
    && (forall p :: p in before ==> Overwritten(p, placements, 0) || p in after)
    && (forall p :: p in after ==> LastPlaced(placements, opId, p) || (p in before && !Overwritten(p, placements, 0)))
  }

  lemma AllPlaced(library: Library, t: Timeline, placements: seq<Placement>, opId: Id, u: Timeline)
    requires Good(t) && InsertAll(library, t, placements, opId) == Ok(u)
    ensures PlacedOnto(t.clips, placements, opId, u.clips)
  {
    forall p
      ensures p in t.clips ==> Overwritten(p, placements, 0) || p in u.clips
      ensures p in u.clips ==> LastPlaced(placements, opId, p) || (p in t.clips && !Overwritten(p, placements, 0))
    {
      PlacedOver(library, t, placements, opId, u, p);
    }
  }

  lemma KeptPlacements(library: Library, t: Timeline, placements: seq<Placement>, opId: Id, u: Timeline)
    requires Good(t) && InsertAll(library, t, placements, opId) == Ok(u) && AllFadesFit(u)
    ensures AllPlacementsFit(placements, opId)
  {
    forall k | 0 <= k < |placements| && placements[k].frames >= 1
      ensures PlacementFits(placements, opId, k)
    {
      var c := ClipFromPlacement(Derived(opId, Placed(k)), placements[k]);
      AfterPlacements(library, t, placements, opId, c);
      assert PlacedAt(c, placements, opId, k);
    }
  }

  lemma PlacedFits(placements: seq<Placement>, opId: Id, p: Clip)
    requires LastPlaced(placements, opId, p) && AllPlacementsFit(placements, opId)
    ensures FadesFit(p)
  {
    var k :| 0 <= k < |placements| && PlacedAt(p, placements, opId, k) && !Overwritten(p, placements, k + 1);
    assert PlacementFits(placements, opId, k);
  }

  lemma KeptUncovered(t: Timeline, tracks: seq<string>, r: SequenceRange, ripple: bool, cleared: Timeline,
                      placements: seq<Placement>, opId: Id, u: Timeline)
    requires DistinctIds(t.clips) && FreshRange(t, tracks, r, ripple) && ApplyRemoveRange(t, tracks, r, ripple) == Ok(cleared)
    requires PlacedOnto(cleared.clips, placements, opId, u.clips) && AllFadesFit(u) && r.frames >= 1
    ensures AllUncoveredFit(t.clips, tracks, r.start, r.start + r.frames, ripple, placements)
  {
    forall c, p | c in t.clips && p in BecomesOn(c, tracks, r.start, r.start + r.frames, ripple)
      ensures Overwritten(p, placements, 0) || FadesFit(p)
    {
      StillLeft(t, tracks, r, ripple, cleared, c, p);
    }
  }

  lemma TopFits(t: Timeline, tracks: seq<string>, r: SequenceRange, ripple: bool, cleared: Timeline,
                placements: seq<Placement>, opId: Id, u: Timeline, p: Clip)
    requires DistinctIds(t.clips) && FreshRange(t, tracks, r, ripple) && ApplyRemoveRange(t, tracks, r, ripple) == Ok(cleared)
    requires PlacedOnto(cleared.clips, placements, opId, u.clips) && p in u.clips && r.frames >= 1
    requires AllUncoveredFit(t.clips, tracks, r.start, r.start + r.frames, ripple, placements) && AllPlacementsFit(placements, opId)
    ensures FadesFit(p)
  {
    if LastPlaced(placements, opId, p) {
      PlacedFits(placements, opId, p);
    } else {
      var c := ComesFrom(t, tracks, r, ripple, cleared, p);
      assert UncoveredFit(c, tracks, r.start, r.start + r.frames, ripple, placements);
    }
  }

  lemma AllTopFits(t: Timeline, tracks: seq<string>, r: SequenceRange, ripple: bool, cleared: Timeline,
                   placements: seq<Placement>, opId: Id, u: Timeline)
    requires DistinctIds(t.clips) && FreshRange(t, tracks, r, ripple) && ApplyRemoveRange(t, tracks, r, ripple) == Ok(cleared)
    requires PlacedOnto(cleared.clips, placements, opId, u.clips) && r.frames >= 1
    requires AllUncoveredFit(t.clips, tracks, r.start, r.start + r.frames, ripple, placements) && AllPlacementsFit(placements, opId)
    ensures AllFadesFit(u)
  {
    forall p | p in u.clips
      ensures FadesFit(p)
    {
      TopFits(t, tracks, r, ripple, cleared, placements, opId, u, p);
    }
  }

  /** The removal of a batch, once its placements are accounted for. */
  lemma ClearedFitsIff(t: Timeline, tracks: seq<string>, r: SequenceRange, ripple: bool, cleared: Timeline,
                       placements: seq<Placement>, opId: Id, u: Timeline)
    requires DistinctIds(t.clips) && FreshRange(t, tracks, r, ripple) && ApplyRemoveRange(t, tracks, r, ripple) == Ok(cleared)
    requires PlacedOnto(cleared.clips, placements, opId, u.clips) && r.frames >= 1 && AllPlacementsFit(placements, opId)
    ensures AllFadesFit(u) == AllUncoveredFit(t.clips, tracks, r.start, r.start + r.frames, ripple, placements)
  {
    if AllFadesFit(u) { KeptUncovered(t, tracks, r, ripple, cleared, placements, opId, u); }
    if AllUncoveredFit(t.clips, tracks, r.start, r.start + r.frames, ripple, placements) {
      AllTopFits(t, tracks, r, ripple, cleared, placements, opId, u);
    }
  }

  /** The removal of a batch, once its placements are accounted for. */
  lemma ClearedKeepsFades(t: Timeline, tracks: seq<string>, r: SequenceRange, ripple: bool, cleared: Timeline,
                          placements: seq<Placement>, opId: Id, u: Timeline)
    requires Good(t) && FreshRange(t, tracks, r, ripple) && ApplyRemoveRange(t, tracks, r, ripple) == Ok(cleared)
    requires PlacedOnto(cleared.clips, placements, opId, u.clips) && r.frames >= 1
    requires AllFadesFit(u) ==> AllPlacementsFit(placements, opId)
    ensures AllFadesFit(u) ==
              (AllUncoveredFit(t.clips, tracks, r.start, r.start + r.frames, ripple, placements) && AllPlacementsFit(placements, opId))
  {
    if AllPlacementsFit(placements, opId) { ClearedFitsIff(t, tracks, r, ripple, cleared, placements, opId, u); }
  }

  lemma PlacementsKeepFades(library: Library, t: Timeline, tracks: seq<string>, r: SequenceRange, ripple: bool, cleared: Timeline,
                            placements: seq<Placement>, opId: Id, u: Timeline)
    requires Good(t) && FreshRange(t, tracks, r, ripple) && ApplyRemoveRange(t, tracks, r, ripple) == Ok(cleared)
    requires InsertAll(library, cleared, placements, opId) == Ok(u)
    ensures r.frames >= 1 && PlacedOnto(cleared.clips, placements, opId, u.clips)
    ensures AllFadesFit(u) ==> AllPlacementsFit(placements, opId)
  {
    RangeIsTracks(t, tracks, r, ripple, cleared);
    ApplyRemoveRangeGood(t, tracks, r, ripple);
    AllPlaced(library, cleared, placements, opId, u);
    if AllFadesFit(u) { KeptPlacements(library, cleared, placements, opId, u); }
  }

  lemma BatchFitsMeans(clips: seq<Clip>, tracks: seq<string>, r: SequenceRange, placements: seq<Placement>, ripple: bool, opId: Id)
    requires r.frames >= 1
    ensures BatchFits(clips, tracks, r, placements, ripple, opId) ==
              (AllUncoveredFit(clips, tracks, r.start, r.start + r.frames, ripple, placements) && AllPlacementsFit(placements, opId))
  {
  }

  lemma BatchKeepsFades(library: Library, t: Timeline, tracks: seq<string>, r: SequenceRange, placements: seq<Placement>, ripple: bool,
                        opId: Id, cleared: Timeline, u: Timeline)
    requires Good(t) && FreshRange(t, tracks, r, ripple)
    requires ApplyRemoveRange(t, tracks, r, ripple) == Ok(cleared) && InsertAll(library, cleared, placements, opId) == Ok(u)
    ensures r.frames >= 1 && AllFadesFit(u) == BatchFits(t.clips, tracks, r, placements, ripple, opId)
  {
    hide *;
    PlacementsKeepFades(library, t, tracks, r, ripple, cleared, placements, opId, u);
    ClearedKeepsFades(t, tracks, r, ripple, cleared, placements, opId, u);
    BatchFitsMeans(t.clips, tracks, r, placements, ripple, opId);
  }

  /** When an operation keeps all fades fitting, said of its input. */
  predicate KeepsFades(t: Timeline, op: Operation, opId: Id) {
    match op
    case InsertClip(clip, p, mode) => p.frames >= 1 ==> FadesFit(ClipFromPlacement(IdOr(clip, opId, Inserted), p))
    case RestoreClip(action, from, p) => p.frames >= 1 ==> FadesFit(ClipFromPlacement(Derived(opId, Restored(from)), p))
    case RemoveRange(tracks, r, ripple) => PiecesFit(t.clips, tracks, r.start, r.start + r.frames)
    case TrimClip(id, start, frames, range) =>
      HasId(t.clips, id) ==> FadesWithin(t.clips[IndexOf(t.clips, id).value], frames)
    case SplitClip(id, at, left, right) =>
      HasId(t.clips, id) ==>
        var c := t.clips[IndexOf(t.clips, id).value];
        FadesWithin(c, at - c.start) && FadesWithin(c, EndOf(c) - at)
    case BatchReplace(tracks, r, placements, ripple) => r.frames >= 1 ==> BatchFits(t.clips, tracks, r, placements, ripple, opId)
    case _ => true
  }

  lemma TrimKeepsFades(library: Library, t: Timeline, id: Id, start: int, frames: int, range: Option<Range>)
    requires AllFadesFit(t) && ApplyTrim(library, t, id, start, frames, range).Ok?
    ensures AllFadesFit(ApplyTrim(library, t, id, start, frames, range).value) == FadesWithin(t.clips[IndexOf(t.clips, id).value], frames)
  {
    var i := IndexOf(t.clips, id).value;
    var source := TrimmedSource(library, t.clips[i].source, frames, range).value;
    PutKeepsFades(t, i, t.clips[i].(start := start, frames := frames, source := source));
  }

  lemma MoveKeepsFades(t: Timeline, id: Id, track: string, start: int)
    requires AllFadesFit(t) && ApplyMove(t, id, track, start).Ok?
    ensures AllFadesFit(ApplyMove(t, id, track, start).value)
  {
    var i := IndexOf(t.clips, id).value;
    assert t.clips[i] in t.clips;
    PutKeepsFades(t, i, t.clips[i].(track := track, start := start));
  }

  lemma SettingKeepsFades(t: Timeline, op: Operation, opId: Id)
    requires AllFadesFit(t)
    ensures op.SetTransform? && ApplyTransform(t, op.transformed, op.transform).Ok? ==>
              AllFadesFit(ApplyTransform(t, op.transformed, op.transform).value)
    ensures op.SetAudio? && ApplyAudio(t, op.faded, op.audio).Ok? ==> AllFadesFit(ApplyAudio(t, op.faded, op.audio).value)
    ensures op.SetSpeed? && ApplySpeed(t, op, opId).Ok? ==> AllFadesFit(ApplySpeed(t, op, opId).value.timeline)
  {
    match op
    case SetTransform(id, transform) =>
      var i := IndexOf(t.clips, id);
      assert i.Some? ==> t.clips[i.value] in t.clips;
      if i.Some? { PutKeepsFades(t, i.value, t.clips[i.value].(transform := Some(transform))); }
    case SetAudio(id, audio) =>
      var i := IndexOf(t.clips, id);
      if i.Some? { PutKeepsFades(t, i.value, t.clips[i.value].(audio := Some(audio))); }
    case SetSpeed(id, _, _, _) =>
      var i := IndexOf(t.clips, id);
      assert i.Some? ==> t.clips[i.value] in t.clips;
      if ApplySpeed(t, op, opId).Ok? { PutKeepsFades(t, i.value, ApplySpeed(t, op, opId).value.timeline.clips[i.value]); }
    case _ =>
  }

  lemma PlacedFadesKept(library: Library, t: Timeline, op: Operation, opId: Id)
    requires Good(t) && AllFadesFit(t) && FreshFor(t, op) && Apply(library, t, op, opId).Ok?
    requires op.InsertClip? || op.RestoreClip? || op.RemoveRange? || op.BatchReplace?
    ensures AllFadesFit(Apply(library, t, op, opId).value.timeline) == KeepsFades(t, op, opId)
  {
    match op
    case InsertClip(clip, p, mode) => InsertKeepsFades(library, t, IdOr(clip, opId, Inserted), p, mode);
    case RestoreClip(_, from, p) => InsertKeepsFades(library, t, Derived(opId, Restored(from)), p, Overwrite);
    case RemoveRange(tracks, range, ripple) => RemovalKeepsFades(t, tracks, range, ripple, ApplyRemoveRange(t, tracks, range, ripple).value);
    case BatchReplace(tracks, range, placements, ripple) =>
      var cleared := ApplyRemoveRange(t, tracks, range, ripple).value;
      BatchKeepsFades(library, t, tracks, range, placements, ripple, opId, cleared, InsertAll(library, cleared, placements, opId).value);
  }

  lemma ChangedFadesKept(library: Library, t: Timeline, op: Operation, opId: Id)
    requires Good(t) && AllFadesFit(t) && Apply(library, t, op, opId).Ok?
    requires op.RemoveOne? || op.MoveClip? || op.TrimClip? || op.SplitClip?
    ensures AllFadesFit(Apply(library, t, op, opId).value.timeline) == KeepsFades(t, op, opId)
  {
    hide AllFadesFit, FadesWithin;
    match op
    case RemoveOne(id, ripple) => RemoveOneKeepsFades(t, id, ripple);
    case MoveClip(id, track, start) => MoveKeepsFades(t, id, track, start);
    case TrimClip(id, start, frames, range) => TrimKeepsFades(library, t, id, start, frames, range);
    case SplitClip(_, _, _, _) => SplitKeepsFades(t, op, opId);
  }

  /** For every operation, exactly when it leaves all fades fitting. */
  lemma FadesKeptIff(library: Library, t: Timeline, op: Operation, opId: Id)
    requires Good(t) && AllFadesFit(t) && FreshFor(t, op) && Apply(library, t, op, opId).Ok?
    ensures AllFadesFit(Apply(library, t, op, opId).value.timeline) == KeepsFades(t, op, opId)
  {
    if op.InsertClip? || op.RestoreClip? || op.RemoveRange? || op.BatchReplace? {
      PlacedFadesKept(library, t, op, opId);
    } else if op.RemoveOne? || op.MoveClip? || op.TrimClip? || op.SplitClip? {
      ChangedFadesKept(library, t, op, opId);
    } else {
      SettingKeepsFades(t, op, opId);
    }
  }

  // ----- an input that outlives its fades

  /** A still clip of ten frames with fades of five and five frames, alone on a video track. */
  const FADED := Clip(Named("a"), "v", 0, 10, true, None, None, Some(Fades(0.0, false, 5, 5)), Still("art", "a.png", "h"), None)

  const ALONE := Timeline("s", [Track("v", "s", Video, false)], [FADED], [], [])

  lemma OneClipPasses(library: Library, c: Clip)
    requires "art" in library.artifacts && "h" in library.objects
    requires c == FADED.(frames := c.frames)
    ensures ProjectionFault(library, ALONE.(clips := [c])).None? && OverlapFault(ALONE.(clips := [c]), c).None?
  {
    var t := ALONE.(clips := [c]);
    assert !Whitespace("a.png"[0]);
    assert ClipFaults(library, t, 0).None? && ClipFault(library, t, 0).None?;
    assert ClipFaults(library, t, 1).None?;
  }

  /** Trimmed to one frame it is accepted, by the final check too, with fades of ten frames. */
  lemma TrimOutlivesFades(library: Library)
    requires "art" in library.artifacts && "h" in library.objects
    ensures Good(ALONE) && AllFadesFit(ALONE) && ProjectionFault(library, ALONE).None?
    ensures var u := ApplyTrim(library, ALONE, Named("a"), 0, 1, None);
            u.Ok? && !AllFadesFit(u.value) && ProjectionFault(library, u.value).None?
  {
    var trimmed := FADED.(frames := 1);
    assert !Whitespace("a.png"[0]);
    FirstIndex(ALONE.clips, Named("a"), 0);
    assert ALONE.clips[0 := trimmed] == [trimmed];
    OneClipPasses(library, FADED);
    OneClipPasses(library, trimmed);
    assert trimmed in [trimmed] && !FadesFit(trimmed);
  }

  // ----- joined clips

  /** The clips of a transition meet on its track and are long enough for it. */
  predicate JoinOk(a: Clip, b: Clip, x: Transition) {
    a.track == x.track == b.track && EndOf(a) == b.start && x.frames <= a.frames && x.frames <= b.frames
  }

  predicate Joins(x: Transition, a: Clip, b: Clip) {
    a.id == x.outgoing && b.id == x.incoming
  }

  /** Transitions join clips that meet, on tracks other than audio tracks. */
  predicate AllMeet(t: Timeline) {
    && (forall x, a, b :: x in t.transitions && a in t.clips && b in t.clips && Joins(x, a, b) ==> JoinOk(a, b, x))
    && forall x :: x in t.transitions ==> !AudioTrack(t.tracks, x.track)
  }

  /** Two clips that meet are moved both or neither, unless the cut comes exactly between them. */
  lemma ShiftedJoin(a: Clip, b: Clip, x: Transition, track: string, from: int, delta: int)
    requires JoinOk(a, b, x) && delta != 0
    ensures JoinOk(ShiftClip(a, track, from, delta), ShiftClip(b, track, from, delta), x) <==> !(x.track == track && a.start < from <= b.start)
  {
  }

  lemma TheClip(t: Timeline, id: Id) returns (c: Clip)
    requires Good(t) && HasId(t.clips, id)
    ensures c in t.clips && c.id == id && c == t.clips[IndexOf(t.clips, id).value]
    ensures forall d :: d in t.clips && d.id == id ==> d == c
  {
    c := t.clips[IndexOf(t.clips, id).value];
    forall d | d in t.clips && d.id == id
      ensures d == c
    {
      SameIdSameClip(t.clips, d, c);
    }
  }

  // ----- operations that always keep joins

  /** A clip whose id was in use is an uncut one. */
  lemma UncutOrigin(t: Timeline, track: string, start: int, end: int, ripple: bool, p: Clip) returns (c: Clip)
    requires start < end && Good(t) && FreshSlices(t.clips, track, start, end) && HasId(t.clips, p.id)
    requires p in RemoveFromTrack(t, track, start, end, ripple).clips
    ensures c in t.clips && c.id == p.id && !Touched(c, track, start, end)
    ensures p == if ripple then ShiftClip(c, track, end, start - end) else c
  {
    AfterRemoval(t, track, start, end, ripple, p);
    c :| c in t.clips && p in Becomes(c, track, start, end, ripple);
    if Touched(c, track, start, end) { RemainsAreNew(t.clips, c, track, start, end, ripple, p); }
  }

  /** Two uncut clips that meet lie on the same side of the range. */
  lemma UncutJoin(a: Clip, b: Clip, x: Transition, track: string, start: int, end: int, ripple: bool)
    requires start < end && JoinOk(a, b, x) && !Touched(a, track, start, end) && !Touched(b, track, start, end)
    ensures JoinOk(if ripple then ShiftClip(a, track, end, start - end) else a, if ripple then ShiftClip(b, track, end, start - end) else b, x)
  {
  }

  lemma RemovalKeepsJoin(t: Timeline, track: string, start: int, end: int, ripple: bool, x: Transition, p: Clip, q: Clip)
    requires 0 <= start < end && Good(t) && AllMeet(t) && FreshSlices(t.clips, track, start, end)
    requires x in t.transitions && Joins(x, p, q)
    requires p in RemoveFromTrack(t, track, start, end, ripple).clips && q in RemoveFromTrack(t, track, start, end, ripple).clips
    ensures JoinOk(p, q, x)
  {
    var a := UncutOrigin(t, track, start, end, ripple, p);
    var b := UncutOrigin(t, track, start, end, ripple, q);
    assert JoinOk(a, b, x);
    UncutJoin(a, b, x, track, start, end, ripple);
  }

  lemma RemovalKeepsJoins(t: Timeline, track: string, start: int, end: int, ripple: bool)
    requires 0 <= start < end && Good(t) && AllMeet(t) && FreshSlices(t.clips, track, start, end)
    ensures AllMeet(RemoveFromTrack(t, track, start, end, ripple))
  {
    var u := RemoveFromTrack(t, track, start, end, ripple);
    RemovalCues(t, track, start, end, ripple);
    forall x | x in u.transitions
      ensures x in t.transitions
    {
      TransitionsAfterRemoval(t, track, start, end, ripple, x);
    }
    forall x, p, q | x in u.transitions && p in u.clips && q in u.clips && Joins(x, p, q)
      ensures JoinOk(p, q, x)
    {
      RemovalKeepsJoin(t, track, start, end, ripple, x, p, q);
    }
  }

  lemma {:induction false} RemovalsKeepJoins(t: Timeline, tracks: seq<string>, start: int, end: int, ripple: bool)
    requires 0 <= start < end && Good(t) && AllMeet(t)
    requires FreshTracks(t, tracks, start, end, ripple) && RemoveFromTracks(t, tracks, start, end, ripple).Ok?
    ensures AllMeet(RemoveFromTracks(t, tracks, start, end, ripple).value)
    decreases |tracks|
  {
    if tracks == [] {
    } else {
      var n := |tracks| - 1;
      RemovalsKeepJoins(t, tracks[..n], start, end, ripple);
      RemoveFromTracksGood(t, tracks[..n], start, end, ripple);
      RemovalKeepsJoins(RemoveFromTracks(t, tracks[..n], start, end, ripple).value, tracks[n], start, end, ripple);
    }
  }

  /** Fewer clips and fewer transitions. */
  predicate Within(u: Timeline, t: Timeline) {
    && u.tracks == t.tracks
    && (forall x :: x in u.transitions ==> x in t.transitions)
    && forall c :: c in u.clips ==> c in t.clips
  }

  lemma WithinMeets(u: Timeline, t: Timeline)
    requires AllMeet(t) && Within(u, t)
    ensures AllMeet(u)
  {
  }

  lemma RemovedWithin(t: Timeline, id: Id)
    ensures Within(RemoveClip(t, id), t)
  {
    WithoutMembers(t.clips, id);
    forall x
      ensures x in RemoveClip(t, id).transitions ==> x in t.transitions
    {
      Filtered((x: Transition) => x.outgoing != id && x.incoming != id, t.transitions, x);
    }
  }

  lemma {:induction false} ClearedWithin(t: Timeline, removed: seq<Clip>)
    ensures Within(RemoveClips(t, removed), t)
    decreases |removed|
  {
    if removed == [] {
    } else {
      ClearedWithin(t, removed[..|removed| - 1]);
      RemovedWithin(RemoveClips(t, removed[..|removed| - 1]), removed[|removed| - 1].id);
    }
  }

  /** A clip with an id no transition names. */
  lemma PushedMeets(t: Timeline, c: Clip)
    requires AllMeet(t) && Joined(t) && !HasId(t.clips, c.id)
    ensures AllMeet(PushClip(t, c))
  {
    forall x, a, b | x in t.transitions && a in t.clips + [c] && b in t.clips + [c] && Joins(x, a, b)
      ensures JoinOk(a, b, x)
    {
      assert HasId(t.clips, a.id) && HasId(t.clips, b.id);
    }
  }

  lemma ClearedMeets(t: Timeline, removed: seq<Clip>, id: Id)
    requires Good(t) && AllMeet(t) && !HasId(t.clips, id)
    ensures var u := RemoveClips(t, removed);
            AllMeet(u) && Joined(u) && !HasId(u.clips, id)
  {
    RemoveClipsGood(t, removed);
    ClearedWithin(t, removed);
    WithinMeets(RemoveClips(t, removed), t);
    HasIdIsMember(t.clips, id);
    HasIdIsMember(RemoveClips(t, removed).clips, id);
  }

  lemma OverwriteKeepsJoins(library: Library, t: Timeline, id: Id, p: Placement, mode: Mode)
    requires Good(t) && AllMeet(t) && mode.Overwrite? && ApplyInsert(library, t, id, p, mode).Ok?
    ensures AllMeet(ApplyInsert(library, t, id, p, mode).value)
  {
    hide Good, AllMeet, Joined, HasId;
    var overlaps := Overlapping(t.clips, p.track, p.start, p.start + p.frames);
    ClearedMeets(t, overlaps, id);
    PushedMeets(RemoveClips(t, overlaps), ClipFromPlacement(id, p));
  }

  lemma {:induction false} InsertAllKeepsJoins(library: Library, t: Timeline, placements: seq<Placement>, opId: Id)
    requires Good(t) && AllMeet(t) && InsertAll(library, t, placements, opId).Ok?
    ensures AllMeet(InsertAll(library, t, placements, opId).value)
    decreases |placements|
  {
    if placements == [] {
    } else {
      var n := |placements| - 1;
      InsertAllKeepsJoins(library, t, placements[..n], opId);
      InsertAllGood(library, t, placements[..n], opId);
      OverwriteKeepsJoins(library, InsertAll(library, t, placements[..n], opId).value, Derived(opId, Placed(n)), placements[n], Overwrite);
    }
  }

  lemma PushedJoined(t: Timeline, c: Clip)
    requires Joined(t)
    ensures Joined(PushClip(t, c))
  {
    forall x | x in t.transitions
      ensures HasId(t.clips + [c], x.outgoing) && HasId(t.clips + [c], x.incoming)
    {
      StillThere(t.clips, c, x.outgoing);
      StillThere(t.clips, c, x.incoming);
    }
  }

  lemma SplitKeepsJoins(t: Timeline, op: Operation, opId: Id)
    requires op.SplitClip? && Good(t) && AllMeet(t) && ApplySplit(t, op, opId).Ok?
    ensures AllMeet(ApplySplit(t, op, opId).value.timeline)
  {
    var c := t.clips[IndexOf(t.clips, op.split).value];
    var frames := op.at - c.start;
    var left := LeftPart(c, IdOr(op.left, opId, Label.LeftHalf), frames);
    var right := RightPart(c, IdOr(op.right, opId, Label.RightHalf), frames);
    var without := RemoveClip(t, c.id);
    RemovedWithin(t, c.id);
    WithinMeets(without, t);
    RemoveClipGood(t, c.id);
    PartIdsFree(t.clips, c.id, left.id, right.id);
    PushedMeets(without, left);
    PushedJoined(without, left);
    assert !HasId(without.clips + [left], right.id);
    PushedMeets(PushClip(without, left), right);
    assert without.clips + [left] + [right] == without.clips + [left, right];
  }

  /** Clips before a removed one end before it, so the ripple moves both clips of a join or neither. */
  lemma RippleKeepsJoins(t: Timeline, c: Clip)
    requires Good(t) && AllMeet(t) && c in t.clips
    ensures var without := RemoveClip(t, c.id);
            AllMeet(without.(clips := ShiftClips(without.clips, c.track, EndOf(c), c.start - EndOf(c))))
  {
    var without := RemoveClip(t, c.id);
    RemovedWithin(t, c.id);
    WithoutMembers(t.clips, c.id);
    var u := without.(clips := ShiftClips(without.clips, c.track, EndOf(c), c.start - EndOf(c)));
    forall x, p, q | x in u.transitions && p in u.clips && q in u.clips && Joins(x, p, q)
      ensures JoinOk(p, q, x)
    {
      Shifted(without.clips, c.track, EndOf(c), c.start - EndOf(c), p);
      Shifted(without.clips, c.track, EndOf(c), c.start - EndOf(c), q);
      var a :| a in without.clips && p == ShiftClip(a, c.track, EndOf(c), c.start - EndOf(c));
      var b :| b in without.clips && q == ShiftClip(b, c.track, EndOf(c), c.start - EndOf(c));
      assert JoinOk(a, b, x);
      if x.track == c.track { EndsBefore(t, a, c); }
      ShiftedJoin(a, b, x, c.track, EndOf(c), c.start - EndOf(c));
    }
  }

  lemma RemoveOneKeepsJoins(t: Timeline, id: Id, ripple: bool, u: Timeline)
    requires Good(t) && AllMeet(t) && ApplyRemoveOne(t, id, ripple) == Ok(u)
    ensures AllMeet(u)
  {
    hide Good, AllMeet;
    var c := t.clips[IndexOf(t.clips, id).value];
    assert c in t.clips && c.id == id;
    if ripple {
      RippleKeepsJoins(t, c);
    } else {
      RemovedWithin(t, id);
      WithinMeets(RemoveClip(t, id), t);
    }
  }

  lemma SetTransitionKeepsJoins(t: Timeline, outgoing: Id, incoming: Id, transition: Option<Transition>)
    requires Good(t) && AllMeet(t) && ApplyTransition(t, outgoing, incoming, transition).Ok?
    ensures AllMeet(ApplyTransition(t, outgoing, incoming, transition).value)
  {
    var u := ApplyTransition(t, outgoing, incoming, transition).value;
    var a := TheClip(t, outgoing);
    var b := TheClip(t, incoming);
    forall x | x in u.transitions
      ensures x in t.transitions || (transition == Some(x) && Joins(x, a, b) && JoinOk(a, b, x))
    {
      Filtered((z: Transition) => z.outgoing != outgoing || z.incoming != incoming, t.transitions, x);
    }
  }

  // ----- operations that can part clips

  /** No transition of the track leads to a clip that starts at the frame. */
  predicate NoneMeetAt(t: Timeline, track: string, start: int) {
    forall x, b :: x in t.transitions && x.track == track && b in t.clips && b.id == x.incoming ==> b.start != start
  }

  lemma ShiftKeepsIds(clips: seq<Clip>, track: string, from: int, delta: int, id: Id)
    ensures HasId(ShiftClips(clips, track, from, delta), id) == HasId(clips, id)
  {
    assert forall i :: 0 <= i < |clips| ==> ShiftClips(clips, track, from, delta)[i].id == clips[i].id;
  }

  lemma ShiftKeepsJoins(library: Library, t: Timeline, id: Id, p: Placement)
    requires Good(t) && AllMeet(t) && ApplyInsert(library, t, id, p, Insert).Ok? && NoneMeetAt(t, p.track, p.start)
    ensures AllMeet(t.(clips := ShiftClips(t.clips, p.track, p.start, p.frames)))
  {
    var u := t.(clips := ShiftClips(t.clips, p.track, p.start, p.frames));
    forall x, q, r | x in u.transitions && q in u.clips && r in u.clips && Joins(x, q, r)
      ensures JoinOk(q, r, x)
    {
      Shifted(t.clips, p.track, p.start, p.frames, q);
      Shifted(t.clips, p.track, p.start, p.frames, r);
      var a :| a in t.clips && q == ShiftClip(a, p.track, p.start, p.frames);
      var b :| b in t.clips && r == ShiftClip(b, p.track, p.start, p.frames);
      assert JoinOk(a, b, x);
      InsertMeans(library, t, id, p, a);
      ShiftedJoin(a, b, x, p.track, p.start, p.frames);
    }
  }

  /** The insertion pushes the incoming clip away from the outgoing one. */
  lemma InsertParts(library: Library, t: Timeline, id: Id, p: Placement, x: Transition, b: Clip)
    requires Good(t) && AllMeet(t) && ApplyInsert(library, t, id, p, Insert).Ok?
    requires x in t.transitions && x.track == p.track && b in t.clips && b.id == x.incoming && b.start == p.start
    ensures !AllMeet(ApplyInsert(library, t, id, p, Insert).value)
  {
    var a := TheClip(t, x.outgoing);
    assert JoinOk(a, b, x);
    var q, r := ShiftClip(a, p.track, p.start, p.frames), ShiftClip(b, p.track, p.start, p.frames);
    Shifted(t.clips, p.track, p.start, p.frames, q);
    Shifted(t.clips, p.track, p.start, p.frames, r);
    var u := ApplyInsert(library, t, id, p, Insert).value;
    assert q in u.clips && r in u.clips && Joins(x, q, r) && !JoinOk(q, r, x);
  }

  /** An insertion parts two joined clips exactly when they meet where it starts. */
  lemma InsertKeepsJoins(library: Library, t: Timeline, id: Id, p: Placement)
    requires Good(t) && AllMeet(t) && ApplyInsert(library, t, id, p, Insert).Ok?
    ensures AllMeet(ApplyInsert(library, t, id, p, Insert).value) == NoneMeetAt(t, p.track, p.start)
  {
    if NoneMeetAt(t, p.track, p.start) {
      ShiftKeepsJoins(library, t, id, p);
      var shifted := t.(clips := ShiftClips(t.clips, p.track, p.start, p.frames));
      ShiftJoined(t, shifted, p.track, p.start, p.frames);
      ShiftKeepsIds(t.clips, p.track, p.start, p.frames, id);
      PushedMeets(shifted, ClipFromPlacement(id, p));
    }
    forall x, b | x in t.transitions && x.track == p.track && b in t.clips && b.id == x.incoming && b.start == p.start
      ensures !AllMeet(ApplyInsert(library, t, id, p, Insert).value)
    {
      InsertParts(library, t, id, p, x, b);
    }
  }

  /** Where d was, c is as good for the transition: it ends or starts at the same frame and is long enough. */
  predicate StandsIn(d: Clip, c: Clip, x: Transition) {
    && (x.outgoing == d.id ==> c.track == d.track && EndOf(c) == EndOf(d) && x.frames <= c.frames)
    && (x.incoming == d.id ==> c.track == d.track && c.start == d.start && x.frames <= c.frames)
  }

  predicate StandsInEverywhere(t: Timeline, d: Clip, c: Clip) {
    forall x :: x in t.transitions ==> StandsIn(d, c, x)
  }

  lemma PutMembers(t: Timeline, i: nat, c: Clip, q: Clip)
    requires DistinctIds(t.clips) && i < |t.clips| && c.id == t.clips[i].id
    ensures q in PutClip(t, i, c).clips <==> q == c || (q in t.clips && q.id != c.id)
  {
    var u := PutClip(t, i, c);
    assert u.clips[i] == c;
    if q in t.clips && q.id != c.id {
      var j :| 0 <= j < |t.clips| && t.clips[j] == q;
      assert u.clips[j] == q;
    }
  }

  lemma PutKeepsJoin(t: Timeline, i: nat, c: Clip, x: Transition, p: Clip, q: Clip)
    requires Good(t) && AllMeet(t) && i < |t.clips| && c.id == t.clips[i].id && x in t.transitions && StandsIn(t.clips[i], c, x)
    requires p in PutClip(t, i, c).clips && q in PutClip(t, i, c).clips && Joins(x, p, q)
    ensures JoinOk(p, q, x)
  {
    PutMembers(t, i, c, p);
    PutMembers(t, i, c, q);
    var a, b := if p.id == c.id then t.clips[i] else p, if q.id == c.id then t.clips[i] else q;
    assert a in t.clips && b in t.clips && JoinOk(a, b, x);
  }

  lemma PutParts(t: Timeline, i: nat, c: Clip, x: Transition)
    requires Good(t) && AllMeet(t) && i < |t.clips| && c.id == t.clips[i].id && x in t.transitions && !StandsIn(t.clips[i], c, x)
    ensures !AllMeet(PutClip(t, i, c))
  {
    var d := t.clips[i];
    var a := TheClip(t, x.outgoing);
    var b := TheClip(t, x.incoming);
    assert d in t.clips && JoinOk(a, b, x);
    var p, q := if a.id == d.id then c else a, if b.id == d.id then c else b;
    PutMembers(t, i, c, p);
    PutMembers(t, i, c, q);
    assert Joins(x, p, q) && !JoinOk(p, q, x);
  }

  lemma PutKeepsJoins(t: Timeline, i: nat, c: Clip)
    requires Good(t) && AllMeet(t) && i < |t.clips| && c.id == t.clips[i].id
    ensures AllMeet(PutClip(t, i, c)) == StandsInEverywhere(t, t.clips[i], c)
  {
    var u := PutClip(t, i, c);
    if StandsInEverywhere(t, t.clips[i], c) {
      forall x, p, q | x in u.transitions && p in u.clips && q in u.clips && Joins(x, p, q)
        ensures JoinOk(p, q, x)
      {
        PutKeepsJoin(t, i, c, x, p, q);
      }
    }
    forall x | x in t.transitions && !StandsIn(t.clips[i], c, x)
      ensures !AllMeet(u)
    {
      PutParts(t, i, c, x);
    }
  }

  predicate InTransition(t: Timeline, id: Id) {
    exists x :: x in t.transitions && id in {x.outgoing, x.incoming}
  }

  /** When an operation keeps joined clips together, said of its input. */
  predicate KeepsJoins(t: Timeline, op: Operation) {
    match op
    case InsertClip(_, p, mode) => mode.Insert? ==> NoneMeetAt(t, p.track, p.start)
    case MoveClip(id, track, start) =>
      HasId(t.clips, id) && InTransition(t, id) ==>
        var c := t.clips[IndexOf(t.clips, id).value];
        track == c.track && start == c.start
    case TrimClip(id, start, frames, _) =>
      HasId(t.clips, id) ==>
        var c := t.clips[IndexOf(t.clips, id).value];
        forall x :: x in t.transitions ==>
          (x.outgoing == id ==> start + frames == EndOf(c) && x.frames <= frames) &&
          (x.incoming == id ==> start == c.start && x.frames <= frames)
    case _ => true
  }

  lemma MovedStandsIn(t: Timeline, i: nat, c: Clip, x: Transition)
    requires Good(t) && AllMeet(t) && i < |t.clips| && x in t.transitions && c == t.clips[i].(track := c.track, start := c.start)
    ensures StandsIn(t.clips[i], c, x) <==>
              t.clips[i].id !in {x.outgoing, x.incoming} || (c.track == t.clips[i].track && c.start == t.clips[i].start)
  {
    var d := t.clips[i];
    var a := TheClip(t, x.outgoing);
    var b := TheClip(t, x.incoming);
    assert d in t.clips && JoinOk(a, b, x);
  }

  lemma MoveKeepsJoins(t: Timeline, id: Id, track: string, start: int)
    requires Good(t) && AllMeet(t) && ApplyMove(t, id, track, start).Ok?
    ensures AllMeet(ApplyMove(t, id, track, start).value) == KeepsJoins(t, MoveClip(id, track, start))
  {
    var i := IndexOf(t.clips, id).value;
    var c := t.clips[i].(track := track, start := start);
    PutKeepsJoins(t, i, c);
    forall x | x in t.transitions
      ensures StandsIn(t.clips[i], c, x) <==> id !in {x.outgoing, x.incoming} || (track == t.clips[i].track && start == t.clips[i].start)
    {
      MovedStandsIn(t, i, c, x);
    }
  }

  lemma TrimKeepsJoins(library: Library, t: Timeline, id: Id, start: int, frames: int, range: Option<Range>)
    requires Good(t) && AllMeet(t) && ApplyTrim(library, t, id, start, frames, range).Ok?
    ensures AllMeet(ApplyTrim(library, t, id, start, frames, range).value) == KeepsJoins(t, TrimClip(id, start, frames, range))
  {
    var i := IndexOf(t.clips, id).value;
    var source := TrimmedSource(library, t.clips[i].source, frames, range).value;
    PutKeepsJoins(t, i, t.clips[i].(start := start, frames := frames, source := source));
  }

  lemma InPlaceKeepsJoins(t: Timeline, i: nat, c: Clip)
    requires Good(t) && AllMeet(t) && i < |t.clips|
    requires c.id == t.clips[i].id && c.track == t.clips[i].track && c.start == t.clips[i].start && c.frames == t.clips[i].frames
    ensures AllMeet(PutClip(t, i, c))
  {
    assert t.clips[i] in t.clips;
    forall x | x in t.transitions
      ensures StandsIn(t.clips[i], c, x)
    {
      var a := TheClip(t, x.outgoing);
      var b := TheClip(t, x.incoming);
      assert JoinOk(a, b, x);
    }
    PutKeepsJoins(t, i, c);
  }

  lemma SettingKeepsJoins(t: Timeline, op: Operation, opId: Id)
    requires Good(t) && AllMeet(t)
    ensures op.SetTransform? && ApplyTransform(t, op.transformed, op.transform).Ok? ==>
              AllMeet(ApplyTransform(t, op.transformed, op.transform).value)
    ensures op.SetAudio? && ApplyAudio(t, op.faded, op.audio).Ok? ==> AllMeet(ApplyAudio(t, op.faded, op.audio).value)
    ensures op.SetSpeed? && ApplySpeed(t, op, opId).Ok? ==> AllMeet(ApplySpeed(t, op, opId).value.timeline)
  {
    match op
    case SetTransform(id, transform) =>
      var i := IndexOf(t.clips, id);
      if i.Some? { InPlaceKeepsJoins(t, i.value, t.clips[i.value].(transform := Some(transform))); }
    case SetAudio(id, audio) =>
      var i := IndexOf(t.clips, id);
      if i.Some? { InPlaceKeepsJoins(t, i.value, t.clips[i.value].(audio := Some(audio))); }
    case SetSpeed(id, _, _, _) =>
      var i := IndexOf(t.clips, id);
      if ApplySpeed(t, op, opId).Ok? { InPlaceKeepsJoins(t, i.value, ApplySpeed(t, op, opId).value.timeline.clips[i.value]); }
    case _ =>
  }

  lemma RangeKeepsJoins(t: Timeline, tracks: seq<string>, r: SequenceRange, ripple: bool, u: Timeline)
    requires Good(t) && AllMeet(t) && FreshRange(t, tracks, r, ripple) && ApplyRemoveRange(t, tracks, r, ripple) == Ok(u)
    ensures AllMeet(u)
  {
    RangeIsTracks(t, tracks, r, ripple, u);
    RemovalsKeepJoins(t, Unique(tracks), r.start, r.start + r.frames, ripple);
  }

  lemma BatchKeepsJoins(library: Library, t: Timeline, tracks: seq<string>, r: SequenceRange, placements: seq<Placement>, ripple: bool,
                        opId: Id, cleared: Timeline, u: Timeline)
    requires Good(t) && AllMeet(t) && FreshRange(t, tracks, r, ripple)
    requires ApplyRemoveRange(t, tracks, r, ripple) == Ok(cleared) && InsertAll(library, cleared, placements, opId) == Ok(u)
    ensures AllMeet(u)
  {
    RangeKeepsJoins(t, tracks, r, ripple, cleared);
    ApplyRemoveRangeGood(t, tracks, r, ripple);
    InsertAllKeepsJoins(library, cleared, placements, opId);
  }

  /** For every operation, exactly when it leaves all joined clips together. */
  lemma JoinsKeptIff(library: Library, t: Timeline, op: Operation, opId: Id)
    requires Good(t) && AllMeet(t) && FreshFor(t, op) && Apply(library, t, op, opId).Ok?
    ensures AllMeet(Apply(library, t, op, opId).value.timeline) == KeepsJoins(t, op)
  {
    match op
    case InsertClip(clip, p, mode) =>
      if mode.Insert? { InsertKeepsJoins(library, t, IdOr(clip, opId, Inserted), p); }
      else { OverwriteKeepsJoins(library, t, IdOr(clip, opId, Inserted), p, mode); }
    case RemoveRange(tracks, range, ripple) => RangeKeepsJoins(t, tracks, range, ripple, ApplyRemoveRange(t, tracks, range, ripple).value);
    case BatchReplace(tracks, range, placements, ripple) =>
      var cleared := ApplyRemoveRange(t, tracks, range, ripple).value;
      BatchKeepsJoins(library, t, tracks, range, placements, ripple, opId, cleared, InsertAll(library, cleared, placements, opId).value);
    case RemoveOne(id, ripple) => RemoveOneKeepsJoins(t, id, ripple, ApplyRemoveOne(t, id, ripple).value);
    case MoveClip(id, track, start) => MoveKeepsJoins(t, id, track, start);
    case TrimClip(id, start, frames, range) => TrimKeepsJoins(library, t, id, start, frames, range);
    case SplitClip(_, _, _, _) => SplitKeepsJoins(t, op, opId);
    case RestoreClip(_, from, p) => OverwriteKeepsJoins(library, t, Derived(opId, Restored(from)), p, Overwrite);
    case SetTransform(_, _) => SettingKeepsJoins(t, op, opId);
    case SetAudio(_, _) => SettingKeepsJoins(t, op, opId);
    case SetSpeed(_, _, _, _) => SettingKeepsJoins(t, op, opId);
    case SetTransition(outgoing, incoming, transition) => SetTransitionKeepsJoins(t, outgoing, incoming, transition);
    case UpsertCaption(_) =>
  }

  // ----- an input whose joined clips part

  /** The clip again, behind itself or later, and a transition from the one to the other. */
  function Pair(start: int): Timeline {
    ALONE.(clips := [FADED, FADED.(id := Named("b"), start := start)],
           transitions := [Transition("x", "v", Named("a"), Named("b"), 2)])
  }

  lemma PairPasses(library: Library, start: int)
    requires "art" in library.artifacts && "h" in library.objects && start >= 10
    ensures Good(Pair(start)) && ProjectionFault(library, Pair(start)).None? && OverlapFault(Pair(start), Pair(start).clips[1]).None?
  {
    var t := Pair(start);
    assert !Whitespace("a.png"[0]);
    FirstIndex(t.clips, Named("a"), 0);
    FirstIndex(t.clips, Named("b"), 1);
    assert ClipFault(library, t, 0).None? && ClipFault(library, t, 1).None?;
    assert ClipFaults(library, t, 0).None?;
    assert ClipFaults(library, t, 1).None?;
    assert ClipFaults(library, t, 2).None?;
    assert TransitionFaults(t, 0).None?;
    assert TransitionFaults(t, 1).None?;
  }

  lemma LaterPairIsParted()
    ensures !AllMeet(Pair(30))
  {
    assert Joins(Pair(30).transitions[0], Pair(30).clips[0], Pair(30).clips[1]);
  }

  lemma AdjoiningPairMeets()
    ensures AllMeet(Pair(10))
  {
  }

  lemma SecondMovesAway()
    requires OverlapFault(Pair(30), Pair(30).clips[1]).None?
    ensures ApplyMove(Pair(10), Named("b"), "v", 30) == Ok(Pair(30))
  {
    FirstIndex(Pair(10).clips, Named("b"), 1);
    assert Pair(10).clips[1 := Pair(30).clips[1]] == Pair(30).clips;
  }

  /** The second clip may be moved away, and the final check accepts the transition over the gap. */
  lemma MovePartsJoined(library: Library)
    requires "art" in library.artifacts && "h" in library.objects
    ensures Good(Pair(10)) && AllMeet(Pair(10)) && ProjectionFault(library, Pair(10)).None?
    ensures ApplyMove(Pair(10), Named("b"), "v", 30) == Ok(Pair(30))
    ensures !AllMeet(Pair(30)) && ProjectionFault(library, Pair(30)).None?
  {
    hide *;
    PairPasses(library, 10);
    PairPasses(library, 30);
    AdjoiningPairMeets();
    SecondMovesAway();
    LaterPairIsParted();
  }
}
