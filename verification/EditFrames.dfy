/**
 What the thirteen operations leave alone (src/edits.ts): the sequence and its tracks, the captions,
 and the transitions of clips that stay; and the ids that the halves of a split carry.
 */
module EditFrames {
  import opened Wrappers
  import opened Collections
  import opened Timelines
  import opened Edits
  import opened RangeRemoval
  import opened EditSafety
  import opened EditMeaning
  import opened EditLaws
  import opened EditKeeps

  // ----- the transitions left when clips go

  /** The transition joins none of the clips that are gone. */
  predicate Unjoined(x: Transition, gone: set<Id>) {
    x.outgoing !in gone && x.incoming !in gone
  }

  predicate Left(t: Timeline, u: Timeline, gone: set<Id>) {
    u.transitions == Filter((x: Transition) => Unjoined(x, gone), t.transitions)
  }

  lemma AllLeft(t: Timeline)
    ensures Left(t, t, {})
  {
    NothingFiltered((x: Transition) => Unjoined(x, {}), t.transitions);
  }

  lemma OneLeft(t: Timeline, id: Id)
    ensures Left(t, RemoveClip(t, id), {id})
  {
    FilterAgrees((x: Transition) => x.outgoing != id && x.incoming != id, (x: Transition) => Unjoined(x, {id}), t.transitions);
  }

  /** Two removals in a row, told as one. */
  lemma BothLeft(t: Timeline, u: Timeline, v: Timeline, first: set<Id>, second: set<Id>)
    requires Left(t, u, first) && Left(u, v, second)
    ensures Left(t, v, first + second)
  {
    FilterBoth((x: Transition) => Unjoined(x, first), (x: Transition) => Unjoined(x, second),
               (x: Transition) => Unjoined(x, first + second), t.transitions);
  }

  lemma SameLeft(t: Timeline, u: Timeline, gone: set<Id>, same: set<Id>)
    requires Left(t, u, gone) && forall x :: x in t.transitions ==> Unjoined(x, gone) == Unjoined(x, same)
    ensures Left(t, u, same)
  {
    FilterAgrees((x: Transition) => Unjoined(x, gone), (x: Transition) => Unjoined(x, same), t.transitions);
  }

  function Ids(clips: seq<Clip>): set<Id> {
    set c | c in clips :: c.id
  }

  lemma IdsLast(clips: seq<Clip>)
    requires clips != []
    ensures Ids(clips) == Ids(clips[..|clips| - 1]) + {clips[|clips| - 1].id}
  {
    assert clips == clips[..|clips| - 1] + [clips[|clips| - 1]];
  }

  /** The sequence, its tracks and its captions are as before. */
  predicate OnlyClips(t: Timeline, u: Timeline) {
    u.sequence == t.sequence && u.tracks == t.tracks && u.captions == t.captions
  }

  lemma {:induction false} ClearedFrame(t: Timeline, removed: seq<Clip>)
    ensures OnlyClips(t, RemoveClips(t, removed)) && Left(t, RemoveClips(t, removed), Ids(removed))
    decreases |removed|
  {
    if removed == [] {
      AllLeft(t);
      assert Ids(removed) == {};
    } else {
      var n := |removed| - 1;
      var before := RemoveClips(t, removed[..n]);
      ClearedFrame(t, removed[..n]);
      OneLeft(before, removed[n].id);
      BothLeft(t, before, RemoveClips(t, removed), Ids(removed[..n]), {removed[n].id});
      IdsLast(removed);
    }
  }

  /** The ids of the clips that meet a range. */
  function MetIds(clips: seq<Clip>, start: int, end: int): set<Id> {
    set c | c in clips && Meets(c, start, end) :: c.id
  }

  lemma MetIdsLast(clips: seq<Clip>, start: int, end: int)
    requires clips != []
    ensures var n := |clips| - 1;
            MetIds(clips, start, end) == MetIds(clips[..n], start, end) + if Meets(clips[n], start, end) then {clips[n].id} else {}
  {
    assert clips == clips[..|clips| - 1] + [clips[|clips| - 1]];
  }

  lemma {:induction false} CutsFrame(t: Timeline, cs: seq<Clip>, start: int, end: int, ripple: bool)
    requires start < end
    ensures OnlyClips(t, CutClips(t, cs, start, end, ripple)) && Left(t, CutClips(t, cs, start, end, ripple), MetIds(cs, start, end))
    decreases |cs|
  {
    if cs == [] {
      AllLeft(t);
      assert MetIds(cs, start, end) == {};
    } else {
      var n := |cs| - 1;
      var before := CutClips(t, cs[..n], start, end, ripple);
      CutsFrame(t, cs[..n], start, end, ripple);
      MetIdsLast(cs, start, end);
      if Meets(cs[n], start, end) {
        OneLeft(before, cs[n].id);
        BothLeft(t, before, CutClips(t, cs, start, end, ripple), MetIds(cs[..n], start, end), {cs[n].id});
      } else {
        assert MetIds(cs, start, end) == MetIds(cs[..n], start, end);
      }
    }
  }

  // ----- removing a range

  /** The ids of the clips of some tracks that meet a range. */
  function TouchedIds(clips: seq<Clip>, tracks: seq<string>, start: int, end: int): set<Id> {
    set c | c in clips && c.track in tracks && Meets(c, start, end) :: c.id
  }

  lemma RemovalFrame(t: Timeline, track: string, start: int, end: int, ripple: bool)
    requires start < end
    ensures Left(t, RemoveFromTrack(t, track, start, end, ripple), TouchedIds(t.clips, [track], start, end))
  {
    var cs := OnTrack(t.clips, track);
    CutsFrame(t, cs, start, end, ripple);
    forall c
      ensures c in cs <==> c in t.clips && c.track == track
    {
      Filtered((c: Clip) => c.track == track, t.clips, c);
    }
    assert MetIds(cs, start, end) == TouchedIds(t.clips, [track], start, end);
  }

  lemma TouchedLast(clips: seq<Clip>, before: seq<Clip>, tracks: seq<string>, start: int, end: int)
    requires tracks != [] && AgreeOn(clips, before, tracks[|tracks| - 1])
    ensures var n := |tracks| - 1;
            TouchedIds(clips, tracks, start, end) == TouchedIds(clips, tracks[..n], start, end) + TouchedIds(before, [tracks[n]], start, end)
  {
    var n := |tracks| - 1;
    assert tracks == tracks[..n] + [tracks[n]];
    assert forall c: Clip :: c.track == tracks[n] ==> (c in clips ==> c in clips + before) && (c in before ==> c in clips + before);
  }

  /** A transition goes exactly when it joins a clip of the named tracks that meets the range. */
  lemma {:induction false} RemovalsFrame(t: Timeline, tracks: seq<string>, start: int, end: int, ripple: bool)
    requires start < end && DistinctIds(t.clips) && FreshTracks(t, tracks, start, end, ripple)
    requires forall i, j :: 0 <= i < j < |tracks| ==> tracks[i] != tracks[j]
    requires RemoveFromTracks(t, tracks, start, end, ripple).Ok?
    ensures Left(t, RemoveFromTracks(t, tracks, start, end, ripple).value, TouchedIds(t.clips, tracks, start, end))
    decreases |tracks|
  {
    if tracks == [] {
      AllLeft(t);
      assert TouchedIds(t.clips, tracks, start, end) == {};
    } else {
      var n := |tracks| - 1;
      var before := RemoveFromTracks(t, tracks[..n], start, end, ripple).value;
      RemovalsFrame(t, tracks[..n], start, end, ripple);
      OtherTracksKept(t, tracks[..n], start, end, ripple, tracks[n]);
      TouchedLast(t.clips, before.clips, tracks, start, end);
      RemovalFrame(before, tracks[n], start, end, ripple);
      BothLeft(t, before, RemoveFromTrack(before, tracks[n], start, end, ripple),
               TouchedIds(t.clips, tracks[..n], start, end), TouchedIds(before.clips, [tracks[n]], start, end));
    }
  }

  /** Where a cue is after a range was removed from some tracks. */
  function CueAfter(x: Cue, tracks: seq<string>, start: int, end: int, ripple: bool): Cue {
    if ripple && x.track in tracks && x.start >= end then x.(start := x.start - (end - start)) else x
  }

  predicate CuesMoved(before: seq<Cue>, after: seq<Cue>, tracks: seq<string>, start: int, end: int, ripple: bool) {
    |after| == |before| && forall i :: 0 <= i < |before| ==> after[i] == CueAfter(before[i], tracks, start, end, ripple)
  }

  lemma {:induction false} CuesAfterRemovals(t: Timeline, tracks: seq<string>, start: int, end: int, ripple: bool)
    requires start < end && RemoveFromTracks(t, tracks, start, end, ripple).Ok?
    requires forall i, j :: 0 <= i < j < |tracks| ==> tracks[i] != tracks[j]
    ensures var u := RemoveFromTracks(t, tracks, start, end, ripple).value;
            u.sequence == t.sequence && u.tracks == t.tracks && CuesMoved(t.captions, u.captions, tracks, start, end, ripple)
    decreases |tracks|
  {
    if tracks == [] {
    } else {
      var n := |tracks| - 1;
      var before := RemoveFromTracks(t, tracks[..n], start, end, ripple).value;
      CuesAfterRemovals(t, tracks[..n], start, end, ripple);
      CutsKeepCues(before, OnTrack(before.clips, tracks[n]), start, end, ripple);
      forall i | 0 <= i < |t.captions|
        ensures RemoveFromTrack(before, tracks[n], start, end, ripple).captions[i] == CueAfter(t.captions[i], tracks, start, end, ripple)
      {
        CuesAfterRemoval(before, tracks[n], start, end, ripple, i);
        LastMember(tracks, t.captions[i].track);
      }
    }
  }

  // ----- inserting

  function MetBy(clips: seq<Clip>, p: Placement): set<Id> {
    TouchedIds(clips, [p.track], p.start, p.start + p.frames)
  }

  lemma OverlapIds(clips: seq<Clip>, p: Placement)
    ensures Ids(Overlapping(clips, p.track, p.start, p.start + p.frames)) == MetBy(clips, p)
  {
    OverlappingMembers(clips, p.track, p.start, p.start + p.frames);
  }

  /** Overwriting takes the transitions of the clips it drops; opening a gap takes none. */
  lemma InsertFrame(library: Library, t: Timeline, id: Id, p: Placement, mode: Mode)
    requires ApplyInsert(library, t, id, p, mode).Ok?
    ensures var u := ApplyInsert(library, t, id, p, mode).value;
            OnlyClips(t, u) && Left(t, u, if mode.Overwrite? then MetBy(t.clips, p) else {})
  {
    hide HasId, MutableTrack, PlacementFault, Overlapping, MetBy, Ids, StartsBefore;
    if mode.Overwrite? {
      ClearedFrame(t, Overlapping(t.clips, p.track, p.start, p.start + p.frames));
      OverlapIds(t.clips, p);
    } else {
      AllLeft(t);
    }
  }

  /** The ids of the clips that some placement covers. */
  function CoveredIds(clips: seq<Clip>, placements: seq<Placement>): set<Id> {
    set c | c in clips && Overwritten(c, placements, 0) :: c.id
  }

  /** A clip is covered by the last placement or by one before, whichever finds it still there. */
  lemma CoveredNow(library: Library, t: Timeline, placements: seq<Placement>, opId: Id, before: Timeline, id: Id)
    requires Good(t) && placements != [] && InsertAll(library, t, placements[..|placements| - 1], opId) == Ok(before) && HasId(t.clips, id)
    ensures var n := |placements| - 1;
            id in CoveredIds(t.clips, placements) <==> id in CoveredIds(t.clips, placements[..n]) || id in MetBy(before.clips, placements[n])
  {
    var n := |placements| - 1;
    var i :| 0 <= i < |t.clips| && t.clips[i].id == id;
    var c := t.clips[i];
    InsertAllGood(library, t, placements[..n], opId);
    OverwrittenLast(c, placements, 0);
    AfterPlacements(library, t, placements[..n], opId, c);
    forall d | d in t.clips && d.id == id
      ensures d == c
    {
      SameIdSameClip(t.clips, d, c);
    }
    if c in before.clips {
      forall d | d in before.clips && d.id == id
        ensures d == c
      {
        SameIdSameClip(before.clips, d, c);
      }
    }
  }

  lemma {:induction false} PlacementsFrame(library: Library, t: Timeline, placements: seq<Placement>, opId: Id)
    requires Good(t) && InsertAll(library, t, placements, opId).Ok?
    ensures var u := InsertAll(library, t, placements, opId).value;
            OnlyClips(t, u) && Left(t, u, CoveredIds(t.clips, placements))
    decreases |placements|
  {
    if placements == [] {
      AllLeft(t);
      assert CoveredIds(t.clips, placements) == {};
    } else {
      var n := |placements| - 1;
      var before, u := InsertAll(library, t, placements[..n], opId).value, InsertAll(library, t, placements, opId).value;
      PlacementsFrame(library, t, placements[..n], opId);
      InsertFrame(library, before, Derived(opId, Placed(n)), placements[n], Overwrite);
      BothLeft(t, before, u, CoveredIds(t.clips, placements[..n]), MetBy(before.clips, placements[n]));
      forall x | x in t.transitions
        ensures Unjoined(x, CoveredIds(t.clips, placements[..n]) + MetBy(before.clips, placements[n])) == Unjoined(x, CoveredIds(t.clips, placements))
      {
        CoveredNow(library, t, placements, opId, before, x.outgoing);
        CoveredNow(library, t, placements, opId, before, x.incoming);
      }
      SameLeft(t, u, CoveredIds(t.clips, placements[..n]) + MetBy(before.clips, placements[n]), CoveredIds(t.clips, placements));
    }
  }

  // ----- all operations

  /** The ids of the clips an operation takes away. Of a batch: those in the range, then those its placements cover. */
  function Gone(t: Timeline, op: Operation): set<Id> {
    match op
    case InsertClip(_, p, mode) => if mode.Overwrite? then MetBy(t.clips, p) else {}
    case RestoreClip(_, _, p) => MetBy(t.clips, p)
    case RemoveRange(tracks, r, _) => TouchedIds(t.clips, tracks, r.start, r.start + r.frames)
    case RemoveOne(id, _) => {id}
    case SplitClip(id, _, _, _) => {id}
    case BatchReplace(tracks, r, placements, ripple) =>
      var cleared := ApplyRemoveRange(t, tracks, r, ripple);
      TouchedIds(t.clips, tracks, r.start, r.start + r.frames) + if cleared.Ok? then CoveredIds(cleared.value.clips, placements) else {}
    case _ => {}
  }

  /** The captions after an operation: those before, but for a cue that is put and for cues a closed gap moves. */
  ghost predicate CuesFramed(t: Timeline, op: Operation, u: Timeline) {
    match op
    case UpsertCaption(cue) =>
      u.captions != [] && u.captions[|u.captions| - 1] == cue &&
      Sifted(t.captions, u.captions[..|u.captions| - 1], (x: Cue) => x.id != cue.id)
    case RemoveRange(tracks, r, ripple) => CuesMoved(t.captions, u.captions, tracks, r.start, r.start + r.frames, ripple)
    case BatchReplace(tracks, r, _, ripple) => CuesMoved(t.captions, u.captions, tracks, r.start, r.start + r.frames, ripple)
    case _ => u.captions == t.captions
  }

  /** The transitions after it: those before that join none of the clips gone, but for the one that is set. */
  ghost predicate TransitionsFramed(t: Timeline, op: Operation, u: Timeline) {
    match op
    case SetTransition(outgoing, incoming, transition) =>
      if transition.Some? then
        u.transitions != [] && u.transitions[|u.transitions| - 1] == transition.value &&
        Sifted(t.transitions, u.transitions[..|u.transitions| - 1], (x: Transition) => !(x.outgoing == outgoing && x.incoming == incoming))
      else Sifted(t.transitions, u.transitions, (x: Transition) => !(x.outgoing == outgoing && x.incoming == incoming))
    case _ => Sifted(t.transitions, u.transitions, (x: Transition) => Unjoined(x, Gone(t, op)))
  }

  lemma LeftSifts(t: Timeline, u: Timeline, gone: set<Id>)
    requires Left(t, u, gone)
    ensures Sifted(t.transitions, u.transitions, (x: Transition) => Unjoined(x, gone))
  {
    FilterSifts((x: Transition) => Unjoined(x, gone), t.transitions);
  }

  lemma RangeFramed(t: Timeline, tracks: seq<string>, r: SequenceRange, ripple: bool, u: Timeline)
    requires DistinctIds(t.clips) && FreshRange(t, tracks, r, ripple) && ApplyRemoveRange(t, tracks, r, ripple) == Ok(u)
    ensures u.sequence == t.sequence && u.tracks == t.tracks
    ensures CuesMoved(t.captions, u.captions, tracks, r.start, r.start + r.frames, ripple)
    ensures Left(t, u, TouchedIds(t.clips, tracks, r.start, r.start + r.frames))
  {
    hide FreshTracks, RemoveFromTracks, Unique, Left, DistinctIds;
    RangeIsTracks(t, tracks, r, ripple, u);
    UniqueHasEach(tracks);
    RemovalsFrame(t, Unique(tracks), r.start, r.start + r.frames, ripple);
    CuesAfterRemovals(t, Unique(tracks), r.start, r.start + r.frames, ripple);
    assert TouchedIds(t.clips, Unique(tracks), r.start, r.start + r.frames) == TouchedIds(t.clips, tracks, r.start, r.start + r.frames);
  }

  ghost predicate Framed(t: Timeline, op: Operation, u: Timeline) {
    u.sequence == t.sequence && u.tracks == t.tracks && CuesFramed(t, op, u) && TransitionsFramed(t, op, u)
  }

  lemma BatchLeft(library: Library, t: Timeline, tracks: seq<string>, r: SequenceRange, ripple: bool, placements: seq<Placement>, opId: Id,
                  cleared: Timeline, u: Timeline)
    requires Good(t) && FreshRange(t, tracks, r, ripple)
    requires ApplyRemoveRange(t, tracks, r, ripple) == Ok(cleared) && InsertAll(library, cleared, placements, opId) == Ok(u)
    ensures u.sequence == t.sequence && u.tracks == t.tracks
    ensures CuesMoved(t.captions, u.captions, tracks, r.start, r.start + r.frames, ripple)
    ensures Left(t, u, TouchedIds(t.clips, tracks, r.start, r.start + r.frames) + CoveredIds(cleared.clips, placements))
  {
    hide FreshRange, ApplyRemoveRange, InsertAll, Left, CuesMoved, TouchedIds, CoveredIds;
    RangeFramed(t, tracks, r, ripple, cleared);
    ApplyRemoveRangeGood(t, tracks, r, ripple);
    PlacementsFrame(library, cleared, placements, opId);
    BothLeft(t, cleared, u, TouchedIds(t.clips, tracks, r.start, r.start + r.frames), CoveredIds(cleared.clips, placements));
  }

  lemma BatchFramed(library: Library, t: Timeline, op: Operation, opId: Id, u: Timeline)
    requires op.BatchReplace? && Good(t) && FreshFor(t, op) && ApplyBatchReplace(library, t, op, opId) == Ok(u)
    ensures Framed(t, op, u)
  {
    hide Good, FreshRange, ApplyRemoveRange, InsertAll, Left, CuesMoved, TouchedIds, CoveredIds, Sifted;
    var cleared := ApplyRemoveRange(t, op.tracks, op.range, op.ripple).value;
    BatchLeft(library, t, op.tracks, op.range, op.ripple, op.placements, opId, cleared, u);
    LeftSifts(t, u, Gone(t, op));
  }

  lemma SetFramed(library: Library, t: Timeline, op: Operation, opId: Id, u: Timeline)
    requires (op.SetTransition? || op.UpsertCaption?) && Apply(library, t, op, opId).Ok? && Apply(library, t, op, opId).value.timeline == u
    ensures Framed(t, op, u)
  {
    match op
    case SetTransition(outgoing, incoming, transition) =>
      var others := Filter((x: Transition) => x.outgoing != outgoing || x.incoming != incoming, t.transitions);
      FilterAgrees((x: Transition) => x.outgoing != outgoing || x.incoming != incoming,
                   (x: Transition) => !(x.outgoing == outgoing && x.incoming == incoming), t.transitions);
      FilterSifts((x: Transition) => !(x.outgoing == outgoing && x.incoming == incoming), t.transitions);
      if transition.Some? { assert u.transitions[..|u.transitions| - 1] == others; }
    case UpsertCaption(cue) =>
      FilterSifts((x: Cue) => x.id != cue.id, t.captions);
      assert u.captions[..|u.captions| - 1] == Filter((x: Cue) => x.id != cue.id, t.captions);
      AllLeft(t);
      LeftSifts(t, u, {});
  }

  lemma ClipFramed(library: Library, t: Timeline, op: Operation, opId: Id, u: Timeline)
    requires Apply(library, t, op, opId).Ok? && Apply(library, t, op, opId).value.timeline == u
    requires !op.SetTransition? && !op.UpsertCaption? && !op.RemoveRange? && !op.BatchReplace?
    ensures OnlyClips(t, u) && Left(t, u, Gone(t, op))
  {
    hide HasId, MutableTrack, PlacementFault, MetBy, OverlapFault, TimedSource, TrimmedSource;
    AllLeft(t);
    match op
    case InsertClip(clip, p, mode) => InsertFrame(library, t, IdOr(clip, opId, Inserted), p, mode);
    case RestoreClip(_, from, p) => InsertFrame(library, t, Derived(opId, Restored(from)), p, Overwrite);
    case RemoveOne(id, _) => OneLeft(t, id);
    case SplitClip(id, _, _, _) => OneLeft(t, id);
    case _ =>
  }

  lemma RangesFramed(library: Library, t: Timeline, op: Operation, opId: Id, u: Timeline)
    requires (op.RemoveRange? || op.BatchReplace?) && Good(t) && FreshFor(t, op)
    requires Apply(library, t, op, opId).Ok? && Apply(library, t, op, opId).value.timeline == u
    ensures Framed(t, op, u)
  {
    hide Sifted, CuesMoved, TouchedIds, CoveredIds, ApplyRemoveRange, InsertAll, FreshRange, Left, Unjoined;
    if op.BatchReplace? {
      BatchFramed(library, t, op, opId, u);
    } else {
      RangeFramed(t, op.tracks, op.range, op.ripple, u);
      LeftSifts(t, u, Gone(t, op));
    }
  }

  lemma OneClipFramed(library: Library, t: Timeline, op: Operation, opId: Id, u: Timeline)
    requires Apply(library, t, op, opId).Ok? && Apply(library, t, op, opId).value.timeline == u
    requires !op.SetTransition? && !op.UpsertCaption? && !op.RemoveRange? && !op.BatchReplace?
    ensures Framed(t, op, u)
  {
    hide Apply, Sifted, Gone, Left, Unjoined;
    ClipFramed(library, t, op, opId, u);
    LeftSifts(t, u, Gone(t, op));
  }

  /**
   Whatever the operation, the sequence and its tracks stay, captions are the same list but for a cue
   that is put and for cues a closed gap moves, and the transitions left are those that join no clip
   the operation took away, in their order, but for the one that is set.
   */
  lemma FrameOfOperation(library: Library, t: Timeline, op: Operation, opId: Id)
    requires Good(t) && FreshFor(t, op) && Apply(library, t, op, opId).Ok?
    ensures Framed(t, op, Apply(library, t, op, opId).value.timeline)
  {
    hide *;
    var u := Apply(library, t, op, opId).value.timeline;
    if op.SetTransition? || op.UpsertCaption? {
      SetFramed(library, t, op, opId, u);
    } else if op.BatchReplace? || op.RemoveRange? {
      RangesFramed(library, t, op, opId, u);
    } else {
      OneClipFramed(library, t, op, opId, u);
    }
  }
}
