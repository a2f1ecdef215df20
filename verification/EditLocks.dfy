/**
 What a lock protects (mutableTrack, src/edits.ts): an accepted operation changes nothing on a locked
 track, but for two that do not ask for the lock of what they change.
 */
module EditLocks {
  import opened Wrappers
  import opened Collections
  import opened Timelines
  import opened Edits
  import opened RangeRemoval
  import opened EditSafety
  import opened EditMeaning
  import opened EditKeeps
  import EditLaws
  import opened RemovalChecks
  import opened EditFrames
  import opened EditAnswers

  predicate ClipsKept(t: Timeline, u: Timeline, track: string) {
    && (forall p :: p in t.clips && p.track == track ==> p in u.clips)
    && (forall p :: p in u.clips && p.track == track ==> p in t.clips)
  }

  predicate CuesKept(t: Timeline, u: Timeline, track: string) {
    && (forall x :: x in t.captions && x.track == track ==> x in u.captions)
    && (forall x :: x in u.captions && x.track == track ==> x in t.captions)
  }

  predicate TransitionsKept(t: Timeline, u: Timeline, track: string) {
    && (forall x :: x in t.transitions && x.track == track ==> x in u.transitions)
    && (forall x :: x in u.transitions && x.track == track ==> x in t.transitions)
  }

  /** The clips, cues and transitions of the track are the same. */
  predicate TrackKept(t: Timeline, u: Timeline, track: string) {
    ClipsKept(t, u, track) && CuesKept(t, u, track) && TransitionsKept(t, u, track)
  }

  /** A timeline in order with a locked track. */
  predicate Holding(t: Timeline, locked: Track) {
    Good(t) && DistinctTracks(t.tracks) && locked in t.tracks && locked.locked
  }

  lemma NotTheLocked(t: Timeline, locked: Track, id: string)
    requires Holding(t, locked) && MutableTrack(t, id).Ok?
    ensures id != locked.id
  {
    TrackFound(t, locked);
  }

  // ----- transitions and cues

  /** No clip of the locked track is among the gone, so none of its transitions is. */
  lemma LinksStay(t: Timeline, u: Timeline, locked: Track, gone: set<Id>)
    requires Holding(t, locked) && LinksOk(t) && Sifted(t.transitions, u.transitions, (x: Transition) => Unjoined(x, gone))
    requires forall c :: c in t.clips && c.track == locked.id ==> c.id !in gone
    ensures TransitionsKept(t, u, locked.id)
  {
    forall x | x in t.transitions || x in u.transitions
      ensures x in u.transitions <==> x in t.transitions && Unjoined(x, gone)
    {
      SiftedMembers(t.transitions, u.transitions, (x: Transition) => Unjoined(x, gone), x);
    }
    forall x | x in t.transitions && x.track == locked.id
      ensures Unjoined(x, gone)
    {
      var a := TheClip(t, x.outgoing);
      var b := TheClip(t, x.incoming);
    }
  }

  lemma TouchedElsewhere(t: Timeline, locked: Track, tracks: seq<string>, start: int, end: int)
    requires Holding(t, locked) && locked.id !in tracks
    ensures forall c :: c in t.clips && c.track == locked.id ==> c.id !in TouchedIds(t.clips, tracks, start, end)
  {
    forall c | c in t.clips && c.track == locked.id
      ensures c.id !in TouchedIds(t.clips, tracks, start, end)
    {
      forall d | d in t.clips && d.id == c.id
        ensures d == c
      {
        SameIdSameClip(t.clips, d, c);
      }
    }
  }

  lemma CuesElsewhere(before: seq<Cue>, after: seq<Cue>, tracks: seq<string>, start: int, end: int, ripple: bool, track: string)
    requires CuesMoved(before, after, tracks, start, end, ripple) && track !in tracks
    ensures forall x :: x in before && x.track == track ==> x in after
    ensures forall x :: x in after && x.track == track ==> x in before
  {
    forall x | x in before && x.track == track
      ensures x in after
    {
      var i :| 0 <= i < |before| && before[i] == x;
      assert after[i] == x;
    }
    forall x | x in after && x.track == track
      ensures x in before
    {
      var i :| 0 <= i < |after| && after[i] == x;
      assert CueAfter(before[i], tracks, start, end, ripple) == x && before[i].track == track;
    }
  }

  // ----- clips

  lemma PutElsewhere(t: Timeline, i: nat, d: Clip, track: string)
    requires i < |t.clips| && t.clips[i].track != track && d.track != track
    ensures ClipsKept(t, PutClip(t, i, d), track)
  {
    var u := PutClip(t, i, d);
    forall p | p in t.clips && p.track == track
      ensures p in u.clips
    {
      var j :| 0 <= j < |t.clips| && t.clips[j] == p;
      assert u.clips[j] == p;
    }
  }

  lemma InsertElsewhere(library: Library, t: Timeline, id: Id, p: Placement, mode: Mode, locked: Track)
    requires Holding(t, locked) && ApplyInsert(library, t, id, p, mode).Ok?
    ensures p.track != locked.id && ClipsKept(t, ApplyInsert(library, t, id, p, mode).value, locked.id)
  {
    var u := ApplyInsert(library, t, id, p, mode).value;
    NotTheLocked(t, locked, p.track);
    forall q: Clip | q.track == locked.id && (q in t.clips || q in u.clips)
      ensures q in t.clips <==> q in u.clips
    {
      if mode.Overwrite? { OverwriteMeans(library, t, id, p, q); } else { InsertMeans(library, t, id, p, q); }
    }
  }

  lemma AllOthers(t: Timeline, tracks: seq<string>, locked: Track)
    requires Holding(t, locked) && AllUnlocked(t, tracks)
    ensures locked.id !in tracks
  {
    assert DistinctTracks(t.tracks) && locked in t.tracks;
  }

  lemma RangeElsewhere(t: Timeline, tracks: seq<string>, r: SequenceRange, ripple: bool, u: Timeline, locked: Track)
    requires Holding(t, locked) && FreshRange(t, tracks, r, ripple) && ApplyRemoveRange(t, tracks, r, ripple) == Ok(u)
    ensures locked.id !in tracks && ClipsKept(t, u, locked.id)
  {
    hide FreshTracks, RemoveFromTracks;
    RangeAnswers(t, tracks, r, ripple);
    AllOthers(t, tracks, locked);
    RangeIsTracks(t, tracks, r, ripple, u);
    UniqueHasEach(tracks);
    OtherTracksKept(t, Unique(tracks), r.start, r.start + r.frames, ripple, locked.id);
    assert forall p: Clip :: p in t.clips || p in u.clips ==> p in t.clips + u.clips;
  }

  predicate OnUnlocked(tracks: seq<Track>, p: Placement) {
    exists track :: track in tracks && track.id == p.track && !track.locked
  }

  predicate AllOnUnlocked(tracks: seq<Track>, placements: seq<Placement>) {
    forall k :: 0 <= k < |placements| ==> OnUnlocked(tracks, placements[k])
  }

  lemma InsertsOnUnlocked(library: Library, t: Timeline, id: Id, p: Placement, mode: Mode)
    requires ApplyInsert(library, t, id, p, mode).Ok?
    ensures OnUnlocked(t.tracks, p) && ApplyInsert(library, t, id, p, mode).value.tracks == t.tracks
  {
    InsertFrame(library, t, id, p, mode);
  }

  lemma OneMoreOnUnlocked(tracks: seq<Track>, placements: seq<Placement>)
    requires placements != [] && AllOnUnlocked(tracks, placements[..|placements| - 1]) && OnUnlocked(tracks, placements[|placements| - 1])
    ensures AllOnUnlocked(tracks, placements)
  {
    var n := |placements| - 1;
    assert forall k :: 0 <= k < n ==> placements[k] == placements[..n][k];
  }

  /** Placements are accepted on unlocked tracks only. */
  lemma {:induction false} PlacedElsewhere(library: Library, t: Timeline, placements: seq<Placement>, opId: Id)
    requires InsertAll(library, t, placements, opId).Ok?
    ensures InsertAll(library, t, placements, opId).value.tracks == t.tracks && AllOnUnlocked(t.tracks, placements)
    decreases |placements|
  {
    if placements == [] {
    } else {
      hide ApplyInsert, OnUnlocked, AllOnUnlocked;
      var n := |placements| - 1;
      PlacedElsewhere(library, t, placements[..n], opId);
      InsertsOnUnlocked(library, InsertAll(library, t, placements[..n], opId).value, Derived(opId, Placed(n)), placements[n], Overwrite);
      OneMoreOnUnlocked(t.tracks, placements);
    }
  }

  lemma NotOverwritten(library: Library, t: Timeline, placements: seq<Placement>, opId: Id, locked: Track, p: Clip)
    requires Holding(t, locked) && InsertAll(library, t, placements, opId).Ok? && p.track == locked.id
    ensures !Overwritten(p, placements, 0) && !LastPlaced(placements, opId, p)
  {
    PlacedElsewhere(library, t, placements, opId);
    forall k | 0 <= k < |placements|
      ensures placements[k].track != locked.id
    {
      assert OnUnlocked(t.tracks, placements[k]) && DistinctTracks(t.tracks) && locked in t.tracks;
    }
  }

  lemma BatchElsewhere(library: Library, t: Timeline, placements: seq<Placement>, opId: Id, u: Timeline, locked: Track)
    requires Holding(t, locked) && InsertAll(library, t, placements, opId) == Ok(u)
    ensures ClipsKept(t, u, locked.id)
    ensures forall c :: c in t.clips && c.track == locked.id ==> c.id !in CoveredIds(t.clips, placements)
  {
    forall p: Clip | p.track == locked.id
      ensures p in t.clips <==> p in u.clips
      ensures !Overwritten(p, placements, 0)
    {
      AfterPlacements(library, t, placements, opId, p);
      NotOverwritten(library, t, placements, opId, locked, p);
    }
    forall c | c in t.clips && c.track == locked.id
      ensures c.id !in CoveredIds(t.clips, placements)
    {
      forall d | d in t.clips && d.id == c.id
        ensures d == c
      {
        SameIdSameClip(t.clips, d, c);
      }
    }
  }

  // ----- all operations

  /** A transform asks for no lock, and putting a cue asks for the lock of its new track, not of the one it leaves. */
  predicate Spares(t: Timeline, op: Operation, track: string) {
    && (op.SetTransform? ==> forall c :: c in t.clips && c.id == op.transformed ==> c.track != track || c.transform == Some(op.transform))
    && (op.UpsertCaption? ==> forall x :: x in t.captions && x.id == op.cue.id ==> x.track != track)
  }

  lemma TransformSpares(library: Library, t: Timeline, op: Operation, opId: Id, u: Timeline, locked: Track)
    requires Holding(t, locked) && op.SetTransform? && Apply(library, t, op, opId).Ok? && u == Apply(library, t, op, opId).value.timeline
    ensures ClipsKept(t, u, locked.id) <==> Spares(t, op, locked.id)
  {
    var i := IndexOf(t.clips, op.transformed).value;
    var c := t.clips[i];
    var d := c.(transform := Some(op.transform));
    forall x | x in t.clips && x.id == op.transformed
      ensures x == c
    {
      SameIdSameClip(t.clips, x, c);
    }
    if c.track != locked.id {
      PutElsewhere(t, i, d, locked.id);
    } else if d != c {
      assert c in t.clips && c !in u.clips;
    } else {
      assert t.clips[i := c] == t.clips;
    }
  }

  lemma CaptionSpares(library: Library, t: Timeline, op: Operation, opId: Id, u: Timeline, locked: Track)
    requires Holding(t, locked) && op.UpsertCaption? && Apply(library, t, op, opId).Ok? && u == Apply(library, t, op, opId).value.timeline
    ensures CuesKept(t, u, locked.id) <==> Spares(t, op, locked.id)
  {
    NotTheLocked(t, locked, op.cue.track);
    forall x
      ensures x in u.captions <==> if x.id == op.cue.id then x == op.cue else x in t.captions
    {
      EditLaws.CaptionMeans(library, t, op.cue, x);
    }
  }

  lemma OneClipElsewhere(t: Timeline, id: Id, locked: Track)
    requires Holding(t, locked) && HasId(t.clips, id) && MutableTrack(t, t.clips[IndexOf(t.clips, id).value].track).Ok?
    ensures forall c :: c in t.clips && c.track == locked.id ==> c.id != id
  {
    var c := TheClip(t, id);
    NotTheLocked(t, locked, c.track);
  }

  /** Operations that change one clip in its place, on a track that must be unlocked. */
  lemma ChangedElsewhere(library: Library, t: Timeline, op: Operation, opId: Id, u: Timeline, locked: Track)
    requires Holding(t, locked) && Apply(library, t, op, opId).Ok? && u == Apply(library, t, op, opId).value.timeline
    requires op.MoveClip? || op.TrimClip? || op.SetAudio? || op.SetSpeed?
    ensures ClipsKept(t, u, locked.id)
  {
    match op
    case MoveClip(id, track, start) =>
      var i := IndexOf(t.clips, id).value;
      NotTheLocked(t, locked, t.clips[i].track);
      NotTheLocked(t, locked, track);
      PutElsewhere(t, i, u.clips[i], locked.id);
    case TrimClip(id, start, frames, range) =>
      var i := IndexOf(t.clips, id).value;
      NotTheLocked(t, locked, t.clips[i].track);
      EditLaws.TrimMeans(library, t, id, start, frames, range);
      PutElsewhere(t, i, u.clips[i], locked.id);
    case SetAudio(id, audio) =>
      var i := IndexOf(t.clips, id).value;
      NotTheLocked(t, locked, t.clips[i].track);
      PutElsewhere(t, i, u.clips[i], locked.id);
    case SetSpeed(id, _, _, _) =>
      var i := IndexOf(t.clips, id).value;
      NotTheLocked(t, locked, t.clips[i].track);
      PutElsewhere(t, i, u.clips[i], locked.id);
  }

  lemma RemovedElsewhere(t: Timeline, id: Id, ripple: bool, u: Timeline, locked: Track)
    requires Holding(t, locked) && ApplyRemoveOne(t, id, ripple) == Ok(u)
    ensures ClipsKept(t, u, locked.id)
  {
    OneClipElsewhere(t, id, locked);
    forall p: Clip | p.track == locked.id
      ensures p in t.clips <==> p in u.clips
    {
      RemoveOneMeans(t, id, ripple, p);
      var c := t.clips[IndexOf(t.clips, id).value];
      NotTheLocked(t, locked, c.track);
    }
  }

  lemma SplitElsewhere(t: Timeline, op: Operation, opId: Id, u: Timeline, locked: Track)
    requires Holding(t, locked) && op.SplitClip? && ApplySplit(t, op, opId).Ok? && u == ApplySplit(t, op, opId).value.timeline
    ensures ClipsKept(t, u, locked.id)
  {
    OneClipElsewhere(t, op.split, locked);
    var c := t.clips[IndexOf(t.clips, op.split).value];
    NotTheLocked(t, locked, c.track);
    forall p: Clip | p.track == locked.id
      ensures p in t.clips <==> p in u.clips
    {
      SplitMeans(t, op, opId, p);
    }
  }

  lemma RangesElsewhere(library: Library, t: Timeline, op: Operation, opId: Id, u: Timeline, locked: Track)
    requires Holding(t, locked) && FreshFor(t, op) && Apply(library, t, op, opId).Ok? && u == Apply(library, t, op, opId).value.timeline
    requires op.RemoveRange? || op.BatchReplace?
    ensures ClipsKept(t, u, locked.id)
    ensures forall c :: c in t.clips && c.track == locked.id ==> c.id !in Gone(t, op)
    ensures locked.id !in op.tracks
  {
    var r := op.range;
    var cleared := ApplyRemoveRange(t, op.tracks, r, op.ripple).value;
    RangeElsewhere(t, op.tracks, r, op.ripple, cleared, locked);
    TouchedElsewhere(t, locked, op.tracks, r.start, r.start + r.frames);
    if op.BatchReplace? {
      ApplyRemoveRangeGood(t, op.tracks, r, op.ripple);
      BatchElsewhere(library, cleared, op.placements, opId, u, locked);
    }
  }

  lemma InsertsElsewhere(library: Library, t: Timeline, op: Operation, opId: Id, u: Timeline, locked: Track)
    requires Holding(t, locked) && Apply(library, t, op, opId).Ok? && u == Apply(library, t, op, opId).value.timeline
    requires op.InsertClip? || op.RestoreClip?
    ensures ClipsKept(t, u, locked.id)
    ensures forall c :: c in t.clips && c.track == locked.id ==> c.id !in Gone(t, op)
  {
    match op
    case InsertClip(clip, p, mode) =>
      InsertElsewhere(library, t, IdOr(clip, opId, Inserted), p, mode, locked);
      TouchedElsewhere(t, locked, [p.track], p.start, p.start + p.frames);
    case RestoreClip(_, from, p) =>
      InsertElsewhere(library, t, Derived(opId, Restored(from)), p, Overwrite, locked);
      TouchedElsewhere(t, locked, [p.track], p.start, p.start + p.frames);
  }

  /** Where the clips of the locked track are kept, and are not among the gone. */
  lemma ClipsSpared(library: Library, t: Timeline, op: Operation, opId: Id, u: Timeline, locked: Track)
    requires Holding(t, locked) && FreshFor(t, op) && Apply(library, t, op, opId).Ok? && u == Apply(library, t, op, opId).value.timeline
    ensures ClipsKept(t, u, locked.id) <==> op.UpsertCaption? || Spares(t, op, locked.id)
    ensures forall c :: c in t.clips && c.track == locked.id ==> c.id !in Gone(t, op)
  {
    hide Good, Holding, FreshFor;
    if op.InsertClip? || op.RestoreClip? {
      InsertsElsewhere(library, t, op, opId, u, locked);
    } else if op.RemoveRange? || op.BatchReplace? {
      RangesElsewhere(library, t, op, opId, u, locked);
    } else if op.RemoveOne? {
      RemovedElsewhere(t, op.removed, op.ripple, u, locked);
      OneClipElsewhere(t, op.removed, locked);
    } else if op.SplitClip? {
      SplitElsewhere(t, op, opId, u, locked);
      OneClipElsewhere(t, op.split, locked);
    } else if op.SetTransform? {
      TransformSpares(library, t, op, opId, u, locked);
    } else if op.SetTransition? || op.UpsertCaption? {
    } else {
      ChangedElsewhere(library, t, op, opId, u, locked);
    }
  }

  lemma CuesSpared(library: Library, t: Timeline, op: Operation, opId: Id, u: Timeline, locked: Track)
    requires Holding(t, locked) && FreshFor(t, op) && Apply(library, t, op, opId).Ok? && u == Apply(library, t, op, opId).value.timeline
    ensures CuesKept(t, u, locked.id) <==> !op.UpsertCaption? || Spares(t, op, locked.id)
  {
    FrameOfOperation(library, t, op, opId);
    if op.UpsertCaption? {
      CaptionSpares(library, t, op, opId, u, locked);
    } else if op.RemoveRange? || op.BatchReplace? {
      RangesElsewhere(library, t, op, opId, u, locked);
      CuesElsewhere(t.captions, u.captions, op.tracks, op.range.start, op.range.start + op.range.frames, op.ripple, locked.id);
    }
  }

  /** A transition that is set or cleared is one of an unlocked track. */
  lemma PairElsewhere(t: Timeline, outgoing: Id, incoming: Id, transition: Option<Transition>, u: Timeline, locked: Track)
    requires Holding(t, locked) && LinksOk(t) && ApplyTransition(t, outgoing, incoming, transition) == Ok(u)
    ensures TransitionsKept(t, u, locked.id)
  {
    var from := TheClip(t, outgoing);
    NotTheLocked(t, locked, from.track);
    forall x: Transition | x.track == locked.id
      ensures x in t.transitions <==> x in u.transitions
    {
      Filtered((x: Transition) => x.outgoing != outgoing || x.incoming != incoming, t.transitions, x);
    }
  }

  lemma TransitionsSpared(library: Library, t: Timeline, op: Operation, opId: Id, u: Timeline, locked: Track)
    requires Holding(t, locked) && LinksOk(t) && FreshFor(t, op)
    requires Apply(library, t, op, opId).Ok? && u == Apply(library, t, op, opId).value.timeline
    ensures TransitionsKept(t, u, locked.id)
  {
    if op.SetTransition? {
      PairElsewhere(t, op.outgoing, op.incoming, op.transition, u, locked);
    } else {
      FrameOfOperation(library, t, op, opId);
      ClipsSpared(library, t, op, opId, u, locked);
      LinksStay(t, u, locked, Gone(t, op));
    }
  }

  /**
   An accepted operation leaves a locked track as it is, with two exceptions: a transform is put on its
   clips, and a cue put on another track leaves it.
   */
  lemma LockedTrackKeptIff(library: Library, t: Timeline, op: Operation, opId: Id, locked: Track)
    requires Holding(t, locked) && LinksOk(t) && FreshFor(t, op) && Apply(library, t, op, opId).Ok?
    ensures TrackKept(t, Apply(library, t, op, opId).value.timeline, locked.id) <==> Spares(t, op, locked.id)
  {
    var u := Apply(library, t, op, opId).value.timeline;
    ClipsSpared(library, t, op, opId, u, locked);
    CuesSpared(library, t, op, opId, u, locked);
    TransitionsSpared(library, t, op, opId, u, locked);
  }

  // ----- inputs for both exceptions

  const LOCKED := Track("l", "s", Caption, true)

  const HELD := Cue("c", "l", 0, 10, "x", "x", None)

  /** A cue of a locked caption track, and an open caption track beside it. */
  const BOTH := Timeline("s", [LOCKED, Track("o", "s", Caption, false)], [], [], [HELD])

  /** Put again on the open track, the cue is taken off the locked one. */
  lemma LockedCueIsTaken(library: Library, opId: Id)
    ensures Holding(BOTH, LOCKED) && LinksOk(BOTH)
    ensures var r := Apply(library, BOTH, UpsertCaption(HELD.(track := "o")), opId);
            r.Ok? && r.value.timeline.captions == [HELD.(track := "o")] && !TrackKept(BOTH, r.value.timeline, LOCKED.id)
  {
    var cue := HELD.(track := "o");
    assert !Whitespace("x"[0]);
    TrackFound(BOTH, BOTH.tracks[1]);
    EditLaws.LastFiltered((x: Cue) => x.id != cue.id, [], HELD);
    assert BOTH.captions == [] + [HELD];
    assert HELD in BOTH.captions && [cue][0] == cue;
  }

  /** A transform is put on a clip of a locked track. */
  lemma LockedClipIsTransformed(library: Library, opId: Id, c: Clip, locked: Track, x: Transform)
    requires c.start >= 0 && locked.locked && locked.id == c.track && TransformInOrder(x) && c.transform != Some(x)
    ensures var t := Timeline(locked.sequence, [locked], [c], [], []);
            var r := Apply(library, t, SetTransform(c.id, x), opId);
            Holding(t, locked) && LinksOk(t) && r.Ok? && !TrackKept(t, r.value.timeline, locked.id)
  {
    var t := Timeline(locked.sequence, [locked], [c], [], []);
    TransformAnswers(t, c, x);
    var u := Apply(library, t, SetTransform(c.id, x), opId).value.timeline;
    assert u.clips == [c.(transform := Some(x))] && c in t.clips && c !in u.clips;
  }
}
