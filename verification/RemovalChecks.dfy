/**
 When removing a range passes the final check (validateSequenceProjection, src/edits.ts). A cut
 takes the ticks of a piece by floor division, so a piece of a coarse source can be left with
 none; unlike a split, a removal does not look, and the final check refuses the whole intent.
 */
module RemovalChecks {
  import opened Wrappers
  import opened Slices
  import opened Timelines
  import opened Edits
  import opened RangeRemoval
  import opened EditSafety
  import opened EditMeaning

  /** The pieces a cut leaves of a timed clip show at least one tick each. */
  predicate KeepsTicks(c: Clip, start: int, end: int) {
    c.source.Timed? ==>
      && (c.start < start ==> TicksBefore(SpanOf(c), start - c.start) >= 1)
      && (EndOf(c) > end ==> TicksBefore(SpanOf(c), end - c.start) < c.source.range.ticks)
  }

  predicate PiecesShowTicks(clips: seq<Clip>, tracks: seq<string>, start: int, end: int) {
    forall c :: c in clips && c.track in tracks && Meets(c, start, end) ==> KeepsTicks(c, start, end)
  }

  // ----- the final check, said of all clips, transitions and cues

  lemma {:induction false} ClipFaultsNone(library: Library, t: Timeline, n: nat)
    requires n <= |t.clips| && forall i :: 0 <= i < n ==> ClipFault(library, t, i).None?
    ensures ClipFaults(library, t, n).None?
    decreases n
  {
    if n == 0 {
    } else {
      ClipFaultsNone(library, t, n - 1);
    }
  }

  lemma {:induction false} TransitionFaultsNone(t: Timeline, n: nat)
    requires n <= |t.transitions| && forall i :: 0 <= i < n ==> TransitionFault(t, t.transitions[i]).None?
    ensures TransitionFaults(t, n).None?
    decreases n
  {
    if n == 0 {
    } else {
      TransitionFaultsNone(t, n - 1);
    }
  }

  lemma {:induction false} CueFaultsNone(t: Timeline, n: nat)
    requires n <= |t.captions| && forall i :: 0 <= i < n ==> CueFault(t, t.captions[i]).None?
    ensures CueFaults(t, n).None?
    decreases n
  {
    if n == 0 {
    } else {
      CueFaultsNone(t, n - 1);
    }
  }

  lemma {:induction false} NoCueFault(t: Timeline, i: nat, n: nat)
    requires i < n <= |t.captions| && CueFaults(t, n).None?
    ensures CueFault(t, t.captions[i]).None?
    decreases n
  {
    if i == n - 1 {
    } else {
      NoCueFault(t, i, n - 1);
    }
  }

  /** A clip passes as far as it does not depend on the other clips. */
  predicate ClipOk(library: Library, t: Timeline, c: Clip) {
    var track := FindTrack(t.tracks, c.track);
    track.Some? && PlacementFault(library, t, track.value, PlacementFromClip(c)).None?
  }

  predicate ClipsOk(library: Library, t: Timeline) {
    forall c :: c in t.clips ==> ClipOk(library, t, c)
  }

  predicate LinksOk(t: Timeline) {
    forall x, c :: x in t.transitions && c in t.clips && (c.id == x.outgoing || c.id == x.incoming) ==> c.track == x.track
  }

  predicate CuesPlaced(t: Timeline) {
    forall i :: 0 <= i < |t.captions| ==> CueFault(t, t.captions[i]).None?
  }

  lemma ClipPart(library: Library, t: Timeline)
    requires Good(t)
    ensures ClipFaults(library, t, |t.clips|).None? <==> ClipsOk(library, t)
  {
    forall i | 0 <= i < |t.clips|
      ensures ClipFault(library, t, i).None? <==> ClipOk(library, t, t.clips[i])
    {
      FinalCheckAgrees(library, t, i);
    }
    if ClipsOk(library, t) {
      ClipFaultsNone(library, t, |t.clips|);
    }
    if ClipFaults(library, t, |t.clips|).None? {
      forall i | 0 <= i < |t.clips|
        ensures ClipOk(library, t, t.clips[i])
      {
        NoClipFault(library, t, i, |t.clips|);
      }
    }
  }

  lemma LinkOk(t: Timeline, x: Transition)
    requires Good(t) && x in t.transitions
    ensures TransitionFault(t, x).None? <==>
              forall c :: c in t.clips && (c.id == x.outgoing || c.id == x.incoming) ==> c.track == x.track
  {
    var a, b := t.clips[IndexOf(t.clips, x.outgoing).value], t.clips[IndexOf(t.clips, x.incoming).value];
    forall c | c in t.clips && (c.id == x.outgoing || c.id == x.incoming)
      ensures c == a || c == b
    {
      SameIdSameClip(t.clips, c, if c.id == x.outgoing then a else b);
    }
  }

  lemma LinkPart(t: Timeline)
    requires Good(t)
    ensures TransitionFaults(t, |t.transitions|).None? <==> LinksOk(t)
  {
    forall i | 0 <= i < |t.transitions|
      ensures TransitionFault(t, t.transitions[i]).None? <==>
                forall c :: c in t.clips && (c.id == t.transitions[i].outgoing || c.id == t.transitions[i].incoming) ==>
                  c.track == t.transitions[i].track
    {
      LinkOk(t, t.transitions[i]);
    }
    if LinksOk(t) {
      TransitionFaultsNone(t, |t.transitions|);
    }
    if TransitionFaults(t, |t.transitions|).None? {
      forall x | x in t.transitions
        ensures TransitionFault(t, x).None?
      {
        var i :| 0 <= i < |t.transitions| && t.transitions[i] == x;
        NoTransitionFault(t, i, |t.transitions|);
      }
    }
  }

  /** For a good timeline the final check looks at nothing else. */
  lemma GoodPassesIff(library: Library, t: Timeline)
    requires Good(t)
    ensures ProjectionFault(library, t).None? <==> ClipsOk(library, t) && LinksOk(t) && CuesPlaced(t)
  {
    ClipPart(library, t);
    LinkPart(t);
    if ClipsOk(library, t) && LinksOk(t) && CuesPlaced(t) {
      CueFaultsNone(t, |t.captions|);
    }
    if ProjectionFault(library, t).None? {
      forall i | 0 <= i < |t.captions|
        ensures CueFault(t, t.captions[i]).None?
      {
        NoCueFault(t, i, |t.captions|);
      }
    }
  }

  // ----- one clip

  /** A slice of an accepted range is accepted exactly when it has a tick. */
  lemma SliceAccepted(library: Library, artifact: string, range: Range, frames: FrameCount, a: int, n: FrameCount)
    requires TimedSource(library, artifact, range).Ok? && 0 <= a && a + n <= frames
    ensures var s := Slice(Span(range.startTick, range.ticks, frames), a, n);
            var sliced := TimedSource(library, artifact, range.(startTick := s.startTick, ticks := s.ticks));
            (sliced.Ok? <==> s.ticks >= 1) && (sliced.Ok? ==> sliced == TimedSource(library, artifact, range))
  {
    PartOfTicks(Span(range.startTick, range.ticks, frames), a);
    PartOfTicks(Span(range.startTick, range.ticks, frames), a + n);
  }

  lemma SlicedClipOk(library: Library, t: Timeline, c: Clip, p: Clip, k: int)
    requires ClipOk(library, t, c) && ShowsFrom(p, c, k) && p.start >= 0
    ensures ClipOk(library, t, p) <==> (p.source.Timed? ==> p.source.range.ticks >= 1)
  {
    if c.source.Timed? { SliceAccepted(library, c.source.artifact, c.source.range, c.frames, k, p.frames); }
  }

  lemma PieceOk(library: Library, t: Timeline, c: Clip, track: string, start: int, end: int, ripple: bool, p: Clip)
    requires 0 <= start < end && ClipOk(library, t, c) && c.start >= 0 && p in Becomes(c, track, start, end, ripple) && c.track == track
    ensures ClipOk(library, t, p) <==> (p.source.Timed? ==> p.source.range.ticks >= 1)
  {
    PiecesTrace(c, track, start, end, ripple, p);
    SlicedClipOk(library, t, c, p, OffsetOf(p, c, track, start, end));
  }

  /** The ticks of the two pieces. */
  lemma CutTicks(c: Clip, start: int, end: int, ripple: bool)
    requires start < end && Meets(c, start, end)
    ensures (forall p :: p in Remains(c, start, end, ripple) ==> (p.source.Timed? ==> p.source.range.ticks >= 1)) <==>
              KeepsTicks(c, start, end)
  {
    if c.source.Timed? { WholeSpan(SpanOf(c)); }
    var b := Remains(c, start, end, ripple);
    assert c.start < start ==> b[0] in b;
    assert EndOf(c) > end ==> b[|b| - 1] in b;
  }

  /** The pieces of a cut clip pass exactly when they show ticks. */
  lemma PiecesOk(library: Library, t: Timeline, c: Clip, track: string, start: int, end: int, ripple: bool)
    requires 0 <= start < end && ClipOk(library, t, c) && c.start >= 0 && Touched(c, track, start, end)
    ensures (forall p :: p in Becomes(c, track, start, end, ripple) ==> ClipOk(library, t, p)) <==> KeepsTicks(c, start, end)
  {
    forall p | p in Becomes(c, track, start, end, ripple)
      ensures ClipOk(library, t, p) <==> (p.source.Timed? ==> p.source.range.ticks >= 1)
    {
      PieceOk(library, t, c, track, start, end, ripple, p);
    }
    CutTicks(c, start, end, ripple);
  }

  lemma UncutOk(library: Library, t: Timeline, c: Clip, track: string, start: int, end: int, ripple: bool, p: Clip)
    requires 0 <= start < end && ClipOk(library, t, c) && c.start >= 0
    requires !Touched(c, track, start, end) && p in Becomes(c, track, start, end, ripple)
    ensures ClipOk(library, t, p)
  {
  }

  // ----- what does not depend on ticks

  lemma JoinedIsUncut(t: Timeline, c: Clip, track: string, start: int, end: int, ripple: bool, p: Clip, id: Id)
    requires start < end && FreshSlices(t.clips, track, start, end) && c in t.clips && p in Becomes(c, track, start, end, ripple)
    requires p.id == id && HasId(t.clips, id)
    ensures c.id == id && c.track == p.track
  {
    if Touched(c, track, start, end) { RemainsAreNew(t.clips, c, track, start, end, ripple, p); }
  }

  /** Transitions keep pointing at clips of their track, and cues stay on caption tracks. */
  lemma LinksAfterRemoval(t: Timeline, track: string, start: int, end: int, ripple: bool)
    requires 0 <= start < end && Good(t) && FreshSlices(t.clips, track, start, end) && LinksOk(t)
    ensures LinksOk(RemoveFromTrack(t, track, start, end, ripple))
  {
    var u := RemoveFromTrack(t, track, start, end, ripple);
    forall x, p | x in u.transitions && p in u.clips && (p.id == x.outgoing || p.id == x.incoming)
      ensures p.track == x.track
    {
      TransitionsAfterRemoval(t, track, start, end, ripple, x);
      AfterRemoval(t, track, start, end, ripple, p);
      var c :| c in t.clips && p in Becomes(c, track, start, end, ripple);
      JoinedIsUncut(t, c, track, start, end, ripple, p, p.id);
    }
  }

  lemma CuesStayPlaced(t: Timeline, track: string, start: int, end: int, ripple: bool)
    requires start < end && CuesPlaced(t)
    ensures CuesPlaced(RemoveFromTrack(t, track, start, end, ripple))
  {
    var u := RemoveFromTrack(t, track, start, end, ripple);
    CutsKeepCues(t, OnTrack(t.clips, track), start, end, ripple);
    forall i | 0 <= i < |u.captions|
      ensures CueFault(u, u.captions[i]).None?
    {
      assert CueFault(t, t.captions[i]).None?;
    }
  }

  predicate Sound(t: Timeline) {
    Good(t) && LinksOk(t) && CuesPlaced(t)
  }

  lemma SoundAfterRemoval(t: Timeline, track: string, start: int, end: int, ripple: bool)
    requires 0 <= start < end && Sound(t) && FreshSlices(t.clips, track, start, end)
    ensures Sound(RemoveFromTrack(t, track, start, end, ripple))
  {
    RemoveFromTrackGood(t, track, start, end, ripple);
    LinksAfterRemoval(t, track, start, end, ripple);
    CuesStayPlaced(t, track, start, end, ripple);
  }

  lemma TracksStay(t: Timeline, track: string, start: int, end: int, ripple: bool)
    requires start < end
    ensures SameTracks(t, RemoveFromTrack(t, track, start, end, ripple))
  {
    CutsKeepCues(t, OnTrack(t.clips, track), start, end, ripple);
  }

  lemma {:induction false} TracksAccepted(t: Timeline, tracks: seq<string>, start: int, end: int, ripple: bool)
    requires start < end
    ensures RemoveFromTracks(t, tracks, start, end, ripple).Ok? <==> forall x :: x in tracks ==> MutableTrack(t, x).Ok?
    ensures RemoveFromTracks(t, tracks, start, end, ripple).Ok? ==> SameTracks(t, RemoveFromTracks(t, tracks, start, end, ripple).value)
    decreases |tracks|
  {
    if tracks == [] {
    } else {
      var n := |tracks| - 1;
      TracksAccepted(t, tracks[..n], start, end, ripple);
      forall x
        ensures x in tracks <==> x in tracks[..n] || x == tracks[n]
      {
        LastMember(tracks, x);
      }
      var before := RemoveFromTracks(t, tracks[..n], start, end, ripple);
      if before.Ok? {
        TracksStay(before.value, tracks[n], start, end, ripple);
        assert MutableTrack(before.value, tracks[n]) == MutableTrack(t, tracks[n]);
      }
      assert tracks[n] in tracks;
    }
  }

  lemma {:induction false} SoundAfterRemovals(t: Timeline, tracks: seq<string>, start: int, end: int, ripple: bool)
    requires 0 <= start < end && Sound(t)
    requires FreshTracks(t, tracks, start, end, ripple) && RemoveFromTracks(t, tracks, start, end, ripple).Ok?
    ensures Sound(RemoveFromTracks(t, tracks, start, end, ripple).value)
    decreases |tracks|
  {
    if tracks == [] {
    } else {
      var n := |tracks| - 1;
      SoundAfterRemovals(t, tracks[..n], start, end, ripple);
      SoundAfterRemoval(RemoveFromTracks(t, tracks[..n], start, end, ripple).value, tracks[n], start, end, ripple);
    }
  }

  // ----- the ticks of the pieces

  lemma BecomesOk(library: Library, t: Timeline, c: Clip, track: string, start: int, end: int, ripple: bool)
    requires 0 <= start < end && ClipOk(library, t, c) && c.start >= 0
    ensures (forall p :: p in Becomes(c, track, start, end, ripple) ==> ClipOk(library, t, p)) <==>
              (Touched(c, track, start, end) ==> KeepsTicks(c, start, end))
  {
    if Touched(c, track, start, end) {
      PiecesOk(library, t, c, track, start, end, ripple);
    } else {
      forall p | p in Becomes(c, track, start, end, ripple)
        ensures ClipOk(library, t, p)
      {
        UncutOk(library, t, c, track, start, end, ripple, p);
      }
    }
  }

  lemma SameOk(library: Library, t: Timeline, u: Timeline)
    requires SameTracks(t, u)
    ensures ClipsOk(library, u) <==> forall p :: p in u.clips ==> ClipOk(library, t, p)
  {
    assert forall p :: p in u.clips ==> (ClipOk(library, u, p) <==> ClipOk(library, t, p));
  }

  lemma BecomesOnOk(library: Library, t: Timeline, c: Clip, tracks: seq<string>, start: int, end: int, ripple: bool)
    requires 0 <= start < end && ClipOk(library, t, c) && c.start >= 0
    ensures (forall p :: p in BecomesOn(c, tracks, start, end, ripple) ==> ClipOk(library, t, p)) <==>
              (c.track in tracks && Meets(c, start, end) ==> KeepsTicks(c, start, end))
  {
    if c.track in tracks {
      BecomesOk(library, t, c, c.track, start, end, ripple);
    } else {
      assert forall p :: p in BecomesOn(c, tracks, start, end, ripple) ==> p == c;
    }
  }

  /** The clips of the result pass exactly when no piece loses all its ticks. */
  lemma ClipsAfterRemovals(library: Library, t: Timeline, tracks: seq<string>, start: int, end: int, ripple: bool)
    requires 0 <= start < end && Good(t) && ClipsOk(library, t) && FreshTracks(t, tracks, start, end, ripple)
    requires forall i, j :: 0 <= i < j < |tracks| ==> tracks[i] != tracks[j]
    requires RemoveFromTracks(t, tracks, start, end, ripple).Ok?
    ensures ClipsOk(library, RemoveFromTracks(t, tracks, start, end, ripple).value) <==> PiecesShowTicks(t.clips, tracks, start, end)
  {
    var u := RemoveFromTracks(t, tracks, start, end, ripple).value;
    TracksAccepted(t, tracks, start, end, ripple);
    SameOk(library, t, u);
    if forall p :: p in u.clips ==> ClipOk(library, t, p) {
      forall c | c in t.clips && c.track in tracks && Meets(c, start, end)
        ensures KeepsTicks(c, start, end)
      {
        forall p | p in BecomesOn(c, tracks, start, end, ripple)
          ensures ClipOk(library, t, p)
        {
          AfterRemovals(t, tracks, start, end, ripple, p);
        }
        BecomesOnOk(library, t, c, tracks, start, end, ripple);
      }
    }
    if PiecesShowTicks(t.clips, tracks, start, end) {
      forall p | p in u.clips
        ensures ClipOk(library, t, p)
      {
        AfterRemovals(t, tracks, start, end, ripple, p);
        var c :| c in t.clips && p in BecomesOn(c, tracks, start, end, ripple);
        BecomesOnOk(library, t, c, tracks, start, end, ripple);
      }
    }
  }

  // ----- the whole intent

  /** The final check, of an operation that did not fault. */
  ghost predicate Checks(library: Library, u: Result<Timeline, Fault>) {
    u.Ok? && ProjectionFault(library, u.value).None?
  }

  ghost predicate AllMutable(t: Timeline, tracks: seq<string>) {
    forall x :: x in tracks ==> MutableTrack(t, x).Ok?
  }

  /** The tracks are in order, and no piece of a timed clip loses all its ticks. */
  ghost predicate Removable(t: Timeline, tracks: seq<string>, start: int, end: int) {
    AllMutable(t, tracks) && PiecesShowTicks(t.clips, tracks, start, end)
  }

  lemma SameMembers(xs: seq<string>, ys: seq<string>, t: Timeline, start: int, end: int)
    requires forall x :: x in xs <==> x in ys
    ensures Removable(t, xs, start, end) == Removable(t, ys, start, end)
  {
  }

  /** Removing the range from the tracks, each once, does not fault and passes the final check. */
  ghost predicate AcceptedOn(library: Library, t: Timeline, tracks: seq<string>, start: int, end: int, ripple: bool)
    requires start < end
  {
    Checks(library, RemoveFromTracks(t, Unique(tracks), start, end, ripple))
  }

  /** A good timeline that passes the final check. */
  ghost predicate Passing(library: Library, t: Timeline) {
    Good(t) && ClipsOk(library, t) && LinksOk(t) && CuesPlaced(t)
  }

  lemma RemovedPasses(library: Library, t: Timeline, tracks: seq<string>, start: int, end: int, ripple: bool)
    requires 0 <= start < end && Passing(library, t) && FreshTracks(t, Unique(tracks), start, end, ripple)
    ensures AcceptedOn(library, t, tracks, start, end, ripple) == Removable(t, tracks, start, end)
  {
    UniqueHasEach(tracks);
    SameMembers(tracks, Unique(tracks), t, start, end);
    TracksAccepted(t, Unique(tracks), start, end, ripple);
    var u := RemoveFromTracks(t, Unique(tracks), start, end, ripple);
    if u.Ok? {
      SoundAfterRemovals(t, Unique(tracks), start, end, ripple);
      ClipsAfterRemovals(library, t, Unique(tracks), start, end, ripple);
      GoodPassesIff(library, u.value);
    }
  }

  /** The range is in order, and removable from the tracks. */
  ghost predicate RemovalAccepted(t: Timeline, tracks: seq<string>, r: SequenceRange) {
    RangeFault(t, r).None? && Removable(t, tracks, r.start, r.start + r.frames)
  }

  lemma RangeRefused(library: Library, t: Timeline, tracks: seq<string>, r: SequenceRange, ripple: bool)
    requires RangeFault(t, r).Some?
    ensures !Checks(library, ApplyRemoveRange(t, tracks, r, ripple)) && !RemovalAccepted(t, tracks, r)
  {
  }

  lemma RangeDecides(library: Library, t: Timeline, tracks: seq<string>, r: SequenceRange, ripple: bool)
    requires RangeFault(t, r).None?
    requires AcceptedOn(library, t, tracks, r.start, r.start + r.frames, ripple) == Removable(t, tracks, r.start, r.start + r.frames)
    ensures Checks(library, ApplyRemoveRange(t, tracks, r, ripple)) == RemovalAccepted(t, tracks, r)
  {
  }

  lemma RangeInOrder(t: Timeline, tracks: seq<string>, r: SequenceRange, ripple: bool)
    requires RangeFault(t, r).None? && FreshRange(t, tracks, r, ripple)
    ensures 0 <= r.start && 1 <= r.frames && FreshTracks(t, Unique(tracks), r.start, r.start + r.frames, ripple)
  {
  }

  lemma RangePasses(library: Library, t: Timeline, tracks: seq<string>, r: SequenceRange, ripple: bool)
    requires Passing(library, t) && FreshRange(t, tracks, r, ripple)
    ensures Checks(library, ApplyRemoveRange(t, tracks, r, ripple)) == RemovalAccepted(t, tracks, r)
  {
    hide *;
    if RangeFault(t, r).Some? {
      RangeRefused(library, t, tracks, r, ripple);
    } else {
      RangeInOrder(t, tracks, r, ripple);
      RemovedPasses(library, t, tracks, r.start, r.start + r.frames, ripple);
      RangeDecides(library, t, tracks, r, ripple);
    }
  }

  lemma OneStepRun(library: Library, t: Timeline, steps: seq<Step>)
    requires |steps| == 1
    ensures var applied := Apply(library, t, steps[0].operation, steps[0].opId);
            && (Run(library, t, steps).Ok? <==> applied.Ok?)
            && (applied.Ok? ==> Run(library, t, steps).value.timeline == applied.value.timeline)
  {
    assert steps[..|steps| - 1] == [];
    assert Run(library, t, steps[..|steps| - 1]) == Ok(Edit(t, []));
  }

  lemma RemovalRuns(library: Library, t: Timeline, steps: seq<Step>)
    requires |steps| == 1 && steps[0].operation.RemoveRange?
    ensures var op := steps[0].operation;
            Project(library, t, steps).Ok? == Checks(library, ApplyRemoveRange(t, op.tracks, op.range, op.ripple))
  {
    OneStepRun(library, t, steps);
  }

  /**
   An intent that removes one range from a timeline that passes the final check is accepted exactly
   when the range and the tracks are, and every piece of a timed clip keeps at least one tick.
   */
  lemma RemovalPassesIff(library: Library, t: Timeline, steps: seq<Step>)
    requires |steps| == 1 && steps[0].operation.RemoveRange?
    requires ProjectionFault(library, t).None? && CuesOk(t.captions) && FreshFor(t, steps[0].operation)
    ensures Project(library, t, steps).Ok? == RemovalAccepted(t, steps[0].operation.tracks, steps[0].operation.range)
  {
    var op := steps[0].operation;
    RemovalRuns(library, t, steps);
    CheckedIsGoodAgain(library, t);
    GoodPassesIff(library, t);
    RangePasses(library, t, op.tracks, op.range, op.ripple);
  }

  /** Two ticks over ten frames, cut from frame 1 to frame 5: the left piece has no tick. */
  lemma CutCanBeEmpty(c: Clip)
    requires c.source.Timed? && c.source.range.ticks == 2 && c.start == 0 && c.frames == 10
    ensures Meets(c, 1, 5) && !KeepsTicks(c, 1, 5)
    ensures exists p :: p in Remains(c, 1, 5, false) && p.source.range.ticks == 0
  {
    var b := Remains(c, 1, 5, false);
    WholeSpan(SpanOf(c));
    assert b[0] in b && b[0].source.range.ticks == 0;
  }
}
