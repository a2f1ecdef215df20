/**
 What removing a range does to the frames of a track (removeRangeFromTrack and sliceClip,
 src/edits.ts), told by tracing every frame of the result to a frame of an original clip.
 */
module RangeRemoval {
  import opened Wrappers
  import opened Collections
  import opened Slices
  import opened Timelines
  import opened Edits

  predicate DistinctIds(clips: seq<Clip>) {
    forall i, j :: 0 <= i < j < |clips| ==> clips[i].id != clips[j].id
  }

  lemma SameIdSameClip(clips: seq<Clip>, p: Clip, q: Clip)
    requires DistinctIds(clips) && p in clips && q in clips && p.id == q.id
    ensures p == q
  {
  }

  predicate Touched(c: Clip, track: string, start: int, end: int) {
    c.track == track && Meets(c, start, end)
  }

  /** The ids generated for the pieces are not in use. */
  predicate FreshSlices(clips: seq<Clip>, track: string, start: int, end: int) {
    forall i :: 0 <= i < |clips| && Touched(clips[i], track, start, end) ==>
      (clips[i].start < start ==> !HasId(clips, Derived(clips[i].id, LeftOf))) &&
      (EndOf(clips[i]) > end ==> !HasId(clips, Derived(clips[i].id, RightOf)))
  }

  predicate AllIn(cs: seq<Clip>, clips: seq<Clip>, track: string) {
    forall i :: 0 <= i < |cs| ==> cs[i] in clips && cs[i].track == track
  }

  predicate CutBy(cs: seq<Clip>, start: int, end: int, id: Id) {
    exists i :: 0 <= i < |cs| && Meets(cs[i], start, end) && cs[i].id == id
  }

  predicate LeftOver(cs: seq<Clip>, start: int, end: int, ripple: bool, p: Clip)
    requires start < end
  {
    exists i :: 0 <= i < |cs| && Meets(cs[i], start, end) && p in Remains(cs[i], start, end, ripple)
  }

  // ----- the cutting loop

  lemma RemainsAreNew(clips: seq<Clip>, c: Clip, track: string, start: int, end: int, ripple: bool, p: Clip)
    requires start < end && FreshSlices(clips, track, start, end) && c in clips && Touched(c, track, start, end)
    requires p in Remains(c, start, end, ripple)
    ensures !HasId(clips, p.id)
  {
  }

  lemma CutByLast(cs: seq<Clip>, start: int, end: int, id: Id)
    requires cs != []
    ensures var n := |cs| - 1;
            CutBy(cs, start, end, id) <==> CutBy(cs[..n], start, end, id) || (Meets(cs[n], start, end) && cs[n].id == id)
  {
    var n := |cs| - 1;
    assert forall i :: 0 <= i < n ==> cs[..n][i] == cs[i];
  }

  lemma LeftOverLast(cs: seq<Clip>, start: int, end: int, ripple: bool, p: Clip)
    requires start < end && cs != []
    ensures var n := |cs| - 1;
            LeftOver(cs, start, end, ripple, p) <==>
              LeftOver(cs[..n], start, end, ripple, p) || (Meets(cs[n], start, end) && p in Remains(cs[n], start, end, ripple))
  {
    var n := |cs| - 1;
    assert forall i :: 0 <= i < n ==> cs[..n][i] == cs[i];
  }

  /** After cutting some clips: the others, and what is left of those. */
  lemma {:induction false} AfterCuts(t: Timeline, cs: seq<Clip>, track: string, start: int, end: int, ripple: bool, p: Clip)
    requires start < end && AllIn(cs, t.clips, track) && FreshSlices(t.clips, track, start, end)
    ensures p in CutClips(t, cs, start, end, ripple).clips <==>
              (p in t.clips && !CutBy(cs, start, end, p.id)) || LeftOver(cs, start, end, ripple, p)
    decreases |cs|
  {
    if cs == [] {
    } else {
      var n := |cs| - 1;
      var before := CutClips(t, cs[..n], start, end, ripple);
      AfterCuts(t, cs[..n], track, start, end, ripple, p);
      CutByLast(cs, start, end, p.id);
      LeftOverLast(cs, start, end, ripple, p);
      Filtered((c: Clip) => c.id != cs[n].id, before.clips, p);
      if LeftOver(cs[..n], start, end, ripple, p) {
        var i :| 0 <= i < n && Meets(cs[..n][i], start, end) && p in Remains(cs[..n][i], start, end, ripple);
        RemainsAreNew(t.clips, cs[i], track, start, end, ripple, p);
      }
    }
  }

  // ----- the whole removal

  /** What becomes of one clip. */
  function Becomes(c: Clip, track: string, start: int, end: int, ripple: bool): seq<Clip>
    requires start < end
  {
    if Touched(c, track, start, end) then Remains(c, start, end, ripple)
    else [if ripple then ShiftClip(c, track, end, start - end) else c]
  }

  lemma CutAllOnTrack(t: Timeline, track: string, start: int, end: int, ripple: bool, p: Clip)
    requires start < end && DistinctIds(t.clips) && FreshSlices(t.clips, track, start, end)
    ensures p in CutClips(t, OnTrack(t.clips, track), start, end, ripple).clips <==>
              (p in t.clips && !Touched(p, track, start, end)) ||
              exists c :: c in t.clips && Touched(c, track, start, end) && p in Remains(c, start, end, ripple)
  {
    var cs := OnTrack(t.clips, track);
    forall c
      ensures c in cs <==> c in t.clips && c.track == track
    {
      Filtered((c: Clip) => c.track == track, t.clips, c);
    }
    AfterCuts(t, cs, track, start, end, ripple, p);
    if p in t.clips && CutBy(cs, start, end, p.id) {
      var i :| 0 <= i < |cs| && Meets(cs[i], start, end) && cs[i].id == p.id;
      SameIdSameClip(t.clips, cs[i], p);
    }
    if c :| c in t.clips && Touched(c, track, start, end) && p in Remains(c, start, end, ripple) {
      assert c in cs;
      var i :| 0 <= i < |cs| && cs[i] == c;
      assert LeftOver(cs, start, end, ripple, p);
    }
  }

  lemma Shifted(clips: seq<Clip>, track: string, from: int, delta: int, p: Clip)
    ensures p in ShiftClips(clips, track, from, delta) <==> exists q :: q in clips && p == ShiftClip(q, track, from, delta)
  {
    var shifted := ShiftClips(clips, track, from, delta);
    if p in shifted {
      var i :| 0 <= i < |shifted| && shifted[i] == p;
      assert clips[i] in clips;
    }
    if q :| q in clips && p == ShiftClip(q, track, from, delta) {
      var i :| 0 <= i < |clips| && clips[i] == q;
      assert shifted[i] == p;
    }
  }

  /** Closing the gap does not move the pieces again: they start before the gap's end. */
  lemma RemainsStay(c: Clip, track: string, start: int, end: int, p: Clip)
    requires start < end && p in Remains(c, start, end, true)
    ensures ShiftClip(p, track, end, start - end) == p
  {
  }

  /** The clips of the result are exactly what becomes of the clips there were. */
  lemma AfterRemoval(t: Timeline, track: string, start: int, end: int, ripple: bool, p: Clip)
    requires start < end && DistinctIds(t.clips) && FreshSlices(t.clips, track, start, end)
    ensures p in RemoveFromTrack(t, track, start, end, ripple).clips <==>
              exists c :: c in t.clips && p in Becomes(c, track, start, end, ripple)
  {
    var cut := CutClips(t, OnTrack(t.clips, track), start, end, ripple);
    if !ripple {
      CutAllOnTrack(t, track, start, end, ripple, p);
    } else {
      Shifted(cut.clips, track, end, start - end, p);
      if p in ShiftClips(cut.clips, track, end, start - end) {
        var q :| q in cut.clips && p == ShiftClip(q, track, end, start - end);
        CutAllOnTrack(t, track, start, end, ripple, q);
        if q in t.clips && !Touched(q, track, start, end) {
          assert p in Becomes(q, track, start, end, ripple);
        } else {
          var c :| c in t.clips && Touched(c, track, start, end) && q in Remains(c, start, end, ripple);
          RemainsStay(c, track, start, end, q);
          assert p in Becomes(c, track, start, end, ripple);
        }
      }
      if c :| c in t.clips && p in Becomes(c, track, start, end, ripple) {
        var q := if Touched(c, track, start, end) then p else c;
        CutAllOnTrack(t, track, start, end, ripple, q);
        if Touched(c, track, start, end) { RemainsStay(c, track, start, end, p); }
        assert q in cut.clips && p == ShiftClip(q, track, end, start - end);
      }
    }
  }

  // ----- tracing frames

  /** The clip p shows the frames of c from k on: the ticks between the floors of both ends, all else as in c. */
  predicate ShowsFrom(p: Clip, c: Clip, k: int) {
    && 0 <= k && k + p.frames <= c.frames
    && p == c.(id := p.id, start := p.start, frames := p.frames, source := SlicedSource(c, k, p.frames))
  }

  /** Ids say where a clip comes from: itself when untouched, else the left or the right of the cut. */
  predicate TracesTo(p: Clip, c: Clip, k: int, track: string, start: int, end: int) {
    && ShowsFrom(p, c, k)
    && if Touched(c, track, start, end) then
         (c.start < start && k == 0 && p.id == Derived(c.id, LeftOf)) ||
         (EndOf(c) > end && k == end - c.start && p.id == Derived(c.id, RightOf))
       else k == 0 && p.id == c.id
  }

  /** Some clip shows frame k of c at frame f of the track. */
  predicate ShownAt(clips: seq<Clip>, f: int, c: Clip, k: int, track: string, start: int, end: int) {
    exists p :: p in clips && p.track == track && p.start <= f < EndOf(p) && TracesTo(p, c, k - (f - p.start), track, start, end)
  }

  /** Where a frame of the track goes. */
  function FrameAfter(f: int, start: int, end: int, ripple: bool): Option<int> {
    if start <= f < end then None
    else if ripple && f >= end then Some(f - (end - start))
    else Some(f)
  }

  lemma WholeClip(c: Clip)
    ensures SlicedSource(c, 0, c.frames) == c.source
  {
    if c.source.Timed? { WholeSpan(SpanOf(c)); }
  }

  /** The frame of c that its piece p starts with. */
  function OffsetOf(p: Clip, c: Clip, track: string, start: int, end: int): int {
    if Touched(c, track, start, end) && p.id == Derived(c.id, RightOf) then end - c.start else 0
  }

  lemma LeftAndRightTrace(c: Clip, track: string, start: int, end: int, ripple: bool, p: Clip)
    requires start < end && Touched(c, track, start, end) && p in Remains(c, start, end, ripple)
    ensures TracesTo(p, c, OffsetOf(p, c, track, start, end), track, start, end)
  {
    if p.id == Derived(c.id, LeftOf) {
      assert p == SliceClip(c, c.start, start, LeftOf);
    } else {
      assert p == SliceClip(c, end, EndOf(c), RightOf).(start := p.start);
    }
  }

  /** What becomes of a clip traces to it. */
  lemma PiecesTrace(c: Clip, track: string, start: int, end: int, ripple: bool, p: Clip)
    requires start < end && c.track == track && p in Becomes(c, track, start, end, ripple)
    ensures TracesTo(p, c, OffsetOf(p, c, track, start, end), track, start, end)
  {
    if Touched(c, track, start, end) {
      LeftAndRightTrace(c, track, start, end, ripple, p);
    } else {
      WholeClip(c);
    }
  }

  /** Each piece lies where its frames go. */
  lemma PiecesLie(c: Clip, track: string, start: int, end: int, ripple: bool, p: Clip, f: int)
    requires start < end && c.track == track && p in Becomes(c, track, start, end, ripple)
    requires p.start <= f < EndOf(p)
    ensures FrameAfter(c.start + OffsetOf(p, c, track, start, end) + (f - p.start), start, end, ripple) == Some(f)
  {
  }

  lemma TraceFixesOffset(p: Clip, c: Clip, k: int, track: string, start: int, end: int)
    requires TracesTo(p, c, k, track, start, end)
    ensures k == OffsetOf(p, c, track, start, end)
  {
  }

  lemma MemberHasId(clips: seq<Clip>, c: Clip)
    requires c in clips
    ensures HasId(clips, c.id)
  {
  }

  /** A clip of the result traces to no other clip than the one it came from. */
  lemma TraceIsUnique(clips: seq<Clip>, c: Clip, d: Clip, k: int, track: string, start: int, end: int, ripple: bool, p: Clip)
    requires start < end && DistinctIds(clips) && FreshSlices(clips, track, start, end) && c in clips && d in clips
    requires c.track == track && p in Becomes(d, track, start, end, ripple) && TracesTo(p, c, k, track, start, end)
    ensures c == d
  {
    MemberHasId(clips, c);
    MemberHasId(clips, d);
    if Touched(d, track, start, end) { RemainsAreNew(clips, d, track, start, end, ripple, p); }
    SameIdSameClip(clips, c, if c.id == d.id then d else c);
  }

  lemma OwnPiece(t: Timeline, track: string, start: int, end: int, ripple: bool, c: Clip, k: int, p: Clip)
    requires start < end && DistinctIds(t.clips) && FreshSlices(t.clips, track, start, end)
    requires c in t.clips && c.track == track
    requires p in RemoveFromTrack(t, track, start, end, ripple).clips && TracesTo(p, c, k, track, start, end)
    ensures p in Becomes(c, track, start, end, ripple)
  {
    AfterRemoval(t, track, start, end, ripple, p);
    var d :| d in t.clips && p in Becomes(d, track, start, end, ripple);
    TraceIsUnique(t.clips, c, d, k, track, start, end, ripple, p);
  }

  lemma TracedLies(t: Timeline, track: string, start: int, end: int, ripple: bool, c: Clip, k: int, p: Clip, f: int)
    requires start < end && DistinctIds(t.clips) && FreshSlices(t.clips, track, start, end)
    requires c in t.clips && c.track == track && p.start <= f < EndOf(p)
    requires p in RemoveFromTrack(t, track, start, end, ripple).clips && TracesTo(p, c, k, track, start, end)
    ensures FrameAfter(c.start + k + (f - p.start), start, end, ripple) == Some(f)
  {
    OwnPiece(t, track, start, end, ripple, c, k, p);
    TraceFixesOffset(p, c, k, track, start, end);
    PiecesLie(c, track, start, end, ripple, p, f);
  }

  lemma PieceShown(clips: seq<Clip>, f: int, c: Clip, k: int, track: string, start: int, end: int) returns (p: Clip)
    requires ShownAt(clips, f, c, k, track, start, end)
    ensures p in clips && p.track == track && p.start <= f < EndOf(p) && TracesTo(p, c, k - (f - p.start), track, start, end)
  {
    p :| p in clips && p.track == track && p.start <= f < EndOf(p) && TracesTo(p, c, k - (f - p.start), track, start, end);
  }

  lemma ShownWhereItGoes(t: Timeline, track: string, start: int, end: int, ripple: bool, c: Clip, k: int, f: int)
    requires start < end && DistinctIds(t.clips) && FreshSlices(t.clips, track, start, end)
    requires c in t.clips && c.track == track
    requires ShownAt(RemoveFromTrack(t, track, start, end, ripple).clips, f, c, k, track, start, end)
    ensures FrameAfter(c.start + k, start, end, ripple) == Some(f)
  {
    hide *;
    var p := PieceShown(RemoveFromTrack(t, track, start, end, ripple).clips, f, c, k, track, start, end);
    TracedLies(t, track, start, end, ripple, c, k - (f - p.start), p, f);
  }

  /** The piece that holds a frame outside the range. */
  lemma PieceShowing(c: Clip, k: int, track: string, start: int, end: int, ripple: bool) returns (p: Clip)
    requires start < end && c.track == track && 0 <= k < c.frames
    requires FrameAfter(c.start + k, start, end, ripple).Some?
    ensures p in Becomes(c, track, start, end, ripple)
    ensures var f := FrameAfter(c.start + k, start, end, ripple).value;
            p.track == track && p.start <= f < EndOf(p) && k - (f - p.start) == OffsetOf(p, c, track, start, end)
  {
    var b := Becomes(c, track, start, end, ripple);
    p := if Touched(c, track, start, end) && c.start + k >= end then b[|b| - 1] else b[0];
  }

  lemma ShownBy(clips: seq<Clip>, f: int, c: Clip, k: int, track: string, start: int, end: int, p: Clip)
    requires p in clips && p.track == track && p.start <= f < EndOf(p) && TracesTo(p, c, k - (f - p.start), track, start, end)
    ensures ShownAt(clips, f, c, k, track, start, end)
  {
  }

  lemma PieceStays(t: Timeline, track: string, start: int, end: int, ripple: bool, c: Clip, p: Clip)
    requires start < end && DistinctIds(t.clips) && FreshSlices(t.clips, track, start, end)
    requires c in t.clips && p in Becomes(c, track, start, end, ripple)
    ensures p in RemoveFromTrack(t, track, start, end, ripple).clips
  {
    AfterRemoval(t, track, start, end, ripple, p);
  }

  lemma GoesWhereItIsShown(t: Timeline, track: string, start: int, end: int, ripple: bool, c: Clip, k: int, f: int)
    requires start < end && DistinctIds(t.clips) && FreshSlices(t.clips, track, start, end)
    requires c in t.clips && c.track == track && 0 <= k < c.frames
    requires FrameAfter(c.start + k, start, end, ripple) == Some(f)
    ensures ShownAt(RemoveFromTrack(t, track, start, end, ripple).clips, f, c, k, track, start, end)
  {
    var p := PieceShowing(c, k, track, start, end, ripple);
    PieceStays(t, track, start, end, ripple, c, p);
    PiecesTrace(c, track, start, end, ripple, p);
    ShownBy(RemoveFromTrack(t, track, start, end, ripple).clips, f, c, k, track, start, end, p);
  }

  /**
   Frame k of an original clip of the track is shown at frame f of the result exactly when f is
   where the removal puts it: nowhere inside the range, as far to the left as the range is long
   behind it if the gap is closed, and where it was otherwise.
   */
  lemma FramesAfterRemoval(t: Timeline, track: string, start: int, end: int, ripple: bool, c: Clip, k: int, f: int)
    requires start < end && DistinctIds(t.clips) && FreshSlices(t.clips, track, start, end)
    requires c in t.clips && c.track == track && 0 <= k < c.frames
    ensures ShownAt(RemoveFromTrack(t, track, start, end, ripple).clips, f, c, k, track, start, end) <==>
              FrameAfter(c.start + k, start, end, ripple) == Some(f)
  {
    if ShownAt(RemoveFromTrack(t, track, start, end, ripple).clips, f, c, k, track, start, end) {
      ShownWhereItGoes(t, track, start, end, ripple, c, k, f);
    }
    if FrameAfter(c.start + k, start, end, ripple) == Some(f) {
      GoesWhereItIsShown(t, track, start, end, ripple, c, k, f);
    }
  }

  /** Nothing else appears on the track, and other tracks keep their clips. */
  lemma NothingElse(t: Timeline, track: string, start: int, end: int, ripple: bool, p: Clip)
    requires start < end && DistinctIds(t.clips) && FreshSlices(t.clips, track, start, end)
    ensures var result := RemoveFromTrack(t, track, start, end, ripple).clips;
            && (p.track != track ==> (p in result <==> p in t.clips))
            && (p in result && p.track == track ==>
                  exists c, k :: c in t.clips && c.track == track && TracesTo(p, c, k, track, start, end))
  {
    AfterRemoval(t, track, start, end, ripple, p);
    assert p.track != track ==> p in Becomes(p, track, start, end, ripple);
    if p in RemoveFromTrack(t, track, start, end, ripple).clips {
      var c :| c in t.clips && p in Becomes(c, track, start, end, ripple);
      if p.track == track { PiecesTrace(c, track, start, end, ripple, p); }
    }
  }

  // ----- cues and transitions

  lemma {:induction false} CutsKeepCues(t: Timeline, cs: seq<Clip>, start: int, end: int, ripple: bool)
    requires start < end
    ensures var cut := CutClips(t, cs, start, end, ripple);
            cut.captions == t.captions && cut.tracks == t.tracks && cut.sequence == t.sequence
    decreases |cs|
  {
    if cs == [] {
    } else {
      CutsKeepCues(t, cs[..|cs| - 1], start, end, ripple);
    }
  }

  /** Cues of the track that start behind a closed gap move with it; all else about cues stays. */
  lemma CuesAfterRemoval(t: Timeline, track: string, start: int, end: int, ripple: bool, i: nat)
    requires start < end && i < |t.captions|
    ensures var after := RemoveFromTrack(t, track, start, end, ripple).captions;
            && |after| == |t.captions|
            && after[i] == if ripple && t.captions[i].track == track && t.captions[i].start >= end
                 then t.captions[i].(start := t.captions[i].start - (end - start)) else t.captions[i]
  {
    CutsKeepCues(t, OnTrack(t.clips, track), start, end, ripple);
  }

  lemma {:induction false} TransitionsAfterCuts(t: Timeline, cs: seq<Clip>, start: int, end: int, ripple: bool, x: Transition)
    requires start < end
    ensures x in CutClips(t, cs, start, end, ripple).transitions <==>
              x in t.transitions && !CutBy(cs, start, end, x.outgoing) && !CutBy(cs, start, end, x.incoming)
    decreases |cs|
  {
    if cs == [] {
    } else {
      var n := |cs| - 1;
      var before := CutClips(t, cs[..n], start, end, ripple);
      TransitionsAfterCuts(t, cs[..n], start, end, ripple, x);
      CutByLast(cs, start, end, x.outgoing);
      CutByLast(cs, start, end, x.incoming);
      Filtered((x: Transition) => x.outgoing != cs[n].id && x.incoming != cs[n].id, before.transitions, x);
    }
  }

  /** A transition goes exactly when a clip it joins is touched by the range. */
  lemma TransitionsAfterRemoval(t: Timeline, track: string, start: int, end: int, ripple: bool, x: Transition)
    requires start < end
    ensures x in RemoveFromTrack(t, track, start, end, ripple).transitions <==>
              x in t.transitions && forall c :: c in t.clips && Touched(c, track, start, end) ==> c.id != x.outgoing && c.id != x.incoming
  {
    var cs := OnTrack(t.clips, track);
    forall c
      ensures c in cs <==> c in t.clips && c.track == track
    {
      Filtered((c: Clip) => c.track == track, t.clips, c);
    }
    TransitionsAfterCuts(t, cs, start, end, ripple, x);
    forall id
      ensures CutBy(cs, start, end, id) <==> exists c :: c in t.clips && Touched(c, track, start, end) && c.id == id
    {
      if c :| c in t.clips && Touched(c, track, start, end) && c.id == id {
        assert c in cs;
        var i :| 0 <= i < |cs| && cs[i] == c;
      }
    }
  }
}
