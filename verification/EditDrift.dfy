/**
 Rounding over whole batches (src/edits.ts): every clip that a run leaves is followed back, step
 by step, to a clip the run started from or to the step that placed or trimmed it. Along that line
 each cut loses at most one tick.
 */
module EditDrift {
  import opened Wrappers
  import opened Collections
  import opened Slices
  import opened Timelines
  import opened Edits
  import opened RangeRemoval
  import opened EditMeaning
  import opened EditKeeps

  /** The operation cuts the clip: it removes a range that meets it, or splits it. */
  predicate Cuts(op: Operation, c: Clip) {
    match op
    case RemoveRange(tracks, r, _) => c.track in tracks && Meets(c, r.start, r.start + r.frames)
    case BatchReplace(tracks, r, _, _) => c.track in tracks && Meets(c, r.start, r.start + r.frames)
    case SplitClip(id, _, _, _) => c.id == id
    case _ => false
  }

  /** The clip q holds the frames of c from k on: the whole clip unless the operation cuts it. */
  predicate MadeFrom(op: Operation, c: Clip, q: Clip, k: int) {
    if Cuts(op, c) then 0 <= k && k + q.frames <= c.frames && q.source == SlicedSource(c, k, q.frames)
    else k == 0 && q.id == c.id && q.frames == c.frames && q.source == c.source
  }

  /** The step inserted, restored or placed the clip, or trimmed it, which chooses its range anew. */
  predicate Begins(op: Operation, opId: Id, q: Clip) {
    match op
    case InsertClip(clip, p, _) => p.frames >= 1 && q == ClipFromPlacement(IdOr(clip, opId, Inserted), p)
    case RestoreClip(_, from, p) => p.frames >= 1 && q == ClipFromPlacement(Derived(opId, Restored(from)), p)
    case BatchReplace(_, _, placements, _) => exists k :: 0 <= k < |placements| && PlacedAt(q, placements, opId, k)
    case TrimClip(id, _, _, _) => q.id == id
    case _ => false
  }

  // ----- one removal

  /** After cutting some clips: others that were not cut, and what is left of those. */
  lemma {:induction false} CutOrigin(t: Timeline, cs: seq<Clip>, start: int, end: int, ripple: bool, p: Clip)
    requires start < end && p in CutClips(t, cs, start, end, ripple).clips
    ensures (p in t.clips && !CutBy(cs, start, end, p.id)) || LeftOver(cs, start, end, ripple, p)
    decreases |cs|
  {
    if cs == [] {
    } else {
      var n := |cs| - 1;
      var before := CutClips(t, cs[..n], start, end, ripple);
      CutByLast(cs, start, end, p.id);
      LeftOverLast(cs, start, end, ripple, p);
      Filtered((c: Clip) => c.id != cs[n].id, before.clips, p);
      if p in before.clips { CutOrigin(t, cs[..n], start, end, ripple, p); }
    }
  }

  lemma CutTrackOrigin(t: Timeline, track: string, start: int, end: int, ripple: bool, p: Clip) returns (c: Clip)
    requires start < end && p in CutClips(t, OnTrack(t.clips, track), start, end, ripple).clips
    ensures c in t.clips
    ensures (c == p && !Touched(p, track, start, end)) || (Touched(c, track, start, end) && p in Remains(c, start, end, ripple))
  {
    var cs := OnTrack(t.clips, track);
    c := p;
    CutOrigin(t, cs, start, end, ripple, p);
    if LeftOver(cs, start, end, ripple, p) {
      var i :| 0 <= i < |cs| && Meets(cs[i], start, end) && p in Remains(cs[i], start, end, ripple);
      c := cs[i];
      Filtered((c: Clip) => c.track == track, t.clips, c);
    } else {
      Filtered((c: Clip) => c.track == track, t.clips, p);
    }
  }

  lemma TrackOrigin(t: Timeline, track: string, start: int, end: int, ripple: bool, p: Clip) returns (c: Clip)
    requires start < end && p in RemoveFromTrack(t, track, start, end, ripple).clips
    ensures c in t.clips && p in Becomes(c, track, start, end, ripple)
  {
    var cut := CutClips(t, OnTrack(t.clips, track), start, end, ripple);
    if ripple {
      Shifted(cut.clips, track, end, start - end, p);
      var q :| q in cut.clips && p == ShiftClip(q, track, end, start - end);
      c := CutTrackOrigin(t, track, start, end, ripple, q);
      if Touched(c, track, start, end) { RemainsStay(c, track, start, end, q); }
    } else {
      c := CutTrackOrigin(t, track, start, end, ripple, p);
    }
  }

  lemma {:induction false} TracksOrigin(t: Timeline, tracks: seq<string>, start: int, end: int, ripple: bool, p: Clip) returns (c: Clip)
    requires start < end && forall i, j :: 0 <= i < j < |tracks| ==> tracks[i] != tracks[j]
    requires RemoveFromTracks(t, tracks, start, end, ripple).Ok? && p in RemoveFromTracks(t, tracks, start, end, ripple).value.clips
    ensures c in t.clips && p in BecomesOn(c, tracks, start, end, ripple)
    decreases |tracks|
  {
    if tracks == [] {
      c := p;
    } else {
      var n := |tracks| - 1;
      var d := TrackOrigin(RemoveFromTracks(t, tracks[..n], start, end, ripple).value, tracks[n], start, end, ripple, p);
      c := TracksOrigin(t, tracks[..n], start, end, ripple, d);
      ThroughLast(c, d, tracks, start, end, ripple, p);
    }
  }

  lemma PieceOrigin(op: Operation, c: Clip, tracks: seq<string>, start: int, end: int, ripple: bool, q: Clip) returns (k: int)
    requires start < end && q in BecomesOn(c, tracks, start, end, ripple)
    requires Cuts(op, c) <==> c.track in tracks && Meets(c, start, end)
    ensures MadeFrom(op, c, q, k)
  {
    k := 0;
    if Cuts(op, c) {
      k := OffsetOf(q, c, c.track, start, end);
      PiecesTrace(c, c.track, start, end, ripple, q);
    }
  }

  lemma RangeOrigin(t: Timeline, u: Timeline, op: Operation, q: Clip) returns (c: Clip, k: int)
    requires op.RemoveRange? || op.BatchReplace?
    requires ApplyRemoveRange(t, op.tracks, op.range, op.ripple) == Ok(u) && q in u.clips
    ensures c in t.clips && MadeFrom(op, c, q, k)
  {
    var start, end := op.range.start, op.range.start + op.range.frames;
    UniqueHasEach(op.tracks);
    c := TracksOrigin(t, Unique(op.tracks), start, end, op.ripple, q);
    k := PieceOrigin(op, c, Unique(op.tracks), start, end, op.ripple, q);
  }

  // ----- one step

  lemma InsertOrigin(library: Library, t: Timeline, id: Id, p: Placement, mode: Mode, q: Clip) returns (c: Clip)
    requires ApplyInsert(library, t, id, p, mode).Ok? && q in ApplyInsert(library, t, id, p, mode).value.clips
    ensures p.frames >= 1
    ensures q == ClipFromPlacement(id, p) || (c in t.clips && q == c.(start := q.start))
    ensures mode.Overwrite? ==> c == q
  {
    c := q;
    if mode.Overwrite? {
      ClearedWithin(t, Overlapping(t.clips, p.track, p.start, p.start + p.frames));
    } else if q != ClipFromPlacement(id, p) {
      InsertMeans(library, t, id, p, q);
      c :| c in t.clips && q == if c.track == p.track && c.start >= p.start then c.(start := c.start + p.frames) else c;
    }
  }

  lemma {:induction false} PlacedOrigin(library: Library, t: Timeline, placements: seq<Placement>, opId: Id, q: Clip)
    requires InsertAll(library, t, placements, opId).Ok? && q in InsertAll(library, t, placements, opId).value.clips
    ensures q in t.clips || exists k :: 0 <= k < |placements| && PlacedAt(q, placements, opId, k)
    decreases |placements|
  {
    if placements == [] {
    } else {
      var n := |placements| - 1;
      var before := InsertAll(library, t, placements[..n], opId).value;
      var _ := InsertOrigin(library, before, Derived(opId, Placed(n)), placements[n], Overwrite, q);
      if q in before.clips {
        PlacedOrigin(library, t, placements[..n], opId, q);
        if k :| 0 <= k < n && PlacedAt(q, placements[..n], opId, k) { assert PlacedAt(q, placements, opId, k); }
      } else {
        assert PlacedAt(q, placements, opId, n);
      }
    }
  }

  lemma BatchOrigin(library: Library, t: Timeline, op: Operation, opId: Id, q: Clip) returns (c: Clip, k: int)
    requires op.BatchReplace? && ApplyBatchReplace(library, t, op, opId).Ok?
    requires q in ApplyBatchReplace(library, t, op, opId).value.clips
    ensures Begins(op, opId, q) || (c in t.clips && MadeFrom(op, c, q, k))
  {
    c, k := q, 0;
    var cleared := ApplyRemoveRange(t, op.tracks, op.range, op.ripple).value;
    PlacedOrigin(library, cleared, op.placements, opId, q);
    if q in cleared.clips { c, k := RangeOrigin(t, cleared, op, q); }
  }

  lemma SplitOrigin(t: Timeline, op: Operation, opId: Id, q: Clip) returns (c: Clip, k: int)
    requires op.SplitClip? && ApplySplit(t, op, opId).Ok? && q in ApplySplit(t, op, opId).value.timeline.clips
    ensures c in t.clips && MadeFrom(op, c, q, k)
  {
    SplitMeans(t, op, opId, q);
    var u, whole := ApplySplit(t, op, opId).value.timeline, t.clips[IndexOf(t.clips, op.split).value];
    if q in t.clips && q.id != op.split {
      c, k := q, 0;
    } else {
      c, k := whole, if q == u.clips[|u.clips| - 1] then op.at - whole.start else 0;
    }
  }

  lemma RemoveOneOrigin(t: Timeline, id: Id, ripple: bool, q: Clip) returns (c: Clip)
    requires ApplyRemoveOne(t, id, ripple).Ok? && q in ApplyRemoveOne(t, id, ripple).value.clips
    ensures c in t.clips && q == c.(start := q.start)
  {
    RemoveOneMeans(t, id, ripple, q);
    var gone := t.clips[IndexOf(t.clips, id).value];
    c :| c in t.clips && c.id != id &&
      q == if ripple && c.track == gone.track && c.start >= EndOf(gone) then c.(start := c.start - gone.frames) else c;
  }

  lemma PutOrigin(t: Timeline, i: nat, now: Clip, q: Clip) returns (c: Clip)
    requires i < |t.clips| && now.id == t.clips[i].id && q in PutClip(t, i, now).clips
    ensures c in t.clips && q.id == c.id
    ensures q == c || (q == now && c == t.clips[i])
  {
    c := if q == now then t.clips[i] else q;
  }

  /** Operations that put one clip in the place of another. */
  lemma ChangeOrigin(library: Library, t: Timeline, op: Operation, opId: Id, q: Clip) returns (c: Clip)
    requires op.MoveClip? || op.TrimClip? || op.SetTransform? || op.SetAudio? || op.SetSpeed?
    requires Apply(library, t, op, opId).Ok? && q in Apply(library, t, op, opId).value.timeline.clips
    ensures Begins(op, opId, q) || (c in t.clips && MadeFrom(op, c, q, 0))
  {
    match op
    case MoveClip(id, track, start) =>
      var i := IndexOf(t.clips, id).value;
      c := PutOrigin(t, i, t.clips[i].(track := track, start := start), q);
    case TrimClip(id, start, frames, range) =>
      var i := IndexOf(t.clips, id).value;
      var source := TrimmedSource(library, t.clips[i].source, frames, range).value;
      c := PutOrigin(t, i, t.clips[i].(start := start, frames := frames, source := source), q);
    case SetTransform(id, transform) =>
      var i := IndexOf(t.clips, id).value;
      c := PutOrigin(t, i, t.clips[i].(transform := Some(transform)), q);
    case SetAudio(id, audio) =>
      var i := IndexOf(t.clips, id).value;
      c := PutOrigin(t, i, t.clips[i].(audio := Some(audio)), q);
    case SetSpeed(id, _, _, _) =>
      var i := IndexOf(t.clips, id).value;
      c := PutOrigin(t, i, t.clips[i].(playback := Apply(library, t, op, opId).value.timeline.clips[i].playback), q);
  }

  /** Every clip after a step is new, or made from one clip before it. */
  lemma StepOrigin(library: Library, t: Timeline, op: Operation, opId: Id, q: Clip) returns (c: Clip, k: int)
    requires Apply(library, t, op, opId).Ok?
    requires q in Apply(library, t, op, opId).value.timeline.clips
    ensures Begins(op, opId, q) || (c in t.clips && MadeFrom(op, c, q, k))
  {
    c, k := q, 0;
    match op
    case InsertClip(clip, p, mode) => c := InsertOrigin(library, t, IdOr(clip, opId, Inserted), p, mode, q);
    case RestoreClip(_, from, p) => c := InsertOrigin(library, t, Derived(opId, Restored(from)), p, Overwrite, q);
    case RemoveRange(_, _, _) => c, k := RangeOrigin(t, Apply(library, t, op, opId).value.timeline, op, q);
    case RemoveOne(id, ripple) => c := RemoveOneOrigin(t, id, ripple, q);
    case SplitClip(_, _, _, _) => c, k := SplitOrigin(t, op, opId, q);
    case BatchReplace(_, _, _, _) => c, k := BatchOrigin(library, t, op, opId, q);
    case SetTransition(_, _, _) =>
    case UpsertCaption(_) =>
    case _ => c := ChangeOrigin(library, t, op, opId, q);
  }

  // ----- whole runs

  /** A clip, and the clip it was made from by each step back to where it began. */
  datatype History = Began(clip: Clip) | Made(before: History, clip: Clip, offset: int)

  function FirstClip(h: History): Clip {
    if h.Began? then h.clip else FirstClip(h.before)
  }

  /** The frame of its first clip that a clip starts with. */
  function OffsetInFirst(h: History): int {
    if h.Began? then 0 else OffsetInFirst(h.before) + h.offset
  }

  function Length(h: History): nat {
    if h.Began? then 0 else Length(h.before) + 1
  }

  /**
   The steps make the clip this way: its first clip is one of those given or begins with a step,
   and every later one is made from the one before it by the next step.
   */
  predicate MadeBy(clips: seq<Clip>, steps: seq<Step>, h: History)
    decreases h
  {
    match h
    case Began(q) => if steps == [] then q in clips else Begins(steps[|steps| - 1].operation, steps[|steps| - 1].opId, q)
    case Made(before, q, k) =>
      steps != [] && MadeBy(clips, steps[..|steps| - 1], before) && MadeFrom(steps[|steps| - 1].operation, before.clip, q, k)
  }

  /** Every clip of the history was there after the step that made it. */
  ghost predicate Present(library: Library, t: Timeline, steps: seq<Step>, h: History)
    decreases h
  {
    && Run(library, t, steps).Ok? && h.clip in Run(library, t, steps).value.timeline.clips
    && (h.Made? ==> steps != [] && Present(library, t, steps[..|steps| - 1], h.before))
  }

  /** How many of the steps cut the clip as they found it. */
  function CutsAlong(steps: seq<Step>, h: History): nat
    decreases h
  {
    if h.Began? || steps == [] then 0
    else
      var n := |steps| - 1;
      CutsAlong(steps[..n], h.before) + (if Cuts(steps[n].operation, h.before.clip) then 1 else 0)
  }

  /** Frame j of q, which is frame k + j of o, shows its tick there or one at most d before it. */
  predicate AtMostEarly(q: Clip, o: Clip, k: int, d: nat, j: int)
    requires q.source.Timed? && o.source.Timed?
  {
    TickAt(SpanOf(o), k + j) - d <= TickAt(SpanOf(q), j) <= TickAt(SpanOf(o), k + j)
  }

  /** The clip q shows the media of o from frame k on, each frame at most d ticks early and never late. */
  predicate Shows(q: Clip, o: Clip, k: int, d: nat) {
    && 0 <= k && k + q.frames <= o.frames
    && q.source.Timed? && o.source.Timed? && q.source == SourceWith(o.source, SpanOf(q))
    && forall j :: 0 <= j <= q.frames ==> AtMostEarly(q, o, k, d, j)
  }

  lemma {:induction false} MediaStays(clips: seq<Clip>, steps: seq<Step>, h: History)
    requires MadeBy(clips, steps, h)
    ensures 0 <= OffsetInFirst(h) && OffsetInFirst(h) + h.clip.frames <= FirstClip(h).frames
    ensures FirstClip(h).source.Timed? <==> h.clip.source.Timed?
    ensures h.clip.source.Timed? ==> h.clip.source == SourceWith(FirstClip(h).source, SpanOf(h.clip))
    decreases h
  {
    match h
    case Began(_) =>
    case Made(before, _, _) =>
      MediaStays(clips, steps[..|steps| - 1], before);
  }

  /** One more step: at most one more tick if it cuts, none if it does not. */
  lemma TickLost(op: Operation, c: Clip, q: Clip, k: int, j: int)
    requires MadeFrom(op, c, q, k) && c.source.Timed? && q.source.Timed? && 0 <= j <= q.frames
    ensures TickAt(SpanOf(c), k + j) - (if Cuts(op, c) then 1 else 0) <= TickAt(SpanOf(q), j) <= TickAt(SpanOf(c), k + j)
  {
    if Cuts(op, c) { SliceDriftsByOne(SpanOf(c), k, q.frames, j); }
  }

  lemma {:induction false} FrameDrifts(clips: seq<Clip>, steps: seq<Step>, h: History, j: int)
    requires MadeBy(clips, steps, h) && h.clip.source.Timed? && FirstClip(h).source.Timed? && 0 <= j <= h.clip.frames
    ensures AtMostEarly(h.clip, FirstClip(h), OffsetInFirst(h), CutsAlong(steps, h), j)
    decreases h
  {
    match h
    case Began(_) =>
    case Made(before, q, k) =>
      var n := |steps| - 1;
      FrameDrifts(clips, steps[..n], before, k + j);
      TickLost(steps[n].operation, before.clip, q, k, j);
      assert OffsetInFirst(h) + j == OffsetInFirst(before) + (k + j);
  }

  lemma HistoryDrifts(clips: seq<Clip>, steps: seq<Step>, h: History)
    requires MadeBy(clips, steps, h) && h.clip.source.Timed?
    ensures Shows(h.clip, FirstClip(h), OffsetInFirst(h), CutsAlong(steps, h))
  {
    MediaStays(clips, steps, h);
    forall j | 0 <= j <= h.clip.frames
      ensures AtMostEarly(h.clip, FirstClip(h), OffsetInFirst(h), CutsAlong(steps, h), j)
    {
      FrameDrifts(clips, steps, h, j);
    }
  }

  /** A history as long as the run starts before it, a shorter one with the step its first clip begins with. */
  lemma {:induction false} HistoryStarts(clips: seq<Clip>, steps: seq<Step>, h: History)
    requires MadeBy(clips, steps, h)
    ensures CutsAlong(steps, h) <= Length(h) <= |steps|
    ensures if Length(h) == |steps| then FirstClip(h) in clips
            else var s := |steps| - Length(h) - 1; Begins(steps[s].operation, steps[s].opId, FirstClip(h))
    decreases h
  {
    match h
    case Began(_) =>
    case Made(before, _, _) =>
      HistoryStarts(clips, steps[..|steps| - 1], before);
  }

  lemma {:induction false} EveryClipHasAHistory(library: Library, t: Timeline, steps: seq<Step>, q: Clip) returns (h: History)
    requires Run(library, t, steps).Ok?
    requires q in Run(library, t, steps).value.timeline.clips
    ensures Present(library, t, steps, h) && MadeBy(t.clips, steps, h) && h.clip == q
    decreases |steps|
  {
    h := Began(q);
    if steps == [] {
    } else {
      var n := |steps| - 1;
      var before, op, opId := Run(library, t, steps[..n]).value.timeline, steps[n].operation, steps[n].opId;
      var c, k := StepOrigin(library, before, op, opId, q);
      if !Begins(op, opId, q) {
        var h' := EveryClipHasAHistory(library, t, steps[..n], c);
        h := Made(h', q, k);
      }
    }
  }

  /**
   After any run every timed clip shows the media of one clip: of one there before the run, or as a
   step placed it or last trimmed it. Its frames are never late, and early by at most one tick for
   every step that cut it on the way.
   */
  lemma RunDrifts(library: Library, t: Timeline, steps: seq<Step>, q: Clip) returns (h: History)
    requires Run(library, t, steps).Ok?
    requires q in Run(library, t, steps).value.timeline.clips && q.source.Timed?
    ensures Present(library, t, steps, h) && MadeBy(t.clips, steps, h) && h.clip == q
    ensures Shows(q, FirstClip(h), OffsetInFirst(h), CutsAlong(steps, h))
    ensures CutsAlong(steps, h) <= Length(h) <= |steps|
    ensures if Length(h) == |steps| then FirstClip(h) in t.clips
            else var s := |steps| - Length(h) - 1; Begins(steps[s].operation, steps[s].opId, FirstClip(h))
  {
    h := EveryClipHasAHistory(library, t, steps, q);
    HistoryStarts(t.clips, steps, h);
    HistoryDrifts(t.clips, steps, h);
  }
}
