/**
 What single edits mean for the clips and the ticks they show (src/edits.ts): insertions,
 splits, rippling removals, removal from several tracks, and generations of cuts.
 */
module EditMeaning {
  import opened Wrappers
  import opened MediaTime
  import opened Slices
  import opened Timelines
  import opened Edits
  import opened RangeRemoval
  import opened EditSafety

  // ----- ticks of cut clips

  /** A clip that shows the frames of another from k on shows a slice of its span. */
  lemma ShowsASlice(p: Clip, c: Clip, k: int)
    requires ShowsFrom(p, c, k) && c.source.Timed?
    ensures p.source.Timed? && SpanOf(p) == Slice(SpanOf(c), k, p.frames)
  {
  }

  /** Each clip of the line shows frames of the one before it, from ks[i] on. */
  predicate Generations(line: seq<Clip>, ks: seq<int>)
    decreases |ks|
  {
    |line| == |ks| + 1 &&
    (ks == [] || (Generations(line[..|ks|], ks[..|ks| - 1]) && ShowsFrom(line[|ks|], line[|ks| - 1], ks[|ks| - 1])))
  }

  function Sum(ks: seq<int>): int {
    if ks == [] then 0 else Sum(ks[..|ks| - 1]) + ks[|ks| - 1]
  }

  /** After n generations of cuts a frame shows at most the tick it showed in the first clip, and at most n less. */
  lemma {:induction false} GenerationsDrift(line: seq<Clip>, ks: seq<int>, k: int)
    requires Generations(line, ks) && line[0].source.Timed? && 0 <= k <= line[|ks|].frames
    ensures line[|ks|].source.Timed?
    ensures TickAt(SpanOf(line[0]), Sum(ks) + k) - |ks| <= TickAt(SpanOf(line[|ks|]), k) <= TickAt(SpanOf(line[0]), Sum(ks) + k)
    decreases |ks|
  {
    if ks == [] {
    } else {
      var n := |ks| - 1;
      GenerationsDrift(line[..|ks|], ks[..n], ks[n] + k);
      ShowsASlice(line[|ks|], line[n], ks[n]);
      SliceDriftsByOne(SpanOf(line[n]), ks[n], line[|ks|].frames, k);
    }
  }

  // ----- split

  lemma PartsShow(c: Clip, left: Id, right: Id, frames: FrameCount)
    requires frames < c.frames
    ensures ShowsFrom(LeftPart(c, left, frames), c, 0) && ShowsFrom(RightPart(c, right, frames), c, frames)
  {
    if c.source.Timed? { SplitIsTwoSlices(SpanOf(c), frames); }
  }

  /** Floors of a proper part of the ticks lie between none and all of them. */
  lemma PartOfTicks(s: Span, k: int)
    requires 0 <= k <= s.frames && s.ticks >= 0
    ensures 0 <= TicksBefore(s, k) <= s.ticks
  {
    Grown(0, k, s.ticks);
    Grown(k, s.frames, s.ticks);
    assert k * s.ticks == s.ticks * k && s.frames * s.ticks == s.ticks * s.frames;
    FloorAtLeast(s.ticks * k, s.frames, 0);
    WholeSpan(s);
    FloorAtMost(s.ticks * k, s.frames, s.ticks);
  }

  /**
   A split that succeeds puts in place of a clip two clips that meet at the split frame, the first
   showing its frames before it and the second those behind it; of a clip with ticks both show
   some, and together exactly its own. Every other clip stays.
   */
  lemma SplitMeans(t: Timeline, op: Operation, opId: Id, q: Clip)
    requires op.SplitClip? && ApplySplit(t, op, opId).Ok?
    ensures var c := t.clips[IndexOf(t.clips, op.split).value];
            var u, n := ApplySplit(t, op, opId).value.timeline, op.at - c.start;
            1 <= n < c.frames &&
            var left, right := u.clips[|u.clips| - 2], u.clips[|u.clips| - 1];
            && left.start == c.start && EndOf(left) == right.start == op.at && EndOf(right) == EndOf(c)
            && ShowsFrom(left, c, 0) && ShowsFrom(right, c, n) && left.id != right.id
            && (q in u.clips <==> (q in t.clips && q.id != c.id) || q == left || q == right)
            && (c.source.Timed? && c.source.range.ticks >= 1 ==>
                  && left.source.range.ticks >= 1 && right.source.range.ticks >= 1
                  && left.source.range.startTick == c.source.range.startTick
                  && left.source.range.startTick + left.source.range.ticks == right.source.range.startTick
                  && right.source.range.startTick + right.source.range.ticks == c.source.range.startTick + c.source.range.ticks)
  {
    var c := t.clips[IndexOf(t.clips, op.split).value];
    var n := op.at - c.start;
    var left, right := IdOr(op.left, opId, Label.LeftHalf), IdOr(op.right, opId, Label.RightHalf);
    PartsShow(c, left, right, n);
    WithoutMembers(t.clips, c.id);
    if c.source.Timed? && c.source.range.ticks >= 1 { PartOfTicks(SpanOf(c), n); }
  }

  /** The warning says exactly that the split falls between two ticks. */
  lemma SplitWarns(t: Timeline, op: Operation, opId: Id)
    requires op.SplitClip? && ApplySplit(t, op, opId).Ok?
    ensures var c := t.clips[IndexOf(t.clips, op.split).value];
            var n := op.at - c.start;
            RoundingApplied(opId) in ApplySplit(t, op, opId).value.warnings <==>
              c.source.Timed? && TicksBefore(SpanOf(c), n) * c.frames != c.source.range.ticks * n
  {
    var c := t.clips[IndexOf(t.clips, op.split).value];
    var x := c.source;
    if x.Timed? {
      var y := x.range.ticks * (op.at - c.start);
      assert y == (y / c.frames) * c.frames + y % c.frames;
    }
  }

  // ----- settings

  /** A transform is accepted for every clip there is, whatever its track, exactly when its values are in range. */
  lemma TransformMeans(t: Timeline, id: Id, transform: Transform)
    ensures ApplyTransform(t, id, transform).Ok? <==> HasId(t.clips, id) && TransformOk(transform)
    ensures ApplyTransform(t, id, transform).Ok? ==>
              var i := IndexOf(t.clips, id).value;
              ApplyTransform(t, id, transform) == Ok(PutClip(t, i, t.clips[i].(transform := Some(transform))))
  {
  }

  /** The fades of a clip are no longer than the clip. */
  predicate FadesFit(c: Clip) {
    c.audio.Some? ==> c.audio.value.fadeIn + c.audio.value.fadeOut <= c.frames
  }

  /** Audio settings are accepted exactly for clips of unlocked tracks that carry media, when the fades fit the clip. */
  lemma AudioMeans(t: Timeline, id: Id, audio: Fades)
    ensures ApplyAudio(t, id, audio).Ok? <==>
              HasId(t.clips, id) &&
              var c := t.clips[IndexOf(t.clips, id).value];
              && MutableTrack(t, c.track).Ok? && !MutableTrack(t, c.track).value.kind.Caption?
              && FadesOk(audio) && FadesFit(c.(audio := Some(audio)))
    ensures ApplyAudio(t, id, audio).Ok? ==>
              var i := IndexOf(t.clips, id).value;
              ApplyAudio(t, id, audio) == Ok(PutClip(t, i, t.clips[i].(audio := Some(audio))))
  {
  }

  lemma SameRatio(g: int, p: int, q: int)
    requires g > 0
    ensures p * (g * q) == (g * p) * q
    ensures p == q <==> g * p == g * q
  {
    Scaled(p, q, g);
  }

  /** The stored ratio has no common divisor, is the ratio given, and equals one exactly when that does. */
  lemma StoredSpeed(r: Rational) returns (x: int, y: int)
    requires Positive(r)
    ensures var n := Normal(r);
            && n.numerator * r.denominator == r.numerator * n.denominator
            && x * n.numerator + y * n.denominator == 1
            && (RationalEquals(n, Rational(1, 1)) == Ok(true) <==> r.numerator == r.denominator)
  {
    var g;
    g, x, y := NormalForm(r);
    var n := Normal(r);
    RationalEqualsIsCrossMultiplication(n, Rational(1, 1));
    SameRatio(g, n.numerator, n.denominator);
  }

  /**
   A speed is accepted exactly for timed clips of unlocked tracks, when it is positive. The stored
   ratio is the one asked for, in lowest terms, and the pitch warning is given exactly when
   pitch is to be preserved at a speed other than one.
   */
  lemma SpeedMeans(t: Timeline, op: Operation, opId: Id) returns (x: int, y: int)
    requires op.SetSpeed?
    ensures ApplySpeed(t, op, opId).Ok? <==>
              HasId(t.clips, op.sped) &&
              var c := t.clips[IndexOf(t.clips, op.sped).value];
              MutableTrack(t, c.track).Ok? && c.source.Timed? && Positive(op.speed)
    ensures ApplySpeed(t, op, opId).Ok? ==>
              var i, u := IndexOf(t.clips, op.sped).value, ApplySpeed(t, op, opId).value;
              && i < |u.timeline.clips| && u.timeline.clips[i].playback.Some?
              && var now := u.timeline.clips[i].playback.value;
                 && u.timeline == PutClip(t, i, t.clips[i].(playback := Some(now)))
                 && now.reverse == op.reverse && now.policy == op.policy
                 && now.speed.numerator * op.speed.denominator == op.speed.numerator * now.speed.denominator
                 && x * now.speed.numerator + y * now.speed.denominator == 1
                 && (AudioPitchChange(opId) in u.warnings <==> op.policy.PreservePitch? && op.speed.numerator != op.speed.denominator)
  {
    x, y := 0, 0;
    if Positive(op.speed) { x, y := StoredSpeed(op.speed); }
  }

  /** The last setting of a kind counts. */
  lemma LastSettingCounts(t: Timeline, id: Id, a: Transform, b: Transform, f: Fades, h: Fades)
    ensures ApplyTransform(t, id, a).Ok? ==> ApplyTransform(ApplyTransform(t, id, a).value, id, b) == ApplyTransform(t, id, b)
    ensures ApplyAudio(t, id, f).Ok? ==> ApplyAudio(ApplyAudio(t, id, f).value, id, h) == ApplyAudio(t, id, h)
  {
    if ApplyTransform(t, id, a).Ok? {
      var i, u := IndexOf(t.clips, id).value, ApplyTransform(t, id, a).value;
      FirstIndex(u.clips, id, i);
      assert u.clips[i := t.clips[i].(transform := Some(b))] == t.clips[i := t.clips[i].(transform := Some(b))];
    }
    if ApplyAudio(t, id, f).Ok? {
      var i, u := IndexOf(t.clips, id).value, ApplyAudio(t, id, f).value;
      FirstIndex(u.clips, id, i);
      assert u.clips[i := t.clips[i].(audio := Some(h))] == t.clips[i := t.clips[i].(audio := Some(h))];
    }
  }

  // ----- insert

  lemma DifferentClips(clips: seq<Clip>, c: Clip, q: Clip)
    requires DistinctIds(clips) && c in clips && q in clips && c != q
    ensures c.id != q.id
  {
    if c.id == q.id { SameIdSameClip(clips, c, q); }
  }

  lemma {:induction false} ClearedMembers(t: Timeline, removed: seq<Clip>, c: Clip)
    ensures c in RemoveClips(t, removed).clips <==> c in t.clips && forall i :: 0 <= i < |removed| ==> removed[i].id != c.id
    decreases |removed|
  {
    if removed == [] {
    } else {
      var n := |removed| - 1;
      ClearedMembers(t, removed[..n], c);
      WithoutMembers(RemoveClips(t, removed[..n]).clips, removed[n].id);
      assert forall i :: 0 <= i < n ==> removed[..n][i] == removed[i];
    }
  }

  lemma OtherIds(clips: seq<Clip>, removed: seq<Clip>, q: Clip)
    requires DistinctIds(clips) && q in clips && q !in removed && forall c :: c in removed ==> c in clips
    ensures forall i :: 0 <= i < |removed| ==> removed[i].id != q.id
  {
    forall i | 0 <= i < |removed|
      ensures removed[i].id != q.id
    {
      assert removed[i] in removed;
      DifferentClips(clips, removed[i], q);
    }
  }

  lemma NotMet(clips: seq<Clip>, track: string, start: int, end: int, q: Clip)
    requires DistinctIds(clips) && q in clips
    ensures var overlaps := Overlapping(clips, track, start, end);
            (forall i :: 0 <= i < |overlaps| ==> overlaps[i].id != q.id) <==> !(q.track == track && Meets(q, start, end))
  {
    OverlappingMembers(clips, track, start, end);
    if q !in Overlapping(clips, track, start, end) { OtherIds(clips, Overlapping(clips, track, start, end), q); }
  }

  /** Overwriting drops the clips the new one meets and leaves the others where they are. */
  lemma OverwriteMeans(library: Library, t: Timeline, id: Id, p: Placement, q: Clip)
    requires DistinctIds(t.clips) && ApplyInsert(library, t, id, p, Overwrite).Ok?
    ensures q in ApplyInsert(library, t, id, p, Overwrite).value.clips <==>
              q == ClipFromPlacement(id, p) ||
              (q in t.clips && !(q.track == p.track && Meets(q, p.start, p.start + p.frames)))
  {
    var overlaps := Overlapping(t.clips, p.track, p.start, p.start + p.frames);
    ClearedMembers(t, overlaps, q);
    if q in t.clips { NotMet(t.clips, p.track, p.start, p.start + p.frames, q); }
  }

  lemma InsertRoom(library: Library, t: Timeline, id: Id, p: Placement, q: Clip)
    requires ApplyInsert(library, t, id, p, Insert).Ok? && q in t.clips && q.track == p.track && q.start < p.start
    ensures EndOf(q) <= p.start
  {
    OverlappingMembers(t.clips, p.track, p.start, p.start + p.frames);
    if q in Overlapping(t.clips, p.track, p.start, p.start + p.frames) {
      NoneEarlier(Overlapping(t.clips, p.track, p.start, p.start + p.frames), p.start, q);
    }
  }

  /** Inserting opens a gap of the clip's length at its start; it is refused when a clip lies across the start. */
  lemma InsertMeans(library: Library, t: Timeline, id: Id, p: Placement, q: Clip)
    requires ApplyInsert(library, t, id, p, Insert).Ok?
    ensures q in ApplyInsert(library, t, id, p, Insert).value.clips <==>
              q == ClipFromPlacement(id, p) ||
              exists c :: c in t.clips && q == if c.track == p.track && c.start >= p.start then c.(start := c.start + p.frames) else c
    ensures q in t.clips && q.track == p.track && q.start < p.start ==> EndOf(q) <= p.start
  {
    Shifted(t.clips, p.track, p.start, p.frames, q);
    if q in t.clips && q.track == p.track && q.start < p.start { InsertRoom(library, t, id, p, q); }
  }

  /** Removing a clip with a ripple moves what starts behind it on its track up by its length. */
  lemma RemoveOneMeans(t: Timeline, id: Id, ripple: bool, q: Clip)
    requires ApplyRemoveOne(t, id, ripple).Ok?
    ensures var c := t.clips[IndexOf(t.clips, id).value];
            q in ApplyRemoveOne(t, id, ripple).value.clips <==>
              exists d :: d in t.clips && d.id != id &&
                q == if ripple && d.track == c.track && d.start >= EndOf(c) then d.(start := d.start - c.frames) else d
  {
    var c := t.clips[IndexOf(t.clips, id).value];
    WithoutMembers(t.clips, id);
    if ripple { Shifted(WithoutClip(t.clips, id), c.track, EndOf(c), c.start - EndOf(c), q); }
  }

  // ----- removal from several tracks

  predicate AgreeOn(xs: seq<Clip>, ys: seq<Clip>, track: string) {
    forall p :: p in xs + ys && p.track == track ==> (p in xs <==> p in ys)
  }

  lemma ShownAlike(xs: seq<Clip>, ys: seq<Clip>, f: int, c: Clip, k: int, track: string, start: int, end: int)
    requires AgreeOn(xs, ys, track)
    ensures ShownAt(xs, f, c, k, track, start, end) <==> ShownAt(ys, f, c, k, track, start, end)
  {
    assert forall p :: p in xs || p in ys ==> p in xs + ys;
  }

  lemma OneTrackOnly(t: Timeline, cut: string, start: int, end: int, ripple: bool, track: string)
    requires start < end && DistinctIds(t.clips) && FreshSlices(t.clips, cut, start, end) && track != cut
    ensures AgreeOn(t.clips, RemoveFromTrack(t, cut, start, end, ripple).clips, track)
  {
    forall p: Clip | p.track == track
      ensures p in t.clips <==> p in RemoveFromTrack(t, cut, start, end, ripple).clips
    {
      NothingElse(t, cut, start, end, ripple, p);
    }
  }

  lemma {:induction false} UniqueHasEach(s: seq<string>)
    ensures forall x :: x in Unique(s) <==> x in s
    ensures forall i, j :: 0 <= i < j < |Unique(s)| ==> Unique(s)[i] != Unique(s)[j]
    decreases |s|
  {
    if s == [] {
    } else {
      UniqueHasEach(s[..|s| - 1]);
      assert s == s[..|s| - 1] + [s[|s| - 1]];
    }
  }

  lemma AgreesOn(xs: seq<Clip>, ys: seq<Clip>, zs: seq<Clip>, track: string)
    requires AgreeOn(xs, ys, track) && AgreeOn(ys, zs, track)
    ensures AgreeOn(xs, zs, track)
  {
    forall p | p in xs + zs && p.track == track
      ensures p in xs <==> p in zs
    {
      assert p in xs ==> p in xs + ys;
      assert p in ys ==> p in ys + zs && p in xs + ys;
      assert p in zs ==> p in ys + zs;
    }
  }

  /** Tracks that are not named keep their clips; ids stay distinct. */
  lemma {:induction false} OtherTracksKept(t: Timeline, tracks: seq<string>, start: int, end: int, ripple: bool, track: string)
    requires start < end && DistinctIds(t.clips) && FreshTracks(t, tracks, start, end, ripple)
    requires RemoveFromTracks(t, tracks, start, end, ripple).Ok?
    ensures var u := RemoveFromTracks(t, tracks, start, end, ripple).value;
            DistinctIds(u.clips) && (track !in tracks ==> AgreeOn(t.clips, u.clips, track))
    decreases |tracks|
  {
    if tracks == [] {
    } else {
      var n := |tracks| - 1;
      var before := RemoveFromTracks(t, tracks[..n], start, end, ripple).value;
      OtherTracksKept(t, tracks[..n], start, end, ripple, track);
      RemovalDistinct(before, tracks[n], start, end, ripple);
      if track !in tracks {
        OneTrackOnly(before, tracks[n], start, end, ripple, track);
        AgreesOn(t.clips, before.clips, RemoveFromTrack(before, tracks[n], start, end, ripple).clips, track);
      }
    }
  }

  /** What becomes of a clip when a range is removed from some tracks. */
  function BecomesOn(c: Clip, tracks: seq<string>, start: int, end: int, ripple: bool): seq<Clip>
    requires start < end
  {
    if c.track in tracks then Becomes(c, c.track, start, end, ripple) else [c]
  }

  lemma LastMember(tracks: seq<string>, x: string)
    requires tracks != []
    ensures x in tracks <==> x in tracks[..|tracks| - 1] || x == tracks[|tracks| - 1]
  {
    assert tracks == tracks[..|tracks| - 1] + [tracks[|tracks| - 1]];
  }

  /** One more track changes what becomes of its own clips only. */
  lemma BecomesOnLast(c: Clip, tracks: seq<string>, start: int, end: int, ripple: bool)
    requires start < end && tracks != [] && tracks[|tracks| - 1] !in tracks[..|tracks| - 1]
    ensures var n := |tracks| - 1;
            BecomesOn(c, tracks, start, end, ripple) ==
              if c.track == tracks[n] then Becomes(c, tracks[n], start, end, ripple) else BecomesOn(c, tracks[..n], start, end, ripple)
  {
    LastMember(tracks, c.track);
  }

  lemma BecomesSameTrack(c: Clip, tracks: seq<string>, start: int, end: int, ripple: bool, p: Clip)
    requires start < end && p in BecomesOn(c, tracks, start, end, ripple)
    ensures p.track == c.track
  {
  }

  lemma OffTrack(c: Clip, track: string, start: int, end: int, ripple: bool)
    requires start < end && c.track != track
    ensures Becomes(c, track, start, end, ripple) == [c]
  {
  }

  lemma ThroughLast(c: Clip, d: Clip, tracks: seq<string>, start: int, end: int, ripple: bool, p: Clip)
    requires start < end && tracks != [] && tracks[|tracks| - 1] !in tracks[..|tracks| - 1]
    requires d in BecomesOn(c, tracks[..|tracks| - 1], start, end, ripple) && p in Becomes(d, tracks[|tracks| - 1], start, end, ripple)
    ensures p in BecomesOn(c, tracks, start, end, ripple)
  {
    BecomesOnLast(c, tracks, start, end, ripple);
    BecomesSameTrack(c, tracks[..|tracks| - 1], start, end, ripple, d);
    if c.track != tracks[|tracks| - 1] { OffTrack(d, tracks[|tracks| - 1], start, end, ripple); }
  }

  lemma BackThroughLast(c: Clip, d: Clip, tracks: seq<string>, start: int, end: int, ripple: bool, p: Clip)
    requires start < end && tracks != [] && tracks[|tracks| - 1] !in tracks[..|tracks| - 1]
    requires p in BecomesOn(c, tracks, start, end, ripple) && d == if c.track == tracks[|tracks| - 1] then c else p
    ensures d in BecomesOn(c, tracks[..|tracks| - 1], start, end, ripple) && p in Becomes(d, tracks[|tracks| - 1], start, end, ripple)
  {
    BecomesOnLast(c, tracks, start, end, ripple);
    BecomesSameTrack(c, tracks, start, end, ripple, p);
    if c.track != tracks[|tracks| - 1] { OffTrack(p, tracks[|tracks| - 1], start, end, ripple); }
  }

  /** The clips left on all tracks are exactly what becomes of the clips there were. */
  lemma {:induction false} AfterRemovals(t: Timeline, tracks: seq<string>, start: int, end: int, ripple: bool, p: Clip)
    requires start < end && DistinctIds(t.clips) && FreshTracks(t, tracks, start, end, ripple)
    requires forall i, j :: 0 <= i < j < |tracks| ==> tracks[i] != tracks[j]
    requires RemoveFromTracks(t, tracks, start, end, ripple).Ok?
    ensures p in RemoveFromTracks(t, tracks, start, end, ripple).value.clips <==>
              exists c :: c in t.clips && p in BecomesOn(c, tracks, start, end, ripple)
    decreases |tracks|
  {
    if tracks == [] {
      assert forall c :: BecomesOn(c, tracks, start, end, ripple) == [c];
    } else {
      var n := |tracks| - 1;
      var before := RemoveFromTracks(t, tracks[..n], start, end, ripple).value;
      OtherTracksKept(t, tracks[..n], start, end, ripple, tracks[n]);
      AfterRemoval(before, tracks[n], start, end, ripple, p);
      if p in RemoveFromTracks(t, tracks, start, end, ripple).value.clips {
        var d :| d in before.clips && p in Becomes(d, tracks[n], start, end, ripple);
        AfterRemovals(t, tracks[..n], start, end, ripple, d);
        var c :| c in t.clips && d in BecomesOn(c, tracks[..n], start, end, ripple);
        ThroughLast(c, d, tracks, start, end, ripple, p);
      }
      if c :| c in t.clips && p in BecomesOn(c, tracks, start, end, ripple) {
        var d := if c.track == tracks[n] then c else p;
        AfterRemovals(t, tracks[..n], start, end, ripple, d);
        BackThroughLast(c, d, tracks, start, end, ripple, p);
      }
    }
  }

  /** Every frame of every named track goes where the removal of the range sends it. */
  lemma {:induction false} FramesAfterRemovals(t: Timeline, tracks: seq<string>, start: int, end: int, ripple: bool, c: Clip, k: int, f: int)
    requires start < end && DistinctIds(t.clips) && FreshTracks(t, tracks, start, end, ripple)
    requires forall i, j :: 0 <= i < j < |tracks| ==> tracks[i] != tracks[j]
    requires RemoveFromTracks(t, tracks, start, end, ripple).Ok?
    requires c in t.clips && c.track in tracks && 0 <= k < c.frames
    ensures ShownAt(RemoveFromTracks(t, tracks, start, end, ripple).value.clips, f, c, k, c.track, start, end) <==>
              FrameAfter(c.start + k, start, end, ripple) == Some(f)
    decreases |tracks|
  {
    var n := |tracks| - 1;
    var before := RemoveFromTracks(t, tracks[..n], start, end, ripple).value;
    OtherTracksKept(t, tracks[..n], start, end, ripple, c.track);
    if c.track == tracks[n] {
      assert c in t.clips + before.clips;
      FramesAfterRemoval(before, tracks[n], start, end, ripple, c, k, f);
    } else {
      FramesAfterRemovals(t, tracks[..n], start, end, ripple, c, k, f);
      OneTrackOnly(before, tracks[n], start, end, ripple, c.track);
      ShownAlike(before.clips, RemoveFromTrack(before, tracks[n], start, end, ripple).clips, f, c, k, c.track, start, end);
    }
  }

  /** The remove-range operation as a whole. */
  lemma RemoveRangeMeans(t: Timeline, tracks: seq<string>, r: SequenceRange, ripple: bool, c: Clip, k: int, f: int)
    requires DistinctIds(t.clips) && FreshRange(t, tracks, r, ripple) && ApplyRemoveRange(t, tracks, r, ripple).Ok?
    requires c in t.clips && 0 <= k < c.frames
    ensures var u, end := ApplyRemoveRange(t, tracks, r, ripple).value, r.start + r.frames;
            if c.track in tracks then
              ShownAt(u.clips, f, c, k, c.track, r.start, end) <==> FrameAfter(c.start + k, r.start, end, ripple) == Some(f)
            else c in u.clips
  {
    var end := r.start + r.frames;
    UniqueHasEach(tracks);
    if c.track in tracks {
      FramesAfterRemovals(t, Unique(tracks), r.start, end, ripple, c, k, f);
    } else {
      OtherTracksKept(t, Unique(tracks), r.start, end, ripple, c.track);
      assert c in t.clips + ApplyRemoveRange(t, tracks, r, ripple).value.clips;
    }
  }
}
