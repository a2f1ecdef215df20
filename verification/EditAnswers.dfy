/**
 What every operation answers (src/edits.ts): exactly when it is accepted, what then changes, and
 that a fault tells a true reason. Clips and tracks have distinct ids, as their primary keys make
 them.
 */
module EditAnswers {
  import opened Wrappers
  import opened Collections
  import opened MediaTime
  import opened Slices
  import opened Timelines
  import opened Edits
  import opened RangeRemoval
  import opened EditSafety
  import opened EditMeaning
  import opened EditLaws
  import opened EditFrames

  // ----- clips and tracks

  predicate DistinctTracks(tracks: seq<Track>) {
    forall i, j :: 0 <= i < j < |tracks| ==> tracks[i].id != tracks[j].id
  }

  /** Clips and tracks with their keys. */
  predicate Keyed(t: Timeline) {
    DistinctIds(t.clips) && DistinctTracks(t.tracks)
  }

  lemma TrackFound(t: Timeline, track: Track)
    requires DistinctTracks(t.tracks) && track in t.tracks
    ensures FindTrack(t.tracks, track.id) == Some(track)
    ensures MutableTrack(t, track.id) == if track.locked then Err(TrackLocked) else Ok(track)
  {
    var i :| 0 <= i < |t.tracks| && t.tracks[i] == track;
    assert FindTrack(t.tracks, track.id).Some?;
    var j :| 0 <= j < |t.tracks| && t.tracks[j] == FindTrack(t.tracks, track.id).value;
  }

  lemma TrackMissing(t: Timeline, id: string)
    requires forall track :: track in t.tracks ==> track.id != id
    ensures MutableTrack(t, id) == Err(NotFound)
  {
  }

  lemma ClipFound(t: Timeline, c: Clip) returns (i: nat)
    requires DistinctIds(t.clips) && c in t.clips
    ensures i < |t.clips| && t.clips[i] == c && IndexOf(t.clips, c.id) == Some(i)
  {
    i :| 0 <= i < |t.clips| && t.clips[i] == c;
    OnlyIndex(t.clips, i);
  }

  /** One clip is another now, in its place; nothing else changed. */
  predicate Replaced(t: Timeline, u: Timeline, c: Clip, d: Clip) {
    exists i :: 0 <= i < |t.clips| && t.clips[i] == c && u == t.(clips := t.clips[i := d])
  }

  /** Where a clip would lie on a track that is not an audio track no other clip may be. */
  predicate Room(t: Timeline, track: Track, id: Id, start: int, frames: int) {
    track.kind == Audio || forall d :: d in t.clips && d.track == track.id && d.id != id ==> EndOf(d) <= start || start + frames <= d.start
  }

  lemma RoomMeans(t: Timeline, i: nat, d: Clip, track: Track)
    requires Keyed(t) && i < |t.clips| && d.id == t.clips[i].id && track in t.tracks && d.track == track.id
    ensures OverlapFault(PutClip(t, i, d), d) == if Room(t, track, d.id, d.start, d.frames) then None else Some(InvalidRange)
  {
    var u := PutClip(t, i, d);
    TrackFound(t, track);
    forall j | 0 <= j < |t.clips| && j != i
      ensures u.clips[j] == t.clips[j] && t.clips[j] in t.clips && t.clips[j].id != d.id
    {
    }
    if !Room(t, track, d.id, d.start, d.frames) {
      var x :| x in t.clips && x.track == track.id && x.id != d.id && !(EndOf(x) <= d.start || d.start + d.frames <= x.start);
      var j :| 0 <= j < |t.clips| && t.clips[j] == x;
      assert u.clips[j] == x && Meets(x, d.start, EndOf(d));
    }
  }

  // ----- sources and placements

  predicate RangeInOrder(r: Range) {
    && !Blank(r.stream) && !Blank(r.hash) && 0 <= r.startTick && 1 <= r.ticks
    && 1 <= r.timeBase.numerator && 1 <= r.timeBase.denominator
  }

  predicate SameBase(a: Rational, b: Rational) {
    a.numerator * b.denominator == b.numerator * a.denominator
  }

  /** The range is one of a known stream of the artifact that is still what the range says it is. */
  predicate SourceFits(library: Library, artifact: string, r: Range) {
    && RangeInOrder(r) && r.stream in library.streams && r.hash in library.objects
    && var s := library.streams[r.stream];
       && s.artifact == artifact && s.hash == r.hash && 1 <= s.timeBase.numerator && 1 <= s.timeBase.denominator
       && SameBase(r.timeBase, s.timeBase) && r.startTick + r.ticks <= s.ticks
  }

  predicate SourceReason(library: Library, artifact: string, r: Range, fault: Fault) {
    match fault
    case NotFound => r.stream !in library.streams
    case SourceReplaced =>
      r.stream in library.streams &&
      var s := library.streams[r.stream]; s.artifact != artifact || s.hash != r.hash || !SameBase(r.timeBase, s.timeBase)
    case InvalidRange => r.stream in library.streams && r.startTick + r.ticks > library.streams[r.stream].ticks
    case ObjectUnavailable => r.hash !in library.objects
    case BadValue =>
      !RangeInOrder(r) ||
      (r.stream in library.streams && var b := library.streams[r.stream].timeBase; b.numerator < 1 || b.denominator < 1)
    case _ => false
  }

  lemma SourceAnswers(library: Library, artifact: string, r: Range)
    ensures var answer := TimedSource(library, artifact, r);
            && (answer.Ok? <==> SourceFits(library, artifact, r))
            && (answer.Ok? ==> answer.value == library.streams[r.stream])
            && (answer.Err? ==> SourceReason(library, artifact, r, answer.error))
  {
    if RangeOk(r) && r.stream in library.streams && Positive(library.streams[r.stream].timeBase) {
      RationalEqualsIsCrossMultiplication(r.timeBase, library.streams[r.stream].timeBase);
    }
  }

  predicate TransformInOrder(x: Transform) {
    && x.scaleX > 0.0 && x.scaleY > 0.0
    && forall part :: part in [x.cropTop, x.cropRight, x.cropBottom, x.cropLeft, x.opacity] ==> 0.0 <= part <= 1.0
  }

  lemma TransformAsked(x: Transform)
    ensures TransformOk(x) <==> TransformInOrder(x)
  {
    var parts := [x.cropTop, x.cropRight, x.cropBottom, x.cropLeft, x.opacity];
    assert parts[0] in parts && parts[1] in parts && parts[2] in parts && parts[3] in parts && parts[4] in parts;
  }

  /** The values of a placement that do not depend on what it refers to. */
  predicate ValuesInOrder(p: Placement) {
    && 0 <= p.start && 1 <= p.frames
    && (p.transform.Some? ==> TransformInOrder(p.transform.value))
    && (p.audio.Some? ==> 0 <= p.audio.value.fadeIn && 0 <= p.audio.value.fadeOut)
    && (p.source.Still? ==> !Blank(p.source.path))
    && (p.source.Timed? && p.speed.Some? ==> 1 <= p.speed.value.numerator && 1 <= p.speed.value.denominator)
  }

  /** A placement fits a track: media of the track's kind, stills on video tracks, timed media with a policy for its pitch. */
  predicate Placeable(library: Library, t: Timeline, track: Track, p: Placement) {
    && ValuesInOrder(p) && p.source.artifact in library.artifacts && track.sequence == t.sequence && track.kind != Caption
    && match p.source
       case Still(_, _, hash) => track.kind == Video && hash in library.objects
       case Timed(artifact, r) => SourceFits(library, artifact, r) && library.streams[r.stream].kind == track.kind && p.policy.Some?
  }

  predicate PlacementReason(library: Library, t: Timeline, track: Track, p: Placement, fault: Fault) {
    match fault
    case BadValue => !ValuesInOrder(p) || (p.source.Timed? && SourceReason(library, p.source.artifact, p.source.range, BadValue))
    case NotFound => p.source.artifact !in library.artifacts || (p.source.Timed? && p.source.range.stream !in library.streams)
    case ObjectUnavailable => (if p.source.Still? then p.source.hash else p.source.range.hash) !in library.objects
    case InvalidInput =>
      || track.kind == Caption || track.sequence != t.sequence
      || (p.source.Still? && track.kind != Video)
      || (p.source.Timed? && p.policy.None?)
      || (p.source.Timed? && p.source.range.stream in library.streams && library.streams[p.source.range.stream].kind != track.kind)
    case SourceReplaced => p.source.Timed? && SourceReason(library, p.source.artifact, p.source.range, fault)
    case InvalidRange => p.source.Timed? && SourceReason(library, p.source.artifact, p.source.range, fault)
    case _ => false
  }

  lemma PlacementAnswers(library: Library, t: Timeline, track: Track, p: Placement)
    ensures var fault := PlacementFault(library, t, track, p);
            && (fault.None? <==> Placeable(library, t, track, p))
            && (fault.Some? ==> PlacementReason(library, t, track, p, fault.value))
  {
    if p.transform.Some? { TransformAsked(p.transform.value); }
    if p.source.Timed? { SourceAnswers(library, p.source.artifact, p.source.range); }
  }

  /**
   A clip made of a placement gives that placement back, with what was left open filled in: speed one,
   forward, pitch preserved. And a clip made of the placement of a clip is that clip, enabled and
   without a link group.
   */
  lemma PlacedClip(id: Id, p: Placement, c: Clip)
    requires p.frames >= 1 && (c.playback.Some? <==> c.source.Timed?)
    ensures var made := ClipFromPlacement(id, p);
            && made.id == id && made.enabled && made.linkGroup == None
            && PlacementFromClip(made) ==
                 if p.source.Still? then p.(speed := None, reverse := None, policy := None)
                 else p.(speed := Some(if p.speed == None then Rational(1, 1) else p.speed.value),
                         reverse := Some(p.reverse == Some(true)),
                         policy := Some(if p.policy == None then PreservePitch else p.policy.value))
    ensures ClipFromPlacement(c.id, PlacementFromClip(c)) == c.(enabled := true, linkGroup := None)
  {
  }

  // ----- placing and removing clips

  /** Inserting is accepted for a new id, an unlocked track and a placement that fits it; a gap is not opened inside a clip. */
  predicate Insertable(library: Library, t: Timeline, id: Id, track: Track, p: Placement, mode: Mode) {
    && !HasId(t.clips, id) && !track.locked && Placeable(library, t, track, p)
    && (mode == Insert ==> forall c :: c in t.clips && c.track == p.track ==> EndOf(c) <= p.start || p.start <= c.start)
  }

  predicate InsertReason(library: Library, t: Timeline, id: Id, track: Track, p: Placement, mode: Mode, fault: Fault) {
    || (fault == AlreadyExists && HasId(t.clips, id))
    || (fault == TrackLocked && track.locked)
    || (fault == InvalidRange && mode == Insert && exists c :: c in t.clips && c.track == p.track && c.start < p.start < EndOf(c))
    || PlacementReason(library, t, track, p, fault)
  }

  lemma InsertAnswers(library: Library, t: Timeline, id: Id, track: Track, p: Placement, mode: Mode)
    requires Keyed(t) && track in t.tracks && p.track == track.id
    ensures var r := ApplyInsert(library, t, id, p, mode);
            && (r.Ok? <==> Insertable(library, t, id, track, p, mode))
            && (r.Err? ==> InsertReason(library, t, id, track, p, mode, r.error))
  {
    TrackFound(t, track);
    PlacementAnswers(library, t, track, p);
    if p.frames >= 1 {
      OverlappingMembers(t.clips, p.track, p.start, p.start + p.frames);
      var overlaps := Overlapping(t.clips, p.track, p.start, p.start + p.frames);
      if StartsBefore(overlaps, p.start) {
        var i :| 0 <= i < |overlaps| && overlaps[i].start < p.start;
        assert overlaps[i] in overlaps;
      } else if c :| c in t.clips && c.track == p.track && c.start < p.start < EndOf(c) {
        assert c in overlaps;
        NoneEarlier(overlaps, p.start, c);
      }
    }
  }

  /** Restoring asks for the edit it undoes, and then overwrites. */
  lemma RestoreAnswers(library: Library, t: Timeline, op: Operation, opId: Id, track: Track)
    requires op.RestoreClip? && Keyed(t) && track in t.tracks && op.placement.track == track.id
    ensures var r, id := Apply(library, t, op, opId), Derived(opId, Restored(op.from));
            && (r.Ok? <==> op.action in library.actions && Insertable(library, t, id, track, op.placement, Overwrite))
            && (r == Err(NotFound) <== op.action !in library.actions)
  {
    InsertAnswers(library, t, Derived(opId, Restored(op.from)), track, op.placement, Overwrite);
  }

  /** Removing a clip asks only for its track to be unlocked. */
  lemma RemoveOneAnswers(t: Timeline, c: Clip, track: Track, ripple: bool)
    requires Keyed(t) && c in t.clips && track in t.tracks && c.track == track.id
    ensures ApplyRemoveOne(t, c.id, ripple).Ok? <==> !track.locked
    ensures ApplyRemoveOne(t, c.id, ripple).Err? ==> ApplyRemoveOne(t, c.id, ripple) == Err(TrackLocked)
  {
    var i := ClipFound(t, c);
    TrackFound(t, track);
  }

  // ----- one clip

  lemma MoveAnswers(t: Timeline, c: Clip, from: Track, to: Track, start: int)
    requires Keyed(t) && c in t.clips && from in t.tracks && to in t.tracks && c.track == from.id
    ensures var r, room := ApplyMove(t, c.id, to.id, start), Room(t, to, c.id, start, c.frames);
            && (r.Ok? <==> !from.locked && !to.locked && from.kind == to.kind && 0 <= start && room)
            && (r.Ok? ==> Replaced(t, r.value, c, c.(track := to.id, start := start)))
            && (r.Err? ==> match r.error
                           case TrackLocked => from.locked || to.locked
                           case InvalidInput => from.kind != to.kind
                           case BadValue => start < 0
                           case InvalidRange => !room
                           case _ => false)
  {
    var i := ClipFound(t, c);
    TrackFound(t, from);
    TrackFound(t, to);
    RoomMeans(t, i, c.(track := to.id, start := start), to);
  }

  /** The source of a trimmed clip: the range given, or its own with no more ticks than the clip has frames. */
  function SourceTrimmed(source: Source, frames: int, range: Option<Range>): Source {
    match source
    case Still(_, _, _) => source
    case Timed(artifact, own) =>
      match range
      case Some(given) => Timed(artifact, given)
      case None => Timed(artifact, if frames < own.ticks then own.(ticks := frames) else own)
  }

  lemma TrimAnswers(library: Library, t: Timeline, c: Clip, track: Track, start: int, frames: int, range: Option<Range>)
    requires Keyed(t) && c in t.clips && track in t.tracks && c.track == track.id
    ensures var r, room := ApplyTrim(library, t, c.id, start, frames, range), Room(t, track, c.id, start, frames);
            && (r.Ok? <==>
                  && !track.locked && 0 <= start && 1 <= frames && room
                  && (range.Some? ==> c.source.Timed? && SourceFits(library, c.source.artifact, range.value)))
            && (r.Ok? ==> Replaced(t, r.value, c, c.(start := start, frames := frames, source := SourceTrimmed(c.source, frames, range))))
            && (r.Err? ==>
                  || (r.error == TrackLocked && track.locked)
                  || (r.error == BadValue && (start < 0 || frames < 1))
                  || (r.error == InvalidInput && range.Some? && c.source.Still?)
                  || (r.error == InvalidRange && !room)
                  || (range.Some? && SourceReason(library, c.source.artifact, range.value, r.error)))
  {
    var i := ClipFound(t, c);
    TrackFound(t, track);
    if range.Some? { SourceAnswers(library, c.source.artifact, range.value); }
    if frames >= 1 { RoomMeans(t, i, c.(start := start, frames := frames, source := SourceTrimmed(c.source, frames, range)), track); }
  }

  /** The id a part is given, or the one derived for its side. */
  function PartId(given: Option<Id>, opId: Id, side: Label): Id {
    match given
    case Some(id) => id
    case None => Derived(opId, side)
  }

  /** Some but not all ticks of a timed clip come before the split. */
  predicate TicksOnBothSides(c: Clip, at: int) {
    c.source.Timed? ==> TicksBefore(SpanOf(c), at - c.start) != 0 && TicksBefore(SpanOf(c), at - c.start) != c.source.range.ticks
  }

  predicate TakenElsewhere(t: Timeline, c: Clip, left: Id, right: Id) {
    exists d :: d in t.clips && d != c && (d.id == left || d.id == right)
  }

  lemma TakenMeans(t: Timeline, c: Clip, left: Id, right: Id)
    requires DistinctIds(t.clips) && c in t.clips
    ensures TakenByOthers(t.clips, c.id, left, right) <==> TakenElsewhere(t, c, left, right)
  {
    if d :| d in t.clips && d != c && (d.id == left || d.id == right) {
      DifferentClips(t.clips, c, d);
      var j :| 0 <= j < |t.clips| && t.clips[j] == d;
    }
  }

  /**
   A split is accepted inside a clip of an unlocked track, for two ids no other clip has, when some
   but not all of its ticks come before the split.
   */
  lemma SplitAnswers(t: Timeline, op: Operation, opId: Id, c: Clip, track: Track)
    requires op.SplitClip? && Keyed(t) && c in t.clips && op.split == c.id && track in t.tracks && c.track == track.id
    ensures var r, left, right := ApplySplit(t, op, opId), PartId(op.left, opId, Label.LeftHalf), PartId(op.right, opId, Label.RightHalf);
            && (r.Ok? <==>
                  && !track.locked && c.start < op.at < EndOf(c) && left != right && !TakenElsewhere(t, c, left, right)
                  && TicksOnBothSides(c, op.at))
            && (r.Err? ==> match r.error
                           case TrackLocked => track.locked
                           case InvalidRange => !(c.start < op.at < EndOf(c)) || !TicksOnBothSides(c, op.at)
                           case AlreadyExists => left == right || TakenElsewhere(t, c, left, right)
                           case _ => false)
  {
    hide HasId, TakenByOthers, TakenElsewhere, TicksBefore;
    var i := ClipFound(t, c);
    TrackFound(t, track);
    TakenMeans(t, c, PartId(op.left, opId, Label.LeftHalf), PartId(op.right, opId, Label.RightHalf));
  }

  /** The first part carries the left id and the second the right one; both come last, behind the clips that stay. */
  lemma SplitParts(t: Timeline, op: Operation, opId: Id)
    requires op.SplitClip? && ApplySplit(t, op, opId).Ok?
    ensures var clips := ApplySplit(t, op, opId).value.timeline.clips;
            && |clips| >= 2
            && clips[|clips| - 2].id == PartId(op.left, opId, Label.LeftHalf)
            && clips[|clips| - 1].id == PartId(op.right, opId, Label.RightHalf)
            && clips[|clips| - 2].start < clips[|clips| - 1].start == op.at
            && Sifted(t.clips, clips[..|clips| - 2], (d: Clip) => d.id != op.split)
  {
    hide HasId, TakenByOthers, TicksBefore, MutableTrack;
    var clips := ApplySplit(t, op, opId).value.timeline.clips;
    FilterSifts((d: Clip) => d.id != op.split, t.clips);
    assert clips[..|clips| - 2] == WithoutClip(t.clips, op.split);
  }

  // ----- settings

  /** A transform is put on any clip, on a locked track too, when its values are in order. */
  lemma TransformAnswers(t: Timeline, c: Clip, x: Transform)
    requires Keyed(t) && c in t.clips
    ensures var r := ApplyTransform(t, c.id, x);
            && (r.Ok? <==> TransformInOrder(x))
            && (r.Ok? ==> Replaced(t, r.value, c, c.(transform := Some(x))))
            && (r.Err? ==> r == Err(BadValue))
  {
    var i := ClipFound(t, c);
    TransformAsked(x);
  }

  lemma AudioAnswers(t: Timeline, c: Clip, track: Track, x: Fades)
    requires Keyed(t) && c in t.clips && track in t.tracks && c.track == track.id
    ensures var r := ApplyAudio(t, c.id, x);
            && (r.Ok? <==> !track.locked && track.kind != Caption && 0 <= x.fadeIn && 0 <= x.fadeOut && x.fadeIn + x.fadeOut <= c.frames)
            && (r.Ok? ==> Replaced(t, r.value, c, c.(audio := Some(x))))
            && (r.Err? ==> match r.error
                           case TrackLocked => track.locked
                           case InvalidInput => track.kind == Caption
                           case BadValue => x.fadeIn < 0 || x.fadeOut < 0
                           case InvalidRange => x.fadeIn + x.fadeOut > c.frames
                           case _ => false)
  {
    var i := ClipFound(t, c);
    TrackFound(t, track);
  }

  lemma SpeedAnswers(t: Timeline, op: Operation, opId: Id, c: Clip, track: Track)
    requires op.SetSpeed? && Keyed(t) && c in t.clips && op.sped == c.id && track in t.tracks && c.track == track.id
    ensures var r := ApplySpeed(t, op, opId);
            && (r.Ok? <==> !track.locked && c.source.Timed? && 1 <= op.speed.numerator && 1 <= op.speed.denominator)
            && (r.Err? ==> match r.error
                           case TrackLocked => track.locked
                           case InvalidInput => c.source.Still?
                           case BadValue => op.speed.numerator < 1 || op.speed.denominator < 1
                           case _ => false)
  {
    var i := ClipFound(t, c);
    TrackFound(t, track);
  }

  // ----- transitions and captions

  /** A transition fits a pair of clips: it is theirs, they meet on its track, and it is no longer than either. */
  predicate FitsPair(x: Transition, a: Clip, b: Clip) {
    && x.track == a.track && x.outgoing == a.id && x.incoming == b.id
    && 1 <= x.frames && x.frames <= a.frames && x.frames <= b.frames && EndOf(a) == b.start
  }

  /**
   Setting a transition is accepted for two clips of one unlocked video track that it fits; after it
   the transitions are those there were, but of this pair only the one that was set. Nothing else
   changes.
   */
  lemma TransitionAnswers(t: Timeline, a: Clip, b: Clip, track: Track, transition: Option<Transition>, y: Transition)
    requires Keyed(t) && a in t.clips && b in t.clips && track in t.tracks && a.track == track.id
    ensures var r := ApplyTransition(t, a.id, b.id, transition);
            && (r.Ok? <==>
                  && !track.locked && track.kind == Video && b.track == a.track
                  && (transition.Some? ==> FitsPair(transition.value, a, b)))
            && (r.Ok? ==>
                  && r.value == t.(transitions := r.value.transitions)
                  && (y in r.value.transitions <==>
                        transition == Some(y) || (y in t.transitions && !(y.outgoing == a.id && y.incoming == b.id))))
            && (r.Err? ==> match r.error
                           case TrackLocked => track.locked
                           case InvalidInput =>
                             || track.kind != Video || b.track != a.track
                             || (transition.Some? && var x := transition.value; x.track != a.track || x.outgoing != a.id || x.incoming != b.id)
                           case BadValue => transition.Some? && transition.value.frames < 1
                           case InvalidRange =>
                             transition.Some? && var x := transition.value; x.frames > a.frames || x.frames > b.frames || EndOf(a) != b.start
                           case _ => false)
  {
    var i := ClipFound(t, a);
    var j := ClipFound(t, b);
    TrackFound(t, track);
    Filtered((x: Transition) => x.outgoing != a.id || x.incoming != b.id, t.transitions, y);
  }

  lemma CaptionAnswers(library: Library, t: Timeline, cue: Cue, track: Track)
    requires Keyed(t) && track in t.tracks && cue.track == track.id
    ensures var r := ApplyCaption(library, t, cue);
            var told := !Blank(cue.text) && !Blank(cue.style);
            && (r.Ok? <==>
                  && !track.locked && track.kind == Caption && 0 <= cue.start && 1 <= cue.frames && told
                  && (cue.selection.Some? ==> cue.selection.value.transcript in library.transcripts && RangeInOrder(cue.selection.value.range)))
            && (r.Err? ==> match r.error
                           case TrackLocked => track.locked
                           case InvalidInput => track.kind != Caption
                           case BadValue => cue.start < 0 || cue.frames < 1 || !told || (cue.selection.Some? && !RangeInOrder(cue.selection.value.range))
                           case NotFound => cue.selection.Some? && cue.selection.value.transcript !in library.transcripts
                           case _ => false)
  {
    TrackFound(t, track);
  }

  // ----- ranges of tracks

  /** A track of the list that is not there, or one that is locked. */
  predicate TrackReason(t: Timeline, tracks: seq<string>, fault: Fault) {
    || (fault == NotFound && exists id :: id in tracks && forall track :: track in t.tracks ==> track.id != id)
    || (fault == TrackLocked && exists track :: track in t.tracks && track.id in tracks && track.locked)
  }

  predicate AllUnlocked(t: Timeline, tracks: seq<string>) {
    forall id :: id in tracks ==> exists track :: track in t.tracks && track.id == id && !track.locked
  }

  lemma OneTrackAnswers(t: Timeline, u: Timeline, id: string)
    requires DistinctTracks(t.tracks) && u.tracks == t.tracks
    ensures MutableTrack(u, id).Ok? <==> AllUnlocked(t, [id])
    ensures MutableTrack(u, id).Err? ==> TrackReason(t, [id], MutableTrack(u, id).error)
  {
    if track :| track in t.tracks && track.id == id {
      TrackFound(t, track);
    }
    if x :| x in t.tracks && x.id == id && !x.locked {
      TrackFound(t, x);
      assert forall other :: other in [id] ==> other == id;
    }
    assert id in [id];
  }

  lemma MoreTracks(t: Timeline, tracks: seq<string>, fault: Fault)
    requires tracks != []
    ensures var n := |tracks| - 1;
            && (AllUnlocked(t, tracks) <==> AllUnlocked(t, tracks[..n]) && AllUnlocked(t, [tracks[n]]))
            && (TrackReason(t, tracks[..n], fault) || TrackReason(t, [tracks[n]], fault) ==> TrackReason(t, tracks, fault))
  {
    var n := |tracks| - 1;
    forall id
      ensures id in tracks <==> id in tracks[..n] || id in [tracks[n]]
    {
      LastMember(tracks, id);
    }
  }

  lemma {:induction false} TracksAnswers(t: Timeline, tracks: seq<string>, start: int, end: int, ripple: bool)
    requires start < end && DistinctTracks(t.tracks)
    ensures var r := RemoveFromTracks(t, tracks, start, end, ripple);
            && (r.Ok? <==> AllUnlocked(t, tracks))
            && (r.Ok? ==> r.value.tracks == t.tracks)
            && (r.Err? ==> TrackReason(t, tracks, r.error))
    decreases |tracks|
  {
    if tracks == [] {
    } else {
      hide AllUnlocked, TrackReason;
      var n := |tracks| - 1;
      TracksAnswers(t, tracks[..n], start, end, ripple);
      var before := RemoveFromTracks(t, tracks[..n], start, end, ripple);
      var r := RemoveFromTracks(t, tracks, start, end, ripple);
      MoreTracks(t, tracks, if r.Err? then r.error else NotFound);
      if before.Ok? {
        OneTrackAnswers(t, before.value, tracks[n]);
        CutsKeepCues(before.value, OnTrack(before.value.clips, tracks[n]), start, end, ripple);
      }
    }
  }

  /** A range is removed when it is one of this sequence and every track named is there and unlocked. */
  lemma RangeAnswers(t: Timeline, tracks: seq<string>, r: SequenceRange, ripple: bool)
    requires DistinctTracks(t.tracks)
    ensures var answer := ApplyRemoveRange(t, tracks, r, ripple);
            && (answer.Ok? <==> !Blank(r.sequence) && r.sequence == t.sequence && 0 <= r.start && 1 <= r.frames && AllUnlocked(t, tracks))
            && (answer.Err? ==>
                  || (answer.error == BadValue && (Blank(r.sequence) || r.start < 0 || r.frames < 1))
                  || (answer.error == InvalidRange && r.sequence != t.sequence)
                  || TrackReason(t, tracks, answer.error))
  {
    UniqueHasEach(tracks);
    if RangeFault(t, r).None? { TracksAnswers(t, Unique(tracks), r.start, r.start + r.frames, ripple); }
  }

  // ----- batches

  /** The placement names an unlocked track that it fits. */
  predicate Accepted(library: Library, t: Timeline, p: Placement) {
    exists track :: track in t.tracks && track.id == p.track && !track.locked && Placeable(library, t, track, p)
  }

  /** No clip has an id of the kind the operation generates for its placements. */
  ghost predicate NewToBatch(clips: seq<Clip>, opId: Id, n: nat) {
    forall k: nat :: k >= n ==> !HasId(clips, Derived(opId, Placed(k)))
  }

  lemma OverwriteAnswers(library: Library, t: Timeline, id: Id, p: Placement)
    requires DistinctTracks(t.tracks) && !HasId(t.clips, id)
    ensures ApplyInsert(library, t, id, p, Overwrite).Ok? <==> Accepted(library, t, p)
  {
    if track :| track in t.tracks && track.id == p.track {
      TrackFound(t, track);
      PlacementAnswers(library, t, track, p);
      if x :| x in t.tracks && x.id == p.track && !x.locked && Placeable(library, t, x, p) { TrackFound(t, x); }
    } else {
      TrackMissing(t, p.track);
    }
  }

  lemma OverwrittenIds(library: Library, t: Timeline, id: Id, p: Placement, x: Id)
    requires ApplyInsert(library, t, id, p, Overwrite).Ok? && HasId(ApplyInsert(library, t, id, p, Overwrite).value.clips, x)
    ensures x == id || HasId(t.clips, x)
  {
    var u := ApplyInsert(library, t, id, p, Overwrite).value;
    var i :| 0 <= i < |u.clips| && u.clips[i].id == x;
    if i < |u.clips| - 1 {
      var overlaps := Overlapping(t.clips, p.track, p.start, p.start + p.frames);
      assert u.clips[i] in RemoveClips(t, overlaps).clips;
      ClearedMembers(t, overlaps, u.clips[i]);
      HasIdIsMember(t.clips, x);
    }
  }

  lemma LastPlacement(library: Library, t: Timeline, before: Timeline, p: Placement, opId: Id, n: nat)
    requires DistinctTracks(t.tracks) && OnlyClips(t, before) && NewToBatch(before.clips, opId, n)
    ensures var r := ApplyInsert(library, before, Derived(opId, Placed(n)), p, Overwrite);
            && (r.Ok? <==> Accepted(library, t, p))
            && (r.Ok? ==> OnlyClips(t, r.value) && NewToBatch(r.value.clips, opId, n + 1))
  {
    var id := Derived(opId, Placed(n));
    OverwriteAnswers(library, before, id, p);
    assert Accepted(library, before, p) <==> Accepted(library, t, p);
    if ApplyInsert(library, before, id, p, Overwrite).Ok? {
      InsertFrame(library, before, id, p, Overwrite);
      forall k: nat | k >= n + 1
        ensures !HasId(ApplyInsert(library, before, id, p, Overwrite).value.clips, Derived(opId, Placed(k)))
      {
        if HasId(ApplyInsert(library, before, id, p, Overwrite).value.clips, Derived(opId, Placed(k))) {
          OverwrittenIds(library, before, id, p, Derived(opId, Placed(k)));
        }
      }
    }
  }

  predicate AllAccepted(library: Library, t: Timeline, placements: seq<Placement>) {
    forall k :: 0 <= k < |placements| ==> Accepted(library, t, placements[k])
  }

  lemma MoreAccepted(library: Library, t: Timeline, placements: seq<Placement>)
    requires placements != []
    ensures var n := |placements| - 1;
            AllAccepted(library, t, placements) <==> AllAccepted(library, t, placements[..n]) && Accepted(library, t, placements[n])
  {
    hide Accepted;
    var n := |placements| - 1;
    assert forall k :: 0 <= k < n ==> placements[..n][k] == placements[k];
  }

  /** The placements of a batch are accepted exactly when each names an unlocked track that it fits. */
  lemma {:induction false} PlacementsAnswers(library: Library, t: Timeline, placements: seq<Placement>, opId: Id)
    requires DistinctTracks(t.tracks) && NewToBatch(t.clips, opId, 0)
    ensures var r := InsertAll(library, t, placements, opId);
            && (r.Ok? <==> AllAccepted(library, t, placements))
            && (r.Ok? ==> OnlyClips(t, r.value) && NewToBatch(r.value.clips, opId, |placements|))
    decreases |placements|
  {
    if placements == [] {
    } else {
      hide ApplyInsert, AllAccepted, Accepted, NewToBatch, OnlyClips, DistinctTracks;
      var n := |placements| - 1;
      PlacementsAnswers(library, t, placements[..n], opId);
      MoreAccepted(library, t, placements);
      var before := InsertAll(library, t, placements[..n], opId);
      if before.Ok? {
        LastPlacement(library, t, before.value, placements[n], opId, n);
      }
    }
  }

  predicate SliceId(id: Id) {
    id.Derived? && (id.seed == LeftOf || id.seed == RightOf)
  }

  lemma NotASlice(c: Clip, start: int, end: int, ripple: bool, id: Id)
    requires start < end && !SliceId(id)
    ensures !HasId(Remains(c, start, end, ripple), id)
  {
  }

  lemma JoinedHasId(xs: seq<Clip>, ys: seq<Clip>, id: Id)
    requires HasId(xs + ys, id)
    ensures HasId(xs, id) || HasId(ys, id)
  {
    var i :| 0 <= i < |xs + ys| && (xs + ys)[i].id == id;
    assert if i < |xs| then xs[i].id == id else ys[i - |xs|].id == id;
  }

  lemma {:induction false} CutIds(t: Timeline, cs: seq<Clip>, start: int, end: int, ripple: bool, id: Id)
    requires start < end && !SliceId(id) && HasId(CutClips(t, cs, start, end, ripple).clips, id)
    ensures HasId(t.clips, id)
    decreases |cs|
  {
    if cs == [] {
    } else {
      var n := |cs| - 1;
      var before := CutClips(t, cs[..n], start, end, ripple);
      if Meets(cs[n], start, end) {
        NotASlice(cs[n], start, end, ripple, id);
        WithoutMembers(before.clips, cs[n].id);
        JoinedHasId(WithoutClip(before.clips, cs[n].id), Remains(cs[n], start, end, ripple), id);
        HasIdIsMember(WithoutClip(before.clips, cs[n].id), id);
        HasIdIsMember(before.clips, id);
      }
      CutIds(t, cs[..n], start, end, ripple, id);
    }
  }

  lemma {:induction false} RemovedIds(t: Timeline, tracks: seq<string>, start: int, end: int, ripple: bool, id: Id)
    requires start < end && RemoveFromTracks(t, tracks, start, end, ripple).Ok?
    requires !SliceId(id) && HasId(RemoveFromTracks(t, tracks, start, end, ripple).value.clips, id)
    ensures HasId(t.clips, id)
    decreases |tracks|
  {
    if tracks == [] {
    } else {
      var n := |tracks| - 1;
      var before := RemoveFromTracks(t, tracks[..n], start, end, ripple).value;
      var cut := CutClips(before, OnTrack(before.clips, tracks[n]), start, end, ripple);
      ShiftedIds(cut.clips, tracks[n], end, start - end, id);
      CutIds(before, OnTrack(before.clips, tracks[n]), start, end, ripple, id);
      RemovedIds(t, tracks[..n], start, end, ripple, id);
    }
  }

  lemma ClearedIsNew(t: Timeline, tracks: seq<string>, r: SequenceRange, ripple: bool, cleared: Timeline, opId: Id)
    requires NewToBatch(t.clips, opId, 0) && ApplyRemoveRange(t, tracks, r, ripple) == Ok(cleared)
    ensures NewToBatch(cleared.clips, opId, 0) && cleared.sequence == t.sequence && cleared.tracks == t.tracks
  {
    hide RemoveFromTracks, Unique, HasId, CuesMoved;
    RangeIsTracks(t, tracks, r, ripple, cleared);
    UniqueHasEach(tracks);
    CuesAfterRemovals(t, Unique(tracks), r.start, r.start + r.frames, ripple);
    forall k: nat
      ensures !HasId(cleared.clips, Derived(opId, Placed(k)))
    {
      if HasId(cleared.clips, Derived(opId, Placed(k))) {
        RemovedIds(t, Unique(tracks), r.start, r.start + r.frames, ripple, Derived(opId, Placed(k)));
      }
    }
  }

  /** A batch is accepted exactly when its range can be removed and each placement names an unlocked track that it fits. */
  lemma BatchAnswers(library: Library, t: Timeline, op: Operation, opId: Id)
    requires op.BatchReplace? && DistinctTracks(t.tracks) && NewToBatch(t.clips, opId, 0)
    ensures ApplyBatchReplace(library, t, op, opId).Ok? <==>
              && ApplyRemoveRange(t, op.tracks, op.range, op.ripple).Ok?
              && AllAccepted(library, t, op.placements)
  {
    if ApplyRemoveRange(t, op.tracks, op.range, op.ripple).Ok? {
      hide NewToBatch, ApplyRemoveRange, InsertAll;
      var cleared := ApplyRemoveRange(t, op.tracks, op.range, op.ripple).value;
      ClearedIsNew(t, op.tracks, op.range, op.ripple, cleared, opId);
      PlacementsAnswers(library, cleared, op.placements, opId);
      forall k | 0 <= k < |op.placements|
        ensures Accepted(library, cleared, op.placements[k]) <==> Accepted(library, t, op.placements[k])
      {
      }
    }
  }
}
