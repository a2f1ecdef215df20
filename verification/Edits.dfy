/**
 The thirteen edit operations (src/edits.ts) as functions from one timeline to the next. The
 first failing check decides the fault. What the database answers is a parameter.
 */
module Edits {
  import opened Wrappers
  import opened Collections
  import opened MediaTime
  import opened Slices
  import opened Timelines

  datatype Stream = Stream(artifact: string, hash: string, kind: Kind, timeBase: Rational, ticks: int)

  /** What the checks look up: artifacts, objects, streams, transcripts and earlier edit actions. */
  datatype Library = Library(
    artifacts: set<string>, objects: set<string>, streams: map<string, Stream>, transcripts: set<string>, actions: set<string>)

  datatype SequenceRange = SequenceRange(sequence: string, start: int, frames: int)

  datatype Placement = Placement(
    track: string, start: int, frames: int, source: Source, speed: Option<Rational>, reverse: Option<bool>,
    policy: Option<Policy>, transform: Option<Transform>, audio: Option<Fades>)

  datatype Mode = Insert | Overwrite

  datatype Operation =
    | InsertClip(clip: Option<Id>, placement: Placement, mode: Mode)
    | RemoveRange(tracks: seq<string>, range: SequenceRange, ripple: bool)
    | RemoveOne(removed: Id, ripple: bool)
    | MoveClip(moved: Id, track: string, start: int)
    | TrimClip(trimmed: Id, start: int, frames: int, sourceRange: Option<Range>)
    | SplitClip(split: Id, at: int, left: Option<Id>, right: Option<Id>)
    | RestoreClip(action: string, from: Id, placement: Placement)
    | SetTransform(transformed: Id, transform: Transform)
    | SetAudio(faded: Id, audio: Fades)
    | SetSpeed(sped: Id, speed: Rational, reverse: bool, policy: Policy)
    | SetTransition(outgoing: Id, incoming: Id, transition: Option<Transition>)
    | UpsertCaption(cue: Cue)
    | BatchReplace(tracks: seq<string>, range: SequenceRange, placements: seq<Placement>, ripple: bool)

  datatype Warning = RoundingApplied(opId: Id) | AudioPitchChange(opId: Id)

  /** A timeline and the warnings collected so far. */
  datatype Edit = Edit(timeline: Timeline, warnings: seq<Warning>)

  // ----- values

  /** What String.prototype.trim removes. */
  predicate Whitespace(c: char) {
    var n := c as int;
    9 <= n <= 13 || n in {32, 160, 0x1680, 0x2028, 0x2029, 0x202F, 0x205F, 0x3000, 0xFEFF} || 0x2000 <= n <= 0x200A
  }

  predicate Blank(s: string) {
    forall i :: 0 <= i < |s| ==> Whitespace(s[i])
  }

  predicate RangeOk(r: Range) {
    !Blank(r.stream) && !Blank(r.hash) && r.startTick >= 0 && r.ticks >= 1 && Positive(r.timeBase)
  }

  predicate Unit(x: real) {
    0.0 <= x <= 1.0
  }

  predicate TransformOk(x: Transform) {
    && x.scaleX > 0.0 && x.scaleY > 0.0
    && Unit(x.cropTop) && Unit(x.cropRight) && Unit(x.cropBottom) && Unit(x.cropLeft) && Unit(x.opacity)
  }

  predicate FadesOk(x: Fades) {
    x.fadeIn >= 0 && x.fadeOut >= 0
  }

  /** A range must be one of the stream it names, which must still be what the range says it is. */
  function TimedSource(library: Library, artifact: string, range: Range): Result<Stream, Fault> {
    if !RangeOk(range) then Err(BadValue)
    else if range.stream !in library.streams then Err(NotFound)
    else
      var stream := library.streams[range.stream];
      if stream.artifact != artifact || stream.hash != range.hash then Err(SourceReplaced)
      else if !Positive(stream.timeBase) then Err(BadValue)
      else if RationalEquals(range.timeBase, stream.timeBase) != Ok(true) then Err(SourceReplaced)
      else if range.startTick + range.ticks > stream.ticks then Err(InvalidRange)
      else if range.hash !in library.objects then Err(ObjectUnavailable)
      else Ok(stream)
  }

  function SourceFault(library: Library, track: Track, p: Placement): Option<Fault> {
    match p.source
    case Still(artifact, path, hash) =>
      if !track.kind.Video? then Some(InvalidInput)
      else if Blank(path) then Some(BadValue)
      else if hash !in library.objects then Some(ObjectUnavailable)
      else None
    case Timed(artifact, range) =>
      var stream := TimedSource(library, artifact, range);
      if stream.Err? then Some(stream.error)
      else if stream.value.kind != track.kind then Some(InvalidInput)
      else if p.speed.Some? && !Positive(p.speed.value) then Some(BadValue)
      else if p.policy.None? then Some(InvalidInput)
      else None
  }

  /** The first check a placement fails. */
  function PlacementFault(library: Library, t: Timeline, track: Track, p: Placement): (r: Option<Fault>)
    ensures r.None? ==> p.start >= 0 && p.frames >= 1 && !track.kind.Caption?
  {
    if track.kind.Caption? then Some(InvalidInput)
    else if p.start < 0 || p.frames < 1 then Some(BadValue)
    else if p.source.artifact !in library.artifacts then Some(NotFound)
    else
      var source := SourceFault(library, track, p);
      if source.Some? then source
      else if p.transform.Some? && !TransformOk(p.transform.value) then Some(BadValue)
      else if p.audio.Some? && !FadesOk(p.audio.value) then Some(BadValue)
      else if t.sequence != track.sequence then Some(InvalidInput)
      else None
  }

  function ClipFromPlacement(id: Id, p: Placement): Clip
    requires p.frames >= 1
  {
    Clip(id, p.track, p.start, p.frames, true, None, p.transform, p.audio, p.source,
         if p.source.Still? then None
         else Some(Playback(if p.speed.Some? then p.speed.value else Rational(1, 1),
                            p.reverse.Some? && p.reverse.value,
                            if p.policy.Some? then p.policy.value else PreservePitch)))
  }

  // ----- insert

  /** The clips of the track that meet the frames from start to end. */
  function Overlapping(clips: seq<Clip>, track: string, start: int, end: int): seq<Clip> {
    Filter((c: Clip) => Meets(c, start, end), OnTrack(clips, track))
  }

  function RemoveClips(t: Timeline, removed: seq<Clip>): Timeline
    decreases |removed|
  {
    if removed == [] then t
    else RemoveClip(RemoveClips(t, removed[..|removed| - 1]), removed[|removed| - 1].id)
  }

  function PushClip(t: Timeline, c: Clip): Timeline {
    t.(clips := t.clips + [c])
  }

  predicate StartsBefore(clips: seq<Clip>, start: int) {
    exists i :: 0 <= i < |clips| && clips[i].start < start
  }

  function ApplyInsert(library: Library, t: Timeline, id: Id, p: Placement, mode: Mode): Result<Timeline, Fault> {
    if HasId(t.clips, id) then Err(AlreadyExists)
    else
      var track := MutableTrack(t, p.track);
      if track.Err? then Err(track.error)
      else
        var fault := PlacementFault(library, t, track.value, p);
        if fault.Some? then Err(fault.value)
        else
          var overlaps := Overlapping(t.clips, p.track, p.start, p.start + p.frames);
          var clip := ClipFromPlacement(id, p);
          if mode.Overwrite? then Ok(PushClip(RemoveClips(t, overlaps), clip))
          else if StartsBefore(overlaps, p.start) then Err(InvalidRange)
          else Ok(PushClip(t.(clips := ShiftClips(t.clips, p.track, p.start, p.frames)), clip))
  }

  // ----- remove a range

  /** What is left of a clip that meets the range; a ripple closes the gap before the right piece. */
  function Remains(c: Clip, start: int, end: int, ripple: bool): seq<Clip>
    requires start < end
  {
    var left := if c.start < start then [SliceClip(c, c.start, start, LeftOf)] else [];
    if EndOf(c) > end then
      var right := SliceClip(c, end, EndOf(c), RightOf);
      left + [if ripple then right.(start := right.start - (end - start)) else right]
    else left
  }

  function CutClip(t: Timeline, c: Clip, start: int, end: int, ripple: bool): Timeline
    requires start < end
  {
    if !Meets(c, start, end) then t
    else
      var without := RemoveClip(t, c.id);
      without.(clips := without.clips + Remains(c, start, end, ripple))
  }

  function CutClips(t: Timeline, cs: seq<Clip>, start: int, end: int, ripple: bool): Timeline
    requires start < end
    decreases |cs|
  {
    if cs == [] then t
    else CutClip(CutClips(t, cs[..|cs| - 1], start, end, ripple), cs[|cs| - 1], start, end, ripple)
  }

  function CloseGap(t: Timeline, track: string, start: int, end: int): Timeline {
    t.(clips := ShiftClips(t.clips, track, end, start - end), captions := ShiftCues(t.captions, track, end, start - end))
  }

  function RemoveFromTrack(t: Timeline, track: string, start: int, end: int, ripple: bool): Timeline
    requires start < end
  {
    var cut := CutClips(t, OnTrack(t.clips, track), start, end, ripple);
    if ripple then CloseGap(cut, track, start, end) else cut
  }

  function RemoveFromTracks(t: Timeline, tracks: seq<string>, start: int, end: int, ripple: bool): Result<Timeline, Fault>
    requires start < end
    decreases |tracks|
  {
    if tracks == [] then Ok(t)
    else
      var before := RemoveFromTracks(t, tracks[..|tracks| - 1], start, end, ripple);
      if before.Err? then before
      else
        var track := MutableTrack(before.value, tracks[|tracks| - 1]);
        if track.Err? then Err(track.error)
        else Ok(RemoveFromTrack(before.value, tracks[|tracks| - 1], start, end, ripple))
  }

  /** The values without repetitions, each where it came first. */
  function Unique(s: seq<string>): seq<string> {
    if s == [] then []
    else
      var front := Unique(s[..|s| - 1]);
      if s[|s| - 1] in front then front else front + [s[|s| - 1]]
  }

  function RangeFault(t: Timeline, r: SequenceRange): Option<Fault> {
    if Blank(r.sequence) || r.start < 0 || r.frames < 1 then Some(BadValue)
    else if r.sequence != t.sequence then Some(InvalidRange)
    else None
  }

  function ApplyRemoveRange(t: Timeline, tracks: seq<string>, r: SequenceRange, ripple: bool): Result<Timeline, Fault> {
    var fault := RangeFault(t, r);
    if fault.Some? then Err(fault.value)
    else RemoveFromTracks(t, Unique(tracks), r.start, r.start + r.frames, ripple)
  }

  // ----- operations on one clip

  function ApplyRemoveOne(t: Timeline, id: Id, ripple: bool): Result<Timeline, Fault> {
    var i := IndexOf(t.clips, id);
    if i.None? then Err(NotFound)
    else
      var clip := t.clips[i.value];
      var track := MutableTrack(t, clip.track);
      if track.Err? then Err(track.error)
      else
        var without := RemoveClip(t, clip.id);
        if ripple then Ok(without.(clips := ShiftClips(without.clips, clip.track, EndOf(clip), clip.start - EndOf(clip))))
        else Ok(without)
  }

  /** Only audio clips of one track may overlap. */
  function OverlapFault(t: Timeline, c: Clip): Option<Fault> {
    var track := FindTrack(t.tracks, c.track);
    if track.None? then Some(NotFound)
    else if track.value.kind.Audio? then None
    else if exists i :: 0 <= i < |t.clips| && t.clips[i].track == c.track && t.clips[i].id != c.id && Meets(t.clips[i], c.start, EndOf(c))
    then Some(InvalidRange)
    else None
  }

  function PutClip(t: Timeline, i: nat, c: Clip): Timeline
    requires i < |t.clips|
  {
    t.(clips := t.clips[i := c])
  }

  function Checked(t: Timeline, c: Clip): Result<Timeline, Fault> {
    var fault := OverlapFault(t, c);
    if fault.Some? then Err(fault.value) else Ok(t)
  }

  function ApplyMove(t: Timeline, id: Id, track: string, start: int): Result<Timeline, Fault> {
    var i := IndexOf(t.clips, id);
    if i.None? then Err(NotFound)
    else
      var clip := t.clips[i.value];
      var source := MutableTrack(t, clip.track);
      if source.Err? then Err(source.error)
      else
        var target := MutableTrack(t, track);
        if target.Err? then Err(target.error)
        else if source.value.kind != target.value.kind then Err(InvalidInput)
        else if start < 0 then Err(BadValue)
        else
          var moved := clip.(track := track, start := start);
          Checked(PutClip(t, i.value, moved), moved)
  }

  /** The range a trimmed clip shows: the one given, or its own one cut to the new length. */
  function TrimmedSource(library: Library, source: Source, frames: FrameCount, range: Option<Range>): Result<Source, Fault> {
    if range.Some? then
      if !source.Timed? then Err(InvalidInput)
      else
        var stream := TimedSource(library, source.artifact, range.value);
        if stream.Err? then Err(stream.error) else Ok(source.(range := range.value))
    else if source.Timed? then
      Ok(source.(range := source.range.(ticks := if source.range.ticks < frames then source.range.ticks else frames)))
    else Ok(source)
  }

  function ApplyTrim(library: Library, t: Timeline, id: Id, start: int, frames: int, range: Option<Range>): Result<Timeline, Fault> {
    var i := IndexOf(t.clips, id);
    if i.None? then Err(NotFound)
    else
      var clip := t.clips[i.value];
      var track := MutableTrack(t, clip.track);
      if track.Err? then Err(track.error)
      else if start < 0 || frames < 1 then Err(BadValue)
      else
        var source := TrimmedSource(library, clip.source, frames, range);
        if source.Err? then Err(source.error)
        else
          var trimmed := clip.(start := start, frames := frames, source := source.value);
          Checked(PutClip(t, i.value, trimmed), trimmed)
  }

  predicate TakenByOthers(clips: seq<Clip>, own: Id, left: Id, right: Id) {
    exists i :: 0 <= i < |clips| && clips[i].id != own && clips[i].id in {left, right}
  }

  function IdOr(id: Option<Id>, opId: Id, seed: Label): Id {
    if id.Some? then id.value else Derived(opId, seed)
  }

  function LeftPart(c: Clip, id: Id, frames: FrameCount): Clip {
    c.(id := id, frames := frames,
       source := if c.source.Timed? then SourceWith(c.source, Slices.LeftHalf(SpanOf(c), frames)) else c.source)
  }

  function RightPart(c: Clip, id: Id, frames: FrameCount): Clip
    requires frames < c.frames
  {
    c.(id := id, start := c.start + frames, frames := c.frames - frames,
       source := if c.source.Timed? then SourceWith(c.source, Slices.RightHalf(SpanOf(c), frames)) else c.source)
  }

  /** A side of the split would show no tick at all. */
  predicate EmptySide(c: Clip, frames: FrameCount) {
    c.source.Timed? && (TicksBefore(SpanOf(c), frames) == 0 || c.source.range.ticks - TicksBefore(SpanOf(c), frames) == 0)
  }

  predicate Rounds(c: Clip, frames: FrameCount) {
    c.source.Timed? && (c.source.range.ticks * frames) % c.frames != 0
  }

  function ApplySplit(t: Timeline, op: Operation, opId: Id): Result<Edit, Fault>
    requires op.SplitClip?
  {
    var i := IndexOf(t.clips, op.split);
    if i.None? then Err(NotFound)
    else
      var clip := t.clips[i.value];
      var track := MutableTrack(t, clip.track);
      var left, right := IdOr(op.left, opId, Label.LeftHalf), IdOr(op.right, opId, Label.RightHalf);
      if track.Err? then Err(track.error)
      else if op.at <= clip.start || op.at >= EndOf(clip) then Err(InvalidRange)
      else if left == right || TakenByOthers(t.clips, clip.id, left, right) then Err(AlreadyExists)
      else
        var frames := op.at - clip.start;
        if EmptySide(clip, frames) then Err(InvalidRange)
        else
          var without := RemoveClip(t, clip.id);
          Ok(Edit(without.(clips := without.clips + [LeftPart(clip, left, frames), RightPart(clip, right, frames)]),
                  if Rounds(clip, frames) then [RoundingApplied(opId)] else []))
  }

  function ApplyTransform(t: Timeline, id: Id, transform: Transform): Result<Timeline, Fault> {
    var i := IndexOf(t.clips, id);
    if i.None? then Err(NotFound)
    else if !TransformOk(transform) then Err(BadValue)
    else Ok(PutClip(t, i.value, t.clips[i.value].(transform := Some(transform))))
  }

  function ApplyAudio(t: Timeline, id: Id, audio: Fades): Result<Timeline, Fault> {
    var i := IndexOf(t.clips, id);
    if i.None? then Err(NotFound)
    else
      var clip := t.clips[i.value];
      var track := MutableTrack(t, clip.track);
      if track.Err? then Err(track.error)
      else if track.value.kind.Caption? then Err(InvalidInput)
      else if !FadesOk(audio) then Err(BadValue)
      else if audio.fadeIn + audio.fadeOut > clip.frames then Err(InvalidRange)
      else Ok(PutClip(t, i.value, clip.(audio := Some(audio))))
  }

  function ApplySpeed(t: Timeline, op: Operation, opId: Id): Result<Edit, Fault>
    requires op.SetSpeed?
  {
    var i := IndexOf(t.clips, op.sped);
    if i.None? then Err(NotFound)
    else
      var clip := t.clips[i.value];
      var track := MutableTrack(t, clip.track);
      if track.Err? then Err(track.error)
      else if !clip.source.Timed? then Err(InvalidInput)
      else if !Positive(op.speed) then Err(BadValue)
      else
        var speed := Normal(op.speed);
        Ok(Edit(PutClip(t, i.value, clip.(playback := Some(Playback(speed, op.reverse, op.policy)))),
                if op.policy.PreservePitch? && RationalEquals(speed, Rational(1, 1)) != Ok(true) then [AudioPitchChange(opId)] else []))
  }

  // ----- transitions and captions

  function ApplyTransition(t: Timeline, outgoing: Id, incoming: Id, transition: Option<Transition>): Result<Timeline, Fault> {
    var i, j := IndexOf(t.clips, outgoing), IndexOf(t.clips, incoming);
    if i.None? || j.None? then Err(NotFound)
    else
      var from, to := t.clips[i.value], t.clips[j.value];
      var track := MutableTrack(t, from.track);
      if track.Err? then Err(track.error)
      else if !track.value.kind.Video? || to.track != from.track then Err(InvalidInput)
      else
        var others := Filter((x: Transition) => x.outgoing != outgoing || x.incoming != incoming, t.transitions);
        if transition.None? then Ok(t.(transitions := others))
        else
          var x := transition.value;
          if x.track != from.track || x.outgoing != outgoing || x.incoming != incoming then Err(InvalidInput)
          else if x.frames < 1 then Err(BadValue)
          else if x.frames > from.frames || x.frames > to.frames || EndOf(from) != to.start then Err(InvalidRange)
          else Ok(t.(transitions := others + [x]))
  }

  function ApplyCaption(library: Library, t: Timeline, cue: Cue): Result<Timeline, Fault> {
    var track := MutableTrack(t, cue.track);
    if track.Err? then Err(track.error)
    else if !track.value.kind.Caption? then Err(InvalidInput)
    else if cue.start < 0 || cue.frames < 1 || Blank(cue.text) || Blank(cue.style) then Err(BadValue)
    else if cue.selection.Some? && cue.selection.value.transcript !in library.transcripts then Err(NotFound)
    else if cue.selection.Some? && !RangeOk(cue.selection.value.range) then Err(BadValue)
    else Ok(t.(captions := Filter((x: Cue) => x.id != cue.id, t.captions) + [cue]))
  }

  // ----- batches

  /** The placements of a batch, inserted one after the other. */
  function InsertAll(library: Library, t: Timeline, placements: seq<Placement>, opId: Id): Result<Timeline, Fault>
    decreases |placements|
  {
    if placements == [] then Ok(t)
    else
      var n := |placements| - 1;
      var before := InsertAll(library, t, placements[..n], opId);
      if before.Err? then before else ApplyInsert(library, before.value, Derived(opId, Placed(n)), placements[n], Overwrite)
  }

  function ApplyBatchReplace(library: Library, t: Timeline, op: Operation, opId: Id): Result<Timeline, Fault>
    requires op.BatchReplace?
  {
    var cleared := ApplyRemoveRange(t, op.tracks, op.range, op.ripple);
    if cleared.Err? then cleared else InsertAll(library, cleared.value, op.placements, opId)
  }

  function Silent(r: Result<Timeline, Fault>): Result<Edit, Fault> {
    if r.Err? then Err(r.error) else Ok(Edit(r.value, []))
  }

  /** One operation, with the id generated for it. */
  function Apply(library: Library, t: Timeline, op: Operation, opId: Id): Result<Edit, Fault> {
    match op
    case InsertClip(clip, placement, mode) => Silent(ApplyInsert(library, t, IdOr(clip, opId, Inserted), placement, mode))
    case RemoveRange(tracks, range, ripple) => Silent(ApplyRemoveRange(t, tracks, range, ripple))
    case RemoveOne(id, ripple) => Silent(ApplyRemoveOne(t, id, ripple))
    case MoveClip(id, track, start) => Silent(ApplyMove(t, id, track, start))
    case TrimClip(id, start, frames, range) => Silent(ApplyTrim(library, t, id, start, frames, range))
    case SplitClip(_, _, _, _) => ApplySplit(t, op, opId)
    case RestoreClip(action, from, placement) =>
      if action !in library.actions then Err(NotFound)
      else Silent(ApplyInsert(library, t, Derived(opId, Restored(from)), placement, Overwrite))
    case SetTransform(id, transform) => Silent(ApplyTransform(t, id, transform))
    case SetAudio(id, audio) => Silent(ApplyAudio(t, id, audio))
    case SetSpeed(_, _, _, _) => ApplySpeed(t, op, opId)
    case SetTransition(outgoing, incoming, transition) => Silent(ApplyTransition(t, outgoing, incoming, transition))
    case UpsertCaption(cue) => Silent(ApplyCaption(library, t, cue))
    case BatchReplace(_, _, _, _) => Silent(ApplyBatchReplace(library, t, op, opId))
  }

  datatype Step = Step(operation: Operation, opId: Id)

  /** The operations of an intent, in order; the first fault ends the run. */
  function Run(library: Library, t: Timeline, steps: seq<Step>): Result<Edit, Fault>
    decreases |steps|
  {
    if steps == [] then Ok(Edit(t, []))
    else
      var n := |steps| - 1;
      var before := Run(library, t, steps[..n]);
      if before.Err? then before
      else
        var next := Apply(library, before.value.timeline, steps[n].operation, steps[n].opId);
        if next.Err? then next else Ok(Edit(next.value.timeline, before.value.warnings + next.value.warnings))
  }

  // ----- the final check

  function PlacementFromClip(c: Clip): Placement {
    Placement(c.track, c.start, c.frames, c.source,
              if c.playback.Some? then Some(c.playback.value.speed) else None,
              if c.playback.Some? then Some(c.playback.value.reverse) else None,
              if c.playback.Some? then Some(c.playback.value.policy) else None,
              c.transform, c.audio)
  }

  predicate SeenBefore(clips: seq<Clip>, i: nat)
    requires i < |clips|
  {
    exists j :: 0 <= j < i && clips[j].id == clips[i].id
  }

  /** What the check of one clip reports. */
  function ClipFault(library: Library, t: Timeline, i: nat): Option<Fault>
    requires i < |t.clips|
  {
    var c := t.clips[i];
    if SeenBefore(t.clips, i) then Some(AlreadyExists)
    else
      var track := FindTrack(t.tracks, c.track);
      if track.None? then Some(NotFound)
      else
        var placed := PlacementFault(library, t, track.value, PlacementFromClip(c));
        if placed.Some? then placed else OverlapFault(t, c)
  }

  function TransitionFault(t: Timeline, x: Transition): Option<Fault> {
    var i, j := IndexOf(t.clips, x.outgoing), IndexOf(t.clips, x.incoming);
    if i.None? || j.None? then Some(NotFound)
    else if t.clips[i.value].track != x.track || t.clips[j.value].track != x.track then Some(InvalidInput)
    else None
  }

  function CueFault(t: Timeline, x: Cue): Option<Fault> {
    var track := FindTrack(t.tracks, x.track);
    if track.None? then Some(NotFound) else if !track.value.kind.Caption? then Some(InvalidInput) else None
  }

  /** The first fault among the first n clips, transitions or cues. */
  function ClipFaults(library: Library, t: Timeline, n: nat): Option<Fault>
    requires n <= |t.clips|
  {
    if n == 0 then None
    else
      var before := ClipFaults(library, t, n - 1);
      if before.Some? then before else ClipFault(library, t, n - 1)
  }

  function TransitionFaults(t: Timeline, n: nat): Option<Fault>
    requires n <= |t.transitions|
  {
    if n == 0 then None
    else
      var before := TransitionFaults(t, n - 1);
      if before.Some? then before else TransitionFault(t, t.transitions[n - 1])
  }

  function CueFaults(t: Timeline, n: nat): Option<Fault>
    requires n <= |t.captions|
  {
    if n == 0 then None
    else
      var before := CueFaults(t, n - 1);
      if before.Some? then before else CueFault(t, t.captions[n - 1])
  }

  /** The check of a whole projection: clips first, then transitions, then cues. */
  function ProjectionFault(library: Library, t: Timeline): Option<Fault> {
    var clips, transitions := ClipFaults(library, t, |t.clips|), TransitionFaults(t, |t.transitions|);
    if clips.Some? then clips else if transitions.Some? then transitions else CueFaults(t, |t.captions|)
  }

  function Project(library: Library, current: Timeline, steps: seq<Step>): Result<Edit, Fault> {
    var next := Run(library, current, steps);
    if next.Err? then next
    else
      var fault := ProjectionFault(library, next.value.timeline);
      if fault.Some? then Err(fault.value) else next
  }
}
