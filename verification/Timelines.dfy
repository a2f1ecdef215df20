/**
 A sequence being edited: its tracks, clips, transitions and captions (Sequence,
 src/mvp-contracts.ts), and the small helpers of src/edits.ts that read or filter them.
 */
module Timelines {
  import opened Wrappers
  import opened Collections
  import opened MediaTime
  import opened Slices

  /** An id is given, or derived from another one and a label; derivation is injective. */
  datatype Id = Named(name: string) | Derived(from: Id, seed: Label)

  /** What a generated id is seeded with. */
  datatype Label = LeftOf | RightOf | LeftHalf | RightHalf | Inserted | Placed(index: nat) | Restored(of: Id)

  datatype Kind = Video | Audio | Caption

  datatype Track = Track(id: string, sequence: string, kind: Kind, locked: bool)

  datatype Range = Range(stream: string, hash: string, timeBase: Rational, startTick: int, ticks: int)

  datatype Source = Still(artifact: string, path: string, hash: string) | Timed(artifact: string, range: Range)

  datatype Transform = Transform(
    fit: string, positionX: real, positionY: real, scaleX: real, scaleY: real, anchorX: real, anchorY: real,
    rotation: real, cropTop: real, cropRight: real, cropBottom: real, cropLeft: real, opacity: real)

  datatype Fades = Fades(gainDb: real, muted: bool, fadeIn: int, fadeOut: int)

  datatype Policy = PreservePitch | Resample | Mute

  datatype Playback = Playback(speed: Rational, reverse: bool, policy: Policy)

  /** A timed clip has a playback, a still one has none. Durations are positive (src/schema.ts:516). */
  datatype Clip = Clip(
    id: Id, track: string, start: int, frames: FrameCount, enabled: bool, linkGroup: Option<string>,
    transform: Option<Transform>, audio: Option<Fades>, source: Source, playback: Option<Playback>)

  datatype Transition = Transition(id: string, track: string, outgoing: Id, incoming: Id, frames: int)

  datatype Selection = Selection(transcript: string, range: Range)

  datatype Cue = Cue(id: string, track: string, start: int, frames: int, text: string, style: string, selection: Option<Selection>)

  datatype Timeline = Timeline(
    sequence: string, tracks: seq<Track>, clips: seq<Clip>, transitions: seq<Transition>, captions: seq<Cue>)

  datatype Fault =
    NotFound | TrackLocked | AlreadyExists | InvalidRange | InvalidInput | SourceReplaced | ObjectUnavailable | BadValue

  // ----- lookups and filters

  function EndOf(c: Clip): int {
    c.start + c.frames
  }

  predicate Overlap(leftStart: int, leftEnd: int, rightStart: int, rightEnd: int) {
    leftStart < rightEnd && rightStart < leftEnd
  }

  predicate Meets(c: Clip, start: int, end: int) {
    Overlap(start, end, c.start, EndOf(c))
  }

  predicate HasId(clips: seq<Clip>, id: Id) {
    exists i :: 0 <= i < |clips| && clips[i].id == id
  }

  /** The first clip with the id. */
  function IndexOf(clips: seq<Clip>, id: Id): (r: Option<nat>)
    ensures r.Some? ==> r.value < |clips| && clips[r.value].id == id
    ensures r.Some? <==> HasId(clips, id)
    ensures r.Some? ==> forall i :: 0 <= i < r.value ==> clips[i].id != id
  {
    if clips == [] then None
    else
      var before := IndexOf(clips[..|clips| - 1], id);
      if before.Some? then before
      else if clips[|clips| - 1].id == id then Some(|clips| - 1)
      else None
  }

  lemma FirstIndex(clips: seq<Clip>, id: Id, i: nat)
    requires i < |clips| && clips[i].id == id && forall j :: 0 <= j < i ==> clips[j].id != id
    ensures IndexOf(clips, id) == Some(i)
  {
    assert HasId(clips, id);
  }

  function FindTrack(tracks: seq<Track>, id: string): (r: Option<Track>)
    ensures r.Some? ==> r.value in tracks && r.value.id == id
    ensures r.None? ==> forall t :: t in tracks ==> t.id != id
  {
    if tracks == [] then None
    else if tracks[0].id == id then Some(tracks[0])
    else FindTrack(tracks[1..], id)
  }

  function MutableTrack(t: Timeline, id: string): Result<Track, Fault> {
    var track := FindTrack(t.tracks, id);
    if track.None? then Err(NotFound)
    else if track.value.locked then Err(TrackLocked)
    else Ok(track.value)
  }

  function OnTrack(clips: seq<Clip>, track: string): seq<Clip> {
    Filter((c: Clip) => c.track == track, clips)
  }

  function WithoutClip(clips: seq<Clip>, id: Id): seq<Clip> {
    Filter((c: Clip) => c.id != id, clips)
  }

  /** Removing a clip removes the transitions it takes part in. */
  function RemoveClip(t: Timeline, id: Id): Timeline {
    t.(clips := WithoutClip(t.clips, id),
       transitions := Filter((x: Transition) => x.outgoing != id && x.incoming != id, t.transitions))
  }

  /** Every clip of the track that starts at `from` or later, moved by `delta` frames. */
  function ShiftClip(c: Clip, track: string, from: int, delta: int): Clip {
    if c.track == track && c.start >= from then c.(start := c.start + delta) else c
  }

  function ShiftClips(clips: seq<Clip>, track: string, from: int, delta: int): seq<Clip> {
    seq(|clips|, i requires 0 <= i < |clips| => ShiftClip(clips[i], track, from, delta))
  }

  function ShiftCue(c: Cue, track: string, from: int, delta: int): Cue {
    if c.track == track && c.start >= from then c.(start := c.start + delta) else c
  }

  function ShiftCues(cues: seq<Cue>, track: string, from: int, delta: int): seq<Cue> {
    seq(|cues|, i requires 0 <= i < |cues| => ShiftCue(cues[i], track, from, delta))
  }

  // ----- slicing a clip

  function SpanOf(c: Clip): Span
    requires c.source.Timed?
  {
    Span(c.source.range.startTick, c.source.range.ticks, c.frames)
  }

  function SourceWith(source: Source, span: Span): Source
    requires source.Timed?
  {
    source.(range := source.range.(startTick := span.startTick, ticks := span.ticks))
  }

  /** The source shown by frames from a to a + n of the clip. */
  function SlicedSource(c: Clip, a: int, n: FrameCount): Source {
    if c.source.Timed? then SourceWith(c.source, Slice(SpanOf(c), a, n)) else c.source
  }

  function SliceClip(c: Clip, from: int, to: int, side: Label): Clip
    requires from < to
  {
    c.(id := Derived(c.id, side), start := from, frames := to - from, source := SlicedSource(c, from - c.start, to - from))
  }
}
