/**
 The edit operations as the original runs them (src/edits.ts): step by step on a copy of the
 sequence, whose lists are reassigned in place. Each is proved to compute its function. After
 a fault the copy is discarded, so its state is then left open.
 */
module EditSession {
  import opened Wrappers
  import opened Collections
  import opened MediaTime
  import opened Slices
  import opened Timelines
  import opened Edits

  predicate Did(spec: Result<Timeline, Fault>, fault: Option<Fault>, now: Timeline) {
    match spec
    case Ok(t) => fault.None? && now == t
    case Err(e) => fault == Some(e)
  }

  /** The same for an operation that may warn. */
  predicate DidWarn(spec: Result<Edit, Fault>, fault: Option<Fault>, now: Timeline, before: seq<Warning>, after: seq<Warning>) {
    match spec
    case Ok(edit) => fault.None? && now == edit.timeline && after == before + edit.warnings
    case Err(e) => fault == Some(e)
  }

  lemma PrefixStep<T>(s: seq<T>, i: nat)
    requires i < |s|
    ensures s[..i + 1] != [] && |s[..i + 1]| - 1 == i && s[..i + 1][..i] == s[..i] && s[..i + 1][i] == s[i]
  {
  }

  /** One more track: it faults, or the range is removed from it. */
  lemma NextTrack(t: Timeline, tracks: seq<string>, i: nat, start: int, end: int, ripple: bool, now: Timeline)
    requires start < end && i < |tracks| && RemoveFromTracks(t, tracks[..i], start, end, ripple) == Ok(now)
    ensures var track := MutableTrack(now, tracks[i]);
            RemoveFromTracks(t, tracks[..i + 1], start, end, ripple) ==
              if track.Err? then Err(track.error) else Ok(RemoveFromTrack(now, tracks[i], start, end, ripple))
  {
    PrefixStep(tracks, i);
  }

  lemma NextCut(t: Timeline, cs: seq<Clip>, i: nat, start: int, end: int, ripple: bool)
    requires start < end && i < |cs|
    ensures CutClips(t, cs[..i + 1], start, end, ripple) == CutClip(CutClips(t, cs[..i], start, end, ripple), cs[i], start, end, ripple)
  {
    PrefixStep(cs, i);
  }

  lemma NextRemoved(t: Timeline, removed: seq<Clip>, i: nat)
    requires i < |removed|
    ensures RemoveClips(t, removed[..i + 1]) == RemoveClip(RemoveClips(t, removed[..i]), removed[i].id)
  {
    PrefixStep(removed, i);
  }

  lemma NextStep(library: Library, t: Timeline, steps: seq<Step>, i: nat, now: Edit)
    requires i < |steps| && Run(library, t, steps[..i]) == Ok(now)
    ensures var next := Apply(library, now.timeline, steps[i].operation, steps[i].opId);
            Run(library, t, steps[..i + 1]) ==
              if next.Err? then Err(next.error) else Ok(Edit(next.value.timeline, now.warnings + next.value.warnings))
  {
    PrefixStep(steps, i);
  }

  lemma RangeRemoved(t: Timeline, tracks: seq<string>, r: SequenceRange, ripple: bool, result: Result<Timeline, Fault>)
    requires RangeFault(t, r).None? && RemoveFromTracks(t, Unique(tracks), r.start, r.start + r.frames, ripple) == result
    ensures Edits.ApplyRemoveRange(t, tracks, r, ripple) == result
  {
  }

  lemma {:induction false} FaultStays(t: Timeline, tracks: seq<string>, i: nat, start: int, end: int, ripple: bool)
    requires start < end && i <= |tracks| && RemoveFromTracks(t, tracks[..i], start, end, ripple).Err?
    ensures RemoveFromTracks(t, tracks, start, end, ripple) == RemoveFromTracks(t, tracks[..i], start, end, ripple)
    decreases |tracks| - i
  {
    if i == |tracks| {
      assert tracks[..i] == tracks;
    } else {
      PrefixStep(tracks, i);
      FaultStays(t, tracks, i + 1, start, end, ripple);
    }
  }

  lemma {:induction false} InsertFaultStays(library: Library, t: Timeline, placements: seq<Placement>, i: nat, opId: Id)
    requires i <= |placements| && InsertAll(library, t, placements[..i], opId).Err?
    ensures InsertAll(library, t, placements, opId) == InsertAll(library, t, placements[..i], opId)
    decreases |placements| - i
  {
    if i == |placements| {
      assert placements[..i] == placements;
    } else {
      PrefixStep(placements, i);
      InsertFaultStays(library, t, placements, i + 1, opId);
    }
  }

  ghost function IdsBefore(clips: seq<Clip>, n: nat): set<Id>
    requires n <= |clips|
  {
    set j | 0 <= j < n :: clips[j].id
  }

  /** An id among those of the clips before is the first thing a clip is refused for. */
  lemma SeenIsFault(library: Library, t: Timeline, i: nat)
    requires i < |t.clips|
    ensures t.clips[i].id in IdsBefore(t.clips, i) ==> ClipFault(library, t, i) == Some(AlreadyExists)
    ensures t.clips[i].id in IdsBefore(t.clips, i) <==> SeenBefore(t.clips, i)
    ensures IdsBefore(t.clips, i + 1) == IdsBefore(t.clips, i) + {t.clips[i].id}
  {
  }

  lemma {:induction false} ClipFaultsStay(library: Library, t: Timeline, m: nat, n: nat)
    requires m <= n <= |t.clips| && ClipFaults(library, t, m).Some?
    ensures ClipFaults(library, t, n) == ClipFaults(library, t, m)
    decreases n
  {
    if n == m {
    } else {
      ClipFaultsStay(library, t, m, n - 1);
    }
  }

  lemma ClipFaultNext(library: Library, t: Timeline, i: nat)
    requires i < |t.clips|
    ensures ClipFaults(library, t, i).None? ==> ClipFaults(library, t, i + 1) == ClipFault(library, t, i)
  {
  }

  lemma ClipFaultStays(library: Library, t: Timeline, i: nat, fault: Option<Fault>)
    requires i < |t.clips| && ClipFaults(library, t, i).None? && ClipFaults(library, t, i + 1) == fault && fault.Some?
    ensures ClipFaults(library, t, |t.clips|) == fault
  {
    ClipFaultsStay(library, t, i + 1, |t.clips|);
  }

  lemma {:induction false} TransitionFaultsStay(t: Timeline, m: nat, n: nat)
    requires m <= n <= |t.transitions| && TransitionFaults(t, m).Some?
    ensures TransitionFaults(t, n) == TransitionFaults(t, m)
    decreases n
  {
    if n == m {
    } else {
      TransitionFaultsStay(t, m, n - 1);
    }
  }

  lemma TransitionFaultNext(t: Timeline, i: nat)
    requires i < |t.transitions|
    ensures TransitionFaults(t, i).None? ==> TransitionFaults(t, i + 1) == TransitionFault(t, t.transitions[i])
  {
  }

  lemma TransitionFaultStays(t: Timeline, i: nat, fault: Option<Fault>)
    requires i < |t.transitions| && TransitionFaults(t, i).None? && TransitionFaults(t, i + 1) == fault && fault.Some?
    ensures TransitionFaults(t, |t.transitions|) == fault
  {
    TransitionFaultsStay(t, i + 1, |t.transitions|);
  }

  lemma {:induction false} CueFaultsStay(t: Timeline, m: nat, n: nat)
    requires m <= n <= |t.captions| && CueFaults(t, m).Some?
    ensures CueFaults(t, n) == CueFaults(t, m)
    decreases n
  {
    if n == m {
    } else {
      CueFaultsStay(t, m, n - 1);
    }
  }

  lemma CueFaultNext(t: Timeline, i: nat)
    requires i < |t.captions|
    ensures CueFaults(t, i).None? ==> CueFaults(t, i + 1) == CueFault(t, t.captions[i])
  {
  }

  lemma CueFaultStays(t: Timeline, i: nat, fault: Option<Fault>)
    requires i < |t.captions| && CueFaults(t, i).None? && CueFaults(t, i + 1) == fault && fault.Some?
    ensures CueFaults(t, |t.captions|) == fault
  {
    CueFaultsStay(t, i + 1, |t.captions|);
  }

  class Sequence {
    const id: string
    const tracks: seq<Track>
    var clips: seq<Clip>
    var transitions: seq<Transition>
    var captions: seq<Cue>
    var warnings: seq<Warning>

    function Contents(): Timeline
      reads this
    {
      Timeline(id, tracks, clips, transitions, captions)
    }

    constructor (t: Timeline)
      ensures Contents() == t && warnings == []
    {
      id := t.sequence;
      tracks := t.tracks;
      clips := t.clips;
      transitions := t.transitions;
      captions := t.captions;
      warnings := [];
    }

    method Remove(clip: Id)
      modifies this`clips, this`transitions
      ensures Contents() == RemoveClip(old(Contents()), clip)
    {
      clips := WithoutClip(clips, clip);
      transitions := Filter((x: Transition) => x.outgoing != clip && x.incoming != clip, transitions);
    }

    /** The loops that move the tail of a track. */
    method ShiftTail(track: string, from: int, delta: int)
      modifies this`clips
      ensures clips == ShiftClips(old(clips), track, from, delta)
    {
      ghost var before := clips;
      for i := 0 to |clips|
        invariant |clips| == |before|
        invariant forall j :: 0 <= j < i ==> clips[j] == ShiftClip(before[j], track, from, delta)
        invariant forall j :: i <= j < |clips| ==> clips[j] == before[j]
      {
        if clips[i].track == track && clips[i].start >= from {
          clips := clips[i := clips[i].(start := clips[i].start + delta)];
        }
      }
    }

    method ShiftCaptions(track: string, from: int, delta: int)
      modifies this`captions
      ensures captions == ShiftCues(old(captions), track, from, delta)
    {
      ghost var before := captions;
      for i := 0 to |captions|
        invariant |captions| == |before|
        invariant forall j :: 0 <= j < i ==> captions[j] == ShiftCue(before[j], track, from, delta)
        invariant forall j :: i <= j < |captions| ==> captions[j] == before[j]
      {
        if captions[i].track == track && captions[i].start >= from {
          captions := captions[i := captions[i].(start := captions[i].start + delta)];
        }
      }
    }

    /** One turn of the cutting loop. */
    method CutOut(clip: Clip, start: int, end: int, ripple: bool)
      requires start < end
      modifies this`clips, this`transitions
      ensures Contents() == CutClip(old(Contents()), clip, start, end, ripple)
    {
      if !Meets(clip, start, end) { return; }
      Remove(clip.id);
      ghost var rest := clips;
      if clip.start < start {
        clips := clips + [SliceClip(clip, clip.start, start, LeftOf)];
      }
      if EndOf(clip) > end {
        var right := SliceClip(clip, end, EndOf(clip), RightOf);
        if ripple { right := right.(start := right.start - (end - start)); }
        clips := clips + [right];
      }
      assert clips == rest + Remains(clip, start, end, ripple);
    }

    method RemoveRangeFromTrack(track: string, start: int, end: int, ripple: bool)
      requires start < end
      modifies this`clips, this`transitions, this`captions
      ensures Contents() == RemoveFromTrack(old(Contents()), track, start, end, ripple)
    {
      ghost var before := Contents();
      var original := OnTrack(clips, track);
      for i := 0 to |original|
        invariant Contents() == CutClips(before, original[..i], start, end, ripple)
      {
        NextCut(before, original, i, start, end, ripple);
        CutOut(original[i], start, end, ripple);
      }
      assert original[..|original|] == original;
      if ripple {
        ShiftTail(track, end, start - end);
        ShiftCaptions(track, end, start - end);
      }
    }

    method ApplyRemoveRange(named: seq<string>, range: SequenceRange, ripple: bool) returns (fault: Option<Fault>)
      modifies this`clips, this`transitions, this`captions
      ensures Did(Edits.ApplyRemoveRange(old(Contents()), named, range, ripple), fault, Contents())
    {
      ghost var before := Contents();
      fault := RangeFault(Contents(), range);
      if fault.Some? { return; }
      var start, end := range.start, range.start + range.frames;
      var unique := Unique(named);
      for i := 0 to |unique|
        invariant RemoveFromTracks(before, unique[..i], start, end, ripple) == Ok(Contents())
      {
        NextTrack(before, unique, i, start, end, ripple, Contents());
        var track := MutableTrack(Contents(), unique[i]);
        if track.Err? {
          FaultStays(before, unique, i + 1, start, end, ripple);
          RangeRemoved(before, named, range, ripple, Err(track.error));
          return Some(track.error);
        }
        RemoveRangeFromTrack(unique[i], start, end, ripple);
      }
      assert unique[..|unique|] == unique;
      RangeRemoved(before, named, range, ripple, Ok(Contents()));
    }

    method ApplyInsert(library: Library, clip: Id, placement: Placement, mode: Mode) returns (fault: Option<Fault>)
      modifies this`clips, this`transitions
      ensures Did(Edits.ApplyInsert(library, old(Contents()), clip, placement, mode), fault, Contents())
    {
      ghost var before := Contents();
      if HasId(clips, clip) { return Some(AlreadyExists); }
      var track := MutableTrack(Contents(), placement.track);
      if track.Err? { return Some(track.error); }
      fault := PlacementFault(library, Contents(), track.value, placement);
      if fault.Some? { return; }
      var overlaps := Overlapping(clips, placement.track, placement.start, placement.start + placement.frames);
      if mode.Overwrite? {
        for i := 0 to |overlaps|
          invariant Contents() == RemoveClips(before, overlaps[..i])
        {
          NextRemoved(before, overlaps, i);
          Remove(overlaps[i].id);
        }
        assert overlaps[..|overlaps|] == overlaps;
      } else {
        if StartsBefore(overlaps, placement.start) { return Some(InvalidRange); }
        ShiftTail(placement.track, placement.start, placement.frames);
      }
      clips := clips + [ClipFromPlacement(clip, placement)];
    }

    method ApplyRemoveOne(clip: Id, ripple: bool) returns (fault: Option<Fault>)
      modifies this`clips, this`transitions
      ensures Did(Edits.ApplyRemoveOne(old(Contents()), clip, ripple), fault, Contents())
    {
      var i := IndexOf(clips, clip);
      if i.None? { return Some(NotFound); }
      var found := clips[i.value];
      var track := MutableTrack(Contents(), found.track);
      if track.Err? { return Some(track.error); }
      Remove(found.id);
      if ripple { ShiftTail(found.track, EndOf(found), found.start - EndOf(found)); }
      fault := None;
    }

    method ApplyMove(clip: Id, track: string, start: int) returns (fault: Option<Fault>)
      modifies this`clips
      ensures Did(Edits.ApplyMove(old(Contents()), clip, track, start), fault, Contents())
    {
      var i := IndexOf(clips, clip);
      if i.None? { return Some(NotFound); }
      var source := MutableTrack(Contents(), clips[i.value].track);
      if source.Err? { return Some(source.error); }
      var target := MutableTrack(Contents(), track);
      if target.Err? { return Some(target.error); }
      if source.value.kind != target.value.kind { return Some(InvalidInput); }
      if start < 0 { return Some(BadValue); }
      clips := clips[i.value := clips[i.value].(track := track, start := start)];
      fault := OverlapFault(Contents(), clips[i.value]);
    }

    method ApplyTrim(library: Library, clip: Id, start: int, frames: int, range: Option<Range>) returns (fault: Option<Fault>)
      modifies this`clips
      ensures Did(Edits.ApplyTrim(library, old(Contents()), clip, start, frames, range), fault, Contents())
    {
      var i := IndexOf(clips, clip);
      if i.None? { return Some(NotFound); }
      var track := MutableTrack(Contents(), clips[i.value].track);
      if track.Err? { return Some(track.error); }
      if start < 0 || frames < 1 { return Some(BadValue); }
      ghost var before := clips;
      clips := clips[i.value := clips[i.value].(start := start, frames := frames)];
      var source := TrimmedSource(library, clips[i.value].source, frames, range);
      if source.Err? { return Some(source.error); }
      clips := clips[i.value := clips[i.value].(source := source.value)];
      assert clips == before[i.value := before[i.value].(start := start, frames := frames, source := source.value)];
      fault := OverlapFault(Contents(), clips[i.value]);
    }

    method ApplySplit(op: Operation, opId: Id) returns (fault: Option<Fault>)
      requires op.SplitClip?
      modifies this
      ensures DidWarn(Edits.ApplySplit(old(Contents()), op, opId), fault, Contents(), old(warnings), warnings)
    {
      var i := IndexOf(clips, op.split);
      if i.None? { return Some(NotFound); }
      var clip := clips[i.value];
      var track := MutableTrack(Contents(), clip.track);
      if track.Err? { return Some(track.error); }
      if op.at <= clip.start || op.at >= EndOf(clip) { return Some(InvalidRange); }
      var left, right := IdOr(op.left, opId, Label.LeftHalf), IdOr(op.right, opId, Label.RightHalf);
      if left == right || TakenByOthers(clips, clip.id, left, right) { return Some(AlreadyExists); }
      var frames := op.at - clip.start;
      if EmptySide(clip, frames) { return Some(InvalidRange); }
      if Rounds(clip, frames) { warnings := warnings + [RoundingApplied(opId)]; }
      Remove(clip.id);
      clips := clips + [LeftPart(clip, left, frames), RightPart(clip, right, frames)];
      fault := None;
    }

    method SetClipTransform(clip: Id, transform: Transform) returns (fault: Option<Fault>)
      modifies this`clips
      ensures Did(ApplyTransform(old(Contents()), clip, transform), fault, Contents())
    {
      var i := IndexOf(clips, clip);
      if i.None? { return Some(NotFound); }
      if !TransformOk(transform) { return Some(BadValue); }
      clips := clips[i.value := clips[i.value].(transform := Some(transform))];
      fault := None;
    }

    method ApplyClipAudio(clip: Id, audio: Fades) returns (fault: Option<Fault>)
      modifies this`clips
      ensures Did(ApplyAudio(old(Contents()), clip, audio), fault, Contents())
    {
      var i := IndexOf(clips, clip);
      if i.None? { return Some(NotFound); }
      var track := MutableTrack(Contents(), clips[i.value].track);
      if track.Err? { return Some(track.error); }
      if track.value.kind.Caption? { return Some(InvalidInput); }
      if !FadesOk(audio) { return Some(BadValue); }
      if audio.fadeIn + audio.fadeOut > clips[i.value].frames { return Some(InvalidRange); }
      clips := clips[i.value := clips[i.value].(audio := Some(audio))];
      fault := None;
    }

    method ApplySpeed(op: Operation, opId: Id) returns (fault: Option<Fault>)
      requires op.SetSpeed?
      modifies this
      ensures DidWarn(Edits.ApplySpeed(old(Contents()), op, opId), fault, Contents(), old(warnings), warnings)
    {
      var i := IndexOf(clips, op.sped);
      if i.None? { return Some(NotFound); }
      var clip := clips[i.value];
      var track := MutableTrack(Contents(), clip.track);
      if track.Err? { return Some(track.error); }
      if !clip.source.Timed? { return Some(InvalidInput); }
      if !Positive(op.speed) { return Some(BadValue); }
      var speed := Normal(op.speed);
      clips := clips[i.value := clip.(playback := Some(Playback(speed, op.reverse, op.policy)))];
      if op.policy.PreservePitch? && RationalEquals(speed, Rational(1, 1)) != Ok(true) {
        warnings := warnings + [AudioPitchChange(opId)];
      }
      fault := None;
    }

    method ApplyTransition(outgoing: Id, incoming: Id, transition: Option<Transition>) returns (fault: Option<Fault>)
      modifies this`transitions
      ensures Did(Edits.ApplyTransition(old(Contents()), outgoing, incoming, transition), fault, Contents())
    {
      var i, j := IndexOf(clips, outgoing), IndexOf(clips, incoming);
      if i.None? || j.None? { return Some(NotFound); }
      var from, to := clips[i.value], clips[j.value];
      var track := MutableTrack(Contents(), from.track);
      if track.Err? { return Some(track.error); }
      if !track.value.kind.Video? || to.track != from.track { return Some(InvalidInput); }
      transitions := Filter((x: Transition) => x.outgoing != outgoing || x.incoming != incoming, transitions);
      if transition.None? { return None; }
      var x := transition.value;
      if x.track != from.track || x.outgoing != outgoing || x.incoming != incoming { return Some(InvalidInput); }
      if x.frames < 1 { return Some(BadValue); }
      if x.frames > from.frames || x.frames > to.frames || EndOf(from) != to.start { return Some(InvalidRange); }
      transitions := transitions + [x];
      fault := None;
    }

    method ApplyCaption(library: Library, cue: Cue) returns (fault: Option<Fault>)
      modifies this`captions
      ensures Did(Edits.ApplyCaption(library, old(Contents()), cue), fault, Contents())
    {
      var track := MutableTrack(Contents(), cue.track);
      if track.Err? { return Some(track.error); }
      if !track.value.kind.Caption? { return Some(InvalidInput); }
      if cue.start < 0 || cue.frames < 1 || Blank(cue.text) || Blank(cue.style) { return Some(BadValue); }
      if cue.selection.Some? {
        if cue.selection.value.transcript !in library.transcripts { return Some(NotFound); }
        if !RangeOk(cue.selection.value.range) { return Some(BadValue); }
      }
      captions := Filter((x: Cue) => x.id != cue.id, captions);
      captions := captions + [cue];
      fault := None;
    }

    method ApplyBatchReplace(library: Library, op: Operation, opId: Id) returns (fault: Option<Fault>)
      requires op.BatchReplace?
      modifies this`clips, this`transitions, this`captions
      ensures Did(Edits.ApplyBatchReplace(library, old(Contents()), op, opId), fault, Contents())
    {
      fault := ApplyRemoveRange(op.tracks, op.range, op.ripple);
      if fault.Some? { return; }
      ghost var cleared := Contents();
      for i := 0 to |op.placements|
        invariant fault.None? && InsertAll(library, cleared, op.placements[..i], opId) == Ok(Contents())
      {
        PrefixStep(op.placements, i);
        fault := ApplyInsert(library, Derived(opId, Placed(i)), op.placements[i], Overwrite);
        if fault.Some? {
          InsertFaultStays(library, cleared, op.placements, i + 1, opId);
          return;
        }
      }
      assert op.placements[..|op.placements|] == op.placements;
    }

    method ApplyOperation(library: Library, op: Operation, opId: Id) returns (fault: Option<Fault>)
      modifies this
      ensures DidWarn(Apply(library, old(Contents()), op, opId), fault, Contents(), old(warnings), warnings)
    {
      match op
      case InsertClip(clip, placement, mode) => fault := ApplyInsert(library, IdOr(clip, opId, Inserted), placement, mode);
      case RemoveRange(named, range, ripple) => fault := ApplyRemoveRange(named, range, ripple);
      case RemoveOne(clip, ripple) => fault := ApplyRemoveOne(clip, ripple);
      case MoveClip(clip, track, start) => fault := ApplyMove(clip, track, start);
      case TrimClip(clip, start, frames, range) => fault := ApplyTrim(library, clip, start, frames, range);
      case SplitClip(_, _, _, _) => fault := ApplySplit(op, opId);
      case RestoreClip(action, from, placement) =>
        if action !in library.actions {
          fault := Some(NotFound);
        } else {
          fault := ApplyInsert(library, Derived(opId, Restored(from)), placement, Overwrite);
        }
      case SetTransform(clip, transform) => fault := SetClipTransform(clip, transform);
      case SetAudio(clip, audio) => fault := ApplyClipAudio(clip, audio);
      case SetSpeed(_, _, _, _) => fault := ApplySpeed(op, opId);
      case SetTransition(outgoing, incoming, transition) => fault := ApplyTransition(outgoing, incoming, transition);
      case UpsertCaption(cue) => fault := ApplyCaption(library, cue);
      case BatchReplace(_, _, _, _) => fault := ApplyBatchReplace(library, op, opId);
    }

    method ValidateClips(library: Library) returns (fault: Option<Fault>)
      ensures fault == ClipFaults(library, Contents(), |clips|)
    {
      ghost var t := Contents();
      var seen: set<Id> := {};
      for i := 0 to |clips|
        invariant t == Contents() && seen == IdsBefore(t.clips, i) && ClipFaults(library, t, i).None?
      {
        SeenIsFault(library, t, i);
        fault := if clips[i].id in seen then Some(AlreadyExists) else ClipFault(library, Contents(), i);
        if fault.Some? {
          ClipFaultNext(library, t, i);
          ClipFaultStays(library, t, i, fault);
          return;
        }
        seen := seen + {clips[i].id};
      }
      fault := None;
    }

    method ValidateTransitions() returns (fault: Option<Fault>)
      ensures fault == TransitionFaults(Contents(), |transitions|)
    {
      for i := 0 to |transitions|
        invariant TransitionFaults(Contents(), i).None?
      {
        fault := TransitionFault(Contents(), transitions[i]);
        if fault.Some? {
          TransitionFaultNext(Contents(), i);
          TransitionFaultStays(Contents(), i, fault);
          return;
        }
      }
      fault := None;
    }

    method ValidateCaptions() returns (fault: Option<Fault>)
      ensures fault == CueFaults(Contents(), |captions|)
    {
      for i := 0 to |captions|
        invariant CueFaults(Contents(), i).None?
      {
        fault := CueFault(Contents(), captions[i]);
        if fault.Some? {
          CueFaultNext(Contents(), i);
          CueFaultStays(Contents(), i, fault);
          return;
        }
      }
      fault := None;
    }

    method ValidateProjection(library: Library) returns (fault: Option<Fault>)
      ensures fault == ProjectionFault(library, Contents())
    {
      fault := ValidateClips(library);
      if fault.Some? { return; }
      fault := ValidateTransitions();
      if fault.Some? { return; }
      fault := ValidateCaptions();
    }
  }

  // ----- the first fault is the answer

  lemma {:induction false} RunFaultStays(library: Library, t: Timeline, steps: seq<Step>, i: nat)
    requires i <= |steps| && Run(library, t, steps[..i]).Err?
    ensures Run(library, t, steps) == Run(library, t, steps[..i])
    decreases |steps| - i
  {
    if i == |steps| {
      assert steps[..i] == steps;
    } else {
      PrefixStep(steps, i);
      RunFaultStays(library, t, steps, i + 1);
    }
  }

  lemma RunIsRefused(library: Library, t: Timeline, steps: seq<Step>, fault: Fault)
    requires Run(library, t, steps) == Err(fault)
    ensures Edits.Project(library, t, steps) == Err(fault)
  {
  }

  lemma RunIsProjected(library: Library, t: Timeline, steps: seq<Step>, u: Edit)
    requires Run(library, t, steps) == Ok(u)
    ensures Edits.Project(library, t, steps) ==
              var fault := ProjectionFault(library, u.timeline);
              if fault.Some? then Err(fault.value) else Ok(u)
  {
  }

  /** All operations of an intent on one copy, then the check; the sequence itself is not touched. */
  method Project(library: Library, current: Timeline, steps: seq<Step>) returns (r: Result<Edit, Fault>)
    ensures r == Edits.Project(library, current, steps)
  {
    var next := new Sequence(current);
    for i := 0 to |steps|
      invariant Run(library, current, steps[..i]) == Ok(Edit(next.Contents(), next.warnings))
    {
      NextStep(library, current, steps, i, Edit(next.Contents(), next.warnings));
      var failed := next.ApplyOperation(library, steps[i].operation, steps[i].opId);
      if failed.Some? {
        RunFaultStays(library, current, steps, i + 1);
        RunIsRefused(library, current, steps, failed.value);
        return Err(failed.value);
      }
    }
    assert steps[..|steps|] == steps;
    RunIsProjected(library, current, steps, Edit(next.Contents(), next.warnings));
    var fault := next.ValidateProjection(library);
    if fault.Some? { return Err(fault.value); }
    return Ok(Edit(next.Contents(), next.warnings));
  }
}
