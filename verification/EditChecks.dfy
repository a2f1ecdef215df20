/**
 What a whole intent reports (applyEditOperations and validateSequenceProjection, src/edits.ts): the
 warnings of its operations in order, and of the final check the first thing that is wrong.
 */
module EditChecks {
  import opened Wrappers
  import opened Timelines
  import opened Edits
  import opened EditAnswers
  import opened EditSession

  // ----- warnings

  /** A run that succeeds succeeds up to every step, and gives its warnings one step after the other. */
  lemma {:induction false} RunWarns(library: Library, t: Timeline, steps: seq<Step>, k: nat)
    requires k < |steps| && Run(library, t, steps).Ok?
    ensures Run(library, t, steps[..k]).Ok? && Run(library, t, steps[..k + 1]).Ok?
    ensures var before, step := Run(library, t, steps[..k]).value, Apply(library, Run(library, t, steps[..k]).value.timeline, steps[k].operation, steps[k].opId);
            && step.Ok?
            && Run(library, t, steps[..k + 1]).value == Edit(step.value.timeline, before.warnings + step.value.warnings)
            && before.warnings <= Run(library, t, steps).value.warnings
            && Run(library, t, steps[..k + 1]).value.warnings <= Run(library, t, steps).value.warnings
    decreases |steps|
  {
    hide Apply;
    var n := |steps| - 1;
    if k == n {
      assert steps[..k + 1] == steps;
    } else {
      RunWarns(library, t, steps[..n], k);
      assert steps[..n][..k] == steps[..k] && steps[..n][..k + 1] == steps[..k + 1];
    }
  }

  /** Only splits and speeds warn, each of its own kind and under the id of its operation. */
  lemma OperationWarns(library: Library, t: Timeline, op: Operation, opId: Id, w: Warning)
    requires Apply(library, t, op, opId).Ok? && w in Apply(library, t, op, opId).value.warnings
    ensures Apply(library, t, op, opId).value.warnings == [w]
    ensures (op.SplitClip? && w == RoundingApplied(opId)) || (op.SetSpeed? && w == AudioPitchChange(opId))
  {
  }

  // ----- the final check

  lemma OverlapAnswers(t: Timeline, c: Clip, track: Track)
    requires DistinctTracks(t.tracks) && track in t.tracks && c.track == track.id
    ensures OverlapFault(t, c) == if Room(t, track, c.id, c.start, c.frames) then None else Some(InvalidRange)
  {
    TrackFound(t, track);
    if !Room(t, track, c.id, c.start, c.frames) {
      var d :| d in t.clips && d.track == track.id && d.id != c.id && !(EndOf(d) <= c.start || c.start + c.frames <= d.start);
      var j :| 0 <= j < |t.clips| && t.clips[j] == d;
      assert Meets(t.clips[j], c.start, EndOf(c));
    } else {
      assert forall j :: 0 <= j < |t.clips| ==> t.clips[j] in t.clips;
    }
  }

  predicate HasTrack(t: Timeline, id: string) {
    exists track :: track in t.tracks && track.id == id
  }

  /** A clip fits the track it is on. */
  predicate FitsTrack(library: Library, t: Timeline, track: Track, c: Clip) {
    track.id == c.track && Placeable(library, t, track, PlacementFromClip(c)) && Room(t, track, c.id, c.start, c.frames)
  }

  predicate RepeatsId(t: Timeline, i: nat)
    requires i < |t.clips|
  {
    exists j :: 0 <= j < i && t.clips[j].id == t.clips[i].id
  }

  predicate ClipInOrder(library: Library, t: Timeline, i: nat)
    requires i < |t.clips|
  {
    !RepeatsId(t, i) && exists track :: track in t.tracks && FitsTrack(library, t, track, t.clips[i])
  }

  predicate ClipReason(library: Library, t: Timeline, i: nat, fault: Fault)
    requires i < |t.clips|
  {
    var c := t.clips[i];
    || (fault == AlreadyExists && RepeatsId(t, i))
    || (fault == NotFound && !HasTrack(t, c.track))
    || (exists track :: track in t.tracks && track.id == c.track &&
          (PlacementReason(library, t, track, PlacementFromClip(c), fault) ||
           (fault == InvalidRange && !Room(t, track, c.id, c.start, c.frames))))
  }

  lemma ClipAnswers(library: Library, t: Timeline, i: nat)
    requires DistinctTracks(t.tracks) && i < |t.clips|
    ensures ClipFault(library, t, i).None? <==> ClipInOrder(library, t, i)
    ensures ClipFault(library, t, i).Some? ==> ClipReason(library, t, i, ClipFault(library, t, i).value)
  {
    var c := t.clips[i];
    if track :| track in t.tracks && track.id == c.track {
      TrackFound(t, track);
      PlacementAnswers(library, t, track, PlacementFromClip(c));
      OverlapAnswers(t, c, track);
      forall x | x in t.tracks && x.id == c.track
        ensures x == track
      {
        TrackFound(t, x);
      }
    } else if FindTrack(t.tracks, c.track).Some? {
      assert false;
    }
  }

  /** Both clips of a transition are there, on its track. */
  predicate LinkInOrder(t: Timeline, x: Transition) {
    && (exists c :: c in t.clips && c.id == x.outgoing && c.track == x.track)
    && (exists c :: c in t.clips && c.id == x.incoming && c.track == x.track)
  }

  predicate LinkReason(t: Timeline, x: Transition, fault: Fault) {
    match fault
    case NotFound => (forall c :: c in t.clips ==> c.id != x.outgoing) || (forall c :: c in t.clips ==> c.id != x.incoming)
    case InvalidInput => exists c :: c in t.clips && (c.id == x.outgoing || c.id == x.incoming) && c.track != x.track
    case _ => false
  }

  lemma LinkAnswers(t: Timeline, x: Transition)
    requires Keyed(t)
    ensures TransitionFault(t, x).None? <==> LinkInOrder(t, x)
    ensures TransitionFault(t, x).Some? ==> LinkReason(t, x, TransitionFault(t, x).value)
  {
    forall c | c in t.clips
      ensures exists i :: 0 <= i < |t.clips| && t.clips[i] == c && IndexOf(t.clips, c.id) == Some(i)
    {
      var i := ClipFound(t, c);
    }
    forall id | IndexOf(t.clips, id).Some?
      ensures t.clips[IndexOf(t.clips, id).value] in t.clips
    {
    }
  }

  predicate CueInOrder(t: Timeline, x: Cue) {
    exists track :: track in t.tracks && track.id == x.track && track.kind == Caption
  }

  predicate CueReason(t: Timeline, x: Cue, fault: Fault) {
    fault == if HasTrack(t, x.track) then InvalidInput else NotFound
  }

  lemma CueAnswers(t: Timeline, x: Cue)
    requires DistinctTracks(t.tracks)
    ensures CueFault(t, x).None? <==> CueInOrder(t, x)
    ensures CueFault(t, x).Some? ==> CueReason(t, x, CueFault(t, x).value)
  {
    if track :| track in t.tracks && track.id == x.track {
      TrackFound(t, track);
      if y :| y in t.tracks && y.id == x.track && y.kind == Caption { TrackFound(t, y); }
    }
  }

  // ----- the first thing that is wrong

  predicate ClipsInOrder(library: Library, t: Timeline, n: nat)
    requires n <= |t.clips|
  {
    forall i :: 0 <= i < n ==> ClipInOrder(library, t, i)
  }

  /** The fault is that of the first clip that is not in order. */
  predicate FirstClip(library: Library, t: Timeline, n: nat, fault: Fault)
    requires n <= |t.clips|
  {
    exists i :: 0 <= i < n && ClipsInOrder(library, t, i) && !ClipInOrder(library, t, i) && ClipReason(library, t, i, fault)
  }

  lemma MoreClips(library: Library, t: Timeline, n: nat, fault: Fault)
    requires 0 < n <= |t.clips|
    ensures ClipsInOrder(library, t, n) <==> ClipsInOrder(library, t, n - 1) && ClipInOrder(library, t, n - 1)
    ensures FirstClip(library, t, n - 1, fault) ==> FirstClip(library, t, n, fault)
    ensures ClipsInOrder(library, t, n - 1) && !ClipInOrder(library, t, n - 1) && ClipReason(library, t, n - 1, fault) ==>
              FirstClip(library, t, n, fault)
  {
    hide ClipInOrder, ClipReason;
  }

  lemma LastClips(library: Library, t: Timeline, n: nat)
    requires 0 < n <= |t.clips|
    ensures ClipFaults(library, t, n) == if ClipFaults(library, t, n - 1).Some? then ClipFaults(library, t, n - 1) else ClipFault(library, t, n - 1)
  {
  }

  lemma {:induction false} ClipsAnswers(library: Library, t: Timeline, n: nat)
    requires DistinctTracks(t.tracks) && n <= |t.clips|
    ensures ClipFaults(library, t, n).None? <==> ClipsInOrder(library, t, n)
    ensures ClipFaults(library, t, n).Some? ==> FirstClip(library, t, n, ClipFaults(library, t, n).value)
  {
    hide ClipFault, ClipInOrder, ClipReason, DistinctTracks;
    if n == 0 {
    } else {
      hide *;
      ClipsAnswers(library, t, n - 1);
      ClipAnswers(library, t, n - 1);
      LastClips(library, t, n);
      var fault := ClipFaults(library, t, n);
      MoreClips(library, t, n, if fault.Some? then fault.value else NotFound);
    }
  }

  predicate LinksInOrder(t: Timeline, n: nat)
    requires n <= |t.transitions|
  {
    forall i :: 0 <= i < n ==> LinkInOrder(t, t.transitions[i])
  }

  predicate FirstLink(t: Timeline, n: nat, fault: Fault)
    requires n <= |t.transitions|
  {
    exists i :: 0 <= i < n && LinksInOrder(t, i) && !LinkInOrder(t, t.transitions[i]) && LinkReason(t, t.transitions[i], fault)
  }

  lemma MoreLinks(t: Timeline, n: nat, fault: Fault)
    requires 0 < n <= |t.transitions|
    ensures LinksInOrder(t, n) <==> LinksInOrder(t, n - 1) && LinkInOrder(t, t.transitions[n - 1])
    ensures FirstLink(t, n - 1, fault) ==> FirstLink(t, n, fault)
    ensures LinksInOrder(t, n - 1) && !LinkInOrder(t, t.transitions[n - 1]) && LinkReason(t, t.transitions[n - 1], fault) ==>
              FirstLink(t, n, fault)
  {
    hide LinkInOrder, LinkReason;
  }

  lemma LastLinks(t: Timeline, n: nat)
    requires 0 < n <= |t.transitions|
    ensures TransitionFaults(t, n) == if TransitionFaults(t, n - 1).Some? then TransitionFaults(t, n - 1) else TransitionFault(t, t.transitions[n - 1])
  {
  }

  lemma {:induction false} LinksAnswers(t: Timeline, n: nat)
    requires Keyed(t) && n <= |t.transitions|
    ensures TransitionFaults(t, n).None? <==> LinksInOrder(t, n)
    ensures TransitionFaults(t, n).Some? ==> FirstLink(t, n, TransitionFaults(t, n).value)
  {
    hide TransitionFault, LinkInOrder, LinkReason, Keyed;
    if n == 0 {
    } else {
      hide *;
      LinksAnswers(t, n - 1);
      LinkAnswers(t, t.transitions[n - 1]);
      LastLinks(t, n);
      var fault := TransitionFaults(t, n);
      MoreLinks(t, n, if fault.Some? then fault.value else NotFound);
    }
  }

  predicate CuesInOrder(t: Timeline, n: nat)
    requires n <= |t.captions|
  {
    forall i :: 0 <= i < n ==> CueInOrder(t, t.captions[i])
  }

  predicate FirstCue(t: Timeline, n: nat, fault: Fault)
    requires n <= |t.captions|
  {
    exists i :: 0 <= i < n && CuesInOrder(t, i) && !CueInOrder(t, t.captions[i]) && CueReason(t, t.captions[i], fault)
  }

  lemma MoreCues(t: Timeline, n: nat, fault: Fault)
    requires 0 < n <= |t.captions|
    ensures CuesInOrder(t, n) <==> CuesInOrder(t, n - 1) && CueInOrder(t, t.captions[n - 1])
    ensures FirstCue(t, n - 1, fault) ==> FirstCue(t, n, fault)
    ensures CuesInOrder(t, n - 1) && !CueInOrder(t, t.captions[n - 1]) && CueReason(t, t.captions[n - 1], fault) ==> FirstCue(t, n, fault)
  {
    hide CueInOrder, CueReason;
  }

  lemma LastCues(t: Timeline, n: nat)
    requires 0 < n <= |t.captions|
    ensures CueFaults(t, n) == if CueFaults(t, n - 1).Some? then CueFaults(t, n - 1) else CueFault(t, t.captions[n - 1])
  {
  }

  lemma {:induction false} CuesAnswers(t: Timeline, n: nat)
    requires DistinctTracks(t.tracks) && n <= |t.captions|
    ensures CueFaults(t, n).None? <==> CuesInOrder(t, n)
    ensures CueFaults(t, n).Some? ==> FirstCue(t, n, CueFaults(t, n).value)
  {
    hide CueFault, CueInOrder, CueReason, DistinctTracks;
    if n == 0 {
    } else {
      hide *;
      CuesAnswers(t, n - 1);
      CueAnswers(t, t.captions[n - 1]);
      LastCues(t, n);
      var fault := CueFaults(t, n);
      MoreCues(t, n, if fault.Some? then fault.value else NotFound);
    }
  }

  /** Clip ids are only found to be distinct here; until then a transition's clip is the first with its id. */
  lemma OrderedIds(library: Library, t: Timeline)
    requires ClipsInOrder(library, t, |t.clips|)
    ensures forall i, j :: 0 <= i < j < |t.clips| ==> t.clips[i].id != t.clips[j].id
  {
    forall i, j | 0 <= i < j < |t.clips|
      ensures t.clips[i].id != t.clips[j].id
    {
      assert ClipInOrder(library, t, j);
    }
  }

  /**
   The final check passes exactly when clips have distinct ids and fit their tracks, transitions lie on
   the tracks of their two clips and cues on caption tracks. Else the fault is a reason of the first
   clip that is not in order, or if all are of the first transition, or of the first cue.
   */
  lemma ProjectionAnswers(library: Library, t: Timeline)
    requires DistinctTracks(t.tracks)
    ensures ProjectionFault(library, t).None? <==>
              ClipsInOrder(library, t, |t.clips|) && LinksInOrder(t, |t.transitions|) && CuesInOrder(t, |t.captions|)
    ensures ProjectionFault(library, t).Some? ==>
              var fault := ProjectionFault(library, t).value;
              if !ClipsInOrder(library, t, |t.clips|) then FirstClip(library, t, |t.clips|, fault)
              else if !LinksInOrder(t, |t.transitions|) then FirstLink(t, |t.transitions|, fault)
              else FirstCue(t, |t.captions|, fault)
  {
    hide ClipsInOrder, LinksInOrder, CuesInOrder, FirstClip, FirstLink, FirstCue, ClipFaults, TransitionFaults, CueFaults;
    ClipsAnswers(library, t, |t.clips|);
    if ClipsInOrder(library, t, |t.clips|) {
      OrderedIds(library, t);
      LinksAnswers(t, |t.transitions|);
      CuesAnswers(t, |t.captions|);
    }
  }

  /** The timeline an intent leaves is in order, whatever was wrong with it in between. */
  predicate InOrder(library: Library, t: Timeline) {
    ClipsInOrder(library, t, |t.clips|) && LinksInOrder(t, |t.transitions|) && CuesInOrder(t, |t.captions|)
  }

  /** An intent is accepted exactly when every operation is and what they leave is in order; its result is that of the run. */
  lemma IntentAccepted(library: Library, t: Timeline, steps: seq<Step>)
    requires Run(library, t, steps).Ok? ==> DistinctTracks(Run(library, t, steps).value.timeline.tracks)
    ensures Edits.Project(library, t, steps).Ok? <==> Run(library, t, steps).Ok? && InOrder(library, Run(library, t, steps).value.timeline)
    ensures Edits.Project(library, t, steps).Ok? ==> Edits.Project(library, t, steps) == Run(library, t, steps)
  {
    hide ClipsInOrder, LinksInOrder, CuesInOrder, ProjectionFault, Run;
    if Run(library, t, steps).Ok? { ProjectionAnswers(library, Run(library, t, steps).value.timeline); }
  }

  /** The first operation that fails decides the fault of the intent. */
  lemma FirstFailureDecides(library: Library, t: Timeline, steps: seq<Step>, k: nat)
    requires k < |steps| && Run(library, t, steps[..k]).Ok?
    ensures var step := Apply(library, Run(library, t, steps[..k]).value.timeline, steps[k].operation, steps[k].opId);
            step.Err? ==> Edits.Project(library, t, steps) == Err(step.error)
  {
    if Run(library, t, steps[..k + 1]).Err? { RunFaultStays(library, t, steps, k + 1); }
    assert steps[..k + 1][..k] == steps[..k];
  }
}
