/** Laws between edit operations (src/edits.ts): what one edit undoes, and what repeating one adds. */
module EditLaws {
  import opened Wrappers
  import opened Collections
  import opened MediaTime
  import opened Timelines
  import opened Edits
  import opened RangeRemoval
  import opened EditSafety

  lemma OnlyIndex(clips: seq<Clip>, i: nat)
    requires DistinctIds(clips) && i < |clips|
    ensures IndexOf(clips, clips[i].id) == Some(i)
  {
    assert HasId(clips, clips[i].id);
  }

  // ----- move

  lemma NoFaultInGood(t: Timeline, i: nat)
    requires Good(t) && i < |t.clips| && FindTrack(t.tracks, t.clips[i].track).Some?
    ensures OverlapFault(t, t.clips[i]).None?
  {
    FinalCheckAgrees(Library({}, {}, map[], {}, {}), t, i);
  }

  lemma StillAtIndex(t: Timeline, i: nat, c: Clip)
    requires DistinctIds(t.clips) && i < |t.clips| && c.id == t.clips[i].id
    ensures IndexOf(PutClip(t, i, c).clips, c.id) == Some(i)
  {
    assert forall j, k :: 0 <= j < k < |t.clips| ==> t.clips[i := c][j].id == t.clips[j].id && t.clips[i := c][k].id == t.clips[k].id;
    OnlyIndex(t.clips[i := c], i);
  }

  lemma PutAndBack(t: Timeline, i: nat, c: Clip)
    requires i < |t.clips|
    ensures PutClip(PutClip(t, i, c), i, t.clips[i]) == t
  {
    assert t.clips[i := c][i := t.clips[i]] == t.clips;
  }

  /** A clip that was moved can be moved back, and then everything is as before. */
  lemma MoveBack(t: Timeline, id: Id, track: string, start: int)
    requires Good(t) && ApplyMove(t, id, track, start).Ok?
    ensures var c := t.clips[IndexOf(t.clips, id).value];
            ApplyMove(ApplyMove(t, id, track, start).value, id, c.track, c.start) == Ok(t)
  {
    var i := IndexOf(t.clips, id).value;
    var c := t.clips[i];
    assert c in t.clips;
    var moved := c.(track := track, start := start);
    StillAtIndex(t, i, moved);
    PutAndBack(t, i, moved);
    assert OverlapFault(t, c).None? by { NoFaultInGood(t, i); }
  }

  // ----- trim

  /** A timed source is accepted exactly when it is a range of a known stream that is still what the range says. */
  lemma TimedSourceMeans(library: Library, artifact: string, range: Range)
    requires forall id :: id in library.streams ==> Positive(library.streams[id].timeBase)
    ensures TimedSource(library, artifact, range).Ok? <==>
              && RangeOk(range) && range.stream in library.streams && range.hash in library.objects
              && var stream := library.streams[range.stream];
                 && stream.artifact == artifact && stream.hash == range.hash
                 && range.timeBase.numerator * stream.timeBase.denominator == stream.timeBase.numerator * range.timeBase.denominator
                 && range.startTick + range.ticks <= stream.ticks
  {
    if RangeOk(range) && range.stream in library.streams {
      RationalEqualsIsCrossMultiplication(range.timeBase, library.streams[range.stream].timeBase);
    }
  }

  /**
   A trim changes one clip: it starts and lasts as asked, and shows the given range of its stream,
   or else no more ticks of its own range than it has frames, from the same first tick on.
   */
  lemma TrimMeans(library: Library, t: Timeline, id: Id, start: int, frames: int, range: Option<Range>)
    requires ApplyTrim(library, t, id, start, frames, range).Ok?
    ensures var i, u := IndexOf(t.clips, id).value, ApplyTrim(library, t, id, start, frames, range).value;
            && i < |u.clips| && u == PutClip(t, i, u.clips[i])
            && var c, d := t.clips[i], u.clips[i];
               && d.start == start && d.frames == frames && d == c.(start := start, frames := d.frames, source := d.source)
               && (range.Some? ==> d.source == Timed(c.source.artifact, range.value) && TimedSource(library, c.source.artifact, range.value).Ok?)
               && (range.None? && c.source.Still? ==> d.source == c.source)
               && (range.None? && c.source.Timed? ==>
                     && d.source == c.source.(range := c.source.range.(ticks := d.source.range.ticks))
                     && d.source.range.ticks <= frames && d.source.range.ticks <= c.source.range.ticks
                     && d.source.range.ticks in {frames, c.source.range.ticks})
  {
  }

  /** The same trim again changes nothing. */
  lemma TrimTwice(library: Library, t: Timeline, id: Id, start: int, frames: int, range: Option<Range>)
    requires ApplyTrim(library, t, id, start, frames, range).Ok?
    ensures ApplyTrim(library, ApplyTrim(library, t, id, start, frames, range).value, id, start, frames, range) ==
              ApplyTrim(library, t, id, start, frames, range)
  {
    var i := IndexOf(t.clips, id).value;
    var u := ApplyTrim(library, t, id, start, frames, range).value;
    TrimMeans(library, t, id, start, frames, range);
    FirstIndex(u.clips, id, i);
    assert u.clips[i := u.clips[i]] == u.clips;
  }

  // ----- insert and remove

  lemma {:induction false} NothingFiltered<T>(keep: T -> bool, s: seq<T>)
    requires forall i :: 0 <= i < |s| ==> keep(s[i])
    ensures Filter(keep, s) == s
    decreases |s|
  {
    if s == [] {
    } else {
      NothingFiltered(keep, s[..|s| - 1]);
      assert s == s[..|s| - 1] + [s[|s| - 1]];
    }
  }

  lemma LastFiltered<T>(keep: T -> bool, s: seq<T>, x: T)
    requires (forall i :: 0 <= i < |s| ==> keep(s[i])) && !keep(x)
    ensures Filter(keep, s + [x]) == s
  {
    NothingFiltered(keep, s);
    assert (s + [x])[..|s + [x]| - 1] == s;
  }

  lemma LastIndex(clips: seq<Clip>, c: Clip)
    requires !HasId(clips, c.id)
    ensures IndexOf(clips + [c], c.id) == Some(|clips|)
  {
    var all := clips + [c];
    assert all[|clips|].id == c.id && HasId(all, c.id);
    forall i | 0 <= i < |clips|
      ensures all[i].id != c.id
    {
      assert clips[i].id != c.id;
    }
  }

  lemma ShiftBack(clips: seq<Clip>, track: string, from: int, delta: int)
    requires delta >= 0
    ensures ShiftClips(ShiftClips(clips, track, from, delta), track, from + delta, -delta) == clips
  {
    var there := ShiftClips(clips, track, from, delta);
    var back := ShiftClips(there, track, from + delta, -delta);
    assert |back| == |clips|;
    assert forall i :: 0 <= i < |clips| ==> back[i] == clips[i];
  }

  /** A clip pushed last, removed again with its transitions. */
  lemma PushedThenRemoved(t: Timeline, c: Clip)
    requires !HasId(t.clips, c.id)
    requires forall x :: x in t.transitions ==> x.outgoing != c.id && x.incoming != c.id
    ensures IndexOf(PushClip(t, c).clips, c.id) == Some(|t.clips|) && RemoveClip(PushClip(t, c), c.id) == t
  {
    LastIndex(t.clips, c);
    LastFiltered((x: Clip) => x.id != c.id, t.clips, c);
    forall i | 0 <= i < |t.transitions|
      ensures t.transitions[i].outgoing != c.id && t.transitions[i].incoming != c.id
    {
      assert t.transitions[i] in t.transitions;
    }
    NothingFiltered((x: Transition) => x.outgoing != c.id && x.incoming != c.id, t.transitions);
  }

  lemma UnusedId(t: Timeline, id: Id)
    requires Joined(t) && !HasId(t.clips, id)
    ensures forall x :: x in t.transitions ==> x.outgoing != id && x.incoming != id
  {
  }

  lemma ShiftedIds(clips: seq<Clip>, track: string, from: int, delta: int, id: Id)
    ensures HasId(ShiftClips(clips, track, from, delta), id) <==> HasId(clips, id)
  {
    assert forall i :: 0 <= i < |clips| ==> ShiftClips(clips, track, from, delta)[i].id == clips[i].id;
  }

  lemma RemovedWithRipple(u: Timeline, i: nat, rest: Timeline)
    requires i < |u.clips| && IndexOf(u.clips, u.clips[i].id) == Some(i) && RemoveClip(u, u.clips[i].id) == rest
    requires MutableTrack(u, u.clips[i].track).Ok?
    ensures var c := u.clips[i];
            ApplyRemoveOne(u, c.id, true) == Ok(rest.(clips := ShiftClips(rest.clips, c.track, EndOf(c), c.start - EndOf(c))))
  {
  }

  /** Removing an inserted clip with a ripple closes the gap its insertion opened: the edit is undone exactly. */
  lemma InsertThenRemove(library: Library, t: Timeline, id: Id, p: Placement)
    requires Joined(t) && ApplyInsert(library, t, id, p, Insert).Ok?
    ensures ApplyRemoveOne(ApplyInsert(library, t, id, p, Insert).value, id, true) == Ok(t)
  {
    hide Joined, HasId, IndexOf, RemoveClip, ShiftClips, PlacementFault;
    var c := ClipFromPlacement(id, p);
    var shifted := t.(clips := ShiftClips(t.clips, p.track, p.start, p.frames));
    ShiftedIds(t.clips, p.track, p.start, p.frames, id);
    UnusedId(t, id);
    PushedThenRemoved(shifted, c);
    ShiftBack(t.clips, p.track, p.start, p.frames);
    assert ApplyInsert(library, t, id, p, Insert).value == PushClip(shifted, c);
    RemovedWithRipple(PushClip(shifted, c), |shifted.clips|, shifted);
  }

  // ----- removing a range

  /** Without a ripple nothing on the track meets the range any more. */
  lemma RangeIsEmptied(t: Timeline, track: string, start: int, end: int, p: Clip)
    requires start < end && DistinctIds(t.clips) && FreshSlices(t.clips, track, start, end)
    requires p in RemoveFromTrack(t, track, start, end, false).clips
    ensures !Touched(p, track, start, end)
  {
    AfterRemoval(t, track, start, end, false, p);
  }

  lemma {:induction false} NothingToCut(t: Timeline, cs: seq<Clip>, start: int, end: int, ripple: bool)
    requires start < end && forall i :: 0 <= i < |cs| ==> !Meets(cs[i], start, end)
    ensures CutClips(t, cs, start, end, ripple) == t
    decreases |cs|
  {
    if cs == [] {
    } else {
      NothingToCut(t, cs[..|cs| - 1], start, end, ripple);
    }
  }

  /** So removing the same range again changes nothing. */
  lemma RemoveTwice(t: Timeline, track: string, start: int, end: int)
    requires start < end && DistinctIds(t.clips) && FreshSlices(t.clips, track, start, end)
    ensures var u := RemoveFromTrack(t, track, start, end, false);
            RemoveFromTrack(u, track, start, end, false) == u
  {
    var u := RemoveFromTrack(t, track, start, end, false);
    var cs := OnTrack(u.clips, track);
    forall i | 0 <= i < |cs|
      ensures !Meets(cs[i], start, end)
    {
      Filtered((c: Clip) => c.track == track, u.clips, cs[i]);
      RangeIsEmptied(t, track, start, end, cs[i]);
    }
    NothingToCut(u, cs, start, end, false);
  }

  // ----- cues and transitions

  lemma {:induction false} FilterTwice<T>(keep: T -> bool, s: seq<T>)
    ensures Filter(keep, Filter(keep, s)) == Filter(keep, s)
    decreases |s|
  {
    forall i | 0 <= i < |Filter(keep, s)|
      ensures keep(Filter(keep, s)[i])
    {
      Filtered(keep, s, Filter(keep, s)[i]);
    }
    NothingFiltered(keep, Filter(keep, s));
  }

  lemma FilterPushed<T>(keep: T -> bool, s: seq<T>, x: T)
    requires !keep(x)
    ensures Filter(keep, Filter(keep, s) + [x]) == Filter(keep, s)
  {
    FilterTwice(keep, s);
    var kept := Filter(keep, s);
    assert (kept + [x])[..|kept + [x]| - 1] == kept;
  }

  /** Putting the same cue twice is putting it once. */
  lemma CaptionTwice(library: Library, t: Timeline, cue: Cue)
    requires ApplyCaption(library, t, cue).Ok?
    ensures ApplyCaption(library, ApplyCaption(library, t, cue).value, cue) == ApplyCaption(library, t, cue)
  {
    FilterPushed((x: Cue) => x.id != cue.id, t.captions, cue);
  }

  /** After an upsert a cue with that id is the one that was put; cues with other ids are as before. */
  lemma CaptionMeans(library: Library, t: Timeline, cue: Cue, x: Cue)
    requires ApplyCaption(library, t, cue).Ok?
    ensures x in ApplyCaption(library, t, cue).value.captions <==> if x.id == cue.id then x == cue else x in t.captions
  {
    Filtered((x: Cue) => x.id != cue.id, t.captions, x);
  }

  /** A transition that was set is the only one of its pair, joins clips that meet, and is no longer than either. */
  lemma TransitionMeans(t: Timeline, outgoing: Id, incoming: Id, x: Transition)
    requires Good(t) && ApplyTransition(t, outgoing, incoming, Some(x)).Ok?
    ensures var u := ApplyTransition(t, outgoing, incoming, Some(x)).value;
            && (forall y :: y in u.transitions && y.outgoing == outgoing && y.incoming == incoming ==> y == x)
            && x in u.transitions && x.outgoing == outgoing && x.incoming == incoming
            && exists a, b :: a in u.clips && b in u.clips && a.id == outgoing && b.id == incoming && a.track == b.track == x.track
                 && EndOf(a) == b.start && 1 <= x.frames <= a.frames && x.frames <= b.frames
  {
    var u := ApplyTransition(t, outgoing, incoming, Some(x)).value;
    forall y | y in u.transitions && y.outgoing == outgoing && y.incoming == incoming
      ensures y == x
    {
      Filtered((z: Transition) => z.outgoing != outgoing || z.incoming != incoming, t.transitions, y);
    }
    var a, b := t.clips[IndexOf(t.clips, outgoing).value], t.clips[IndexOf(t.clips, incoming).value];
    assert a in u.clips && b in u.clips;
  }

  /** Clearing a transition that was just set leaves the others as they were. */
  lemma TransitionCleared(t: Timeline, outgoing: Id, incoming: Id, x: Transition)
    requires ApplyTransition(t, outgoing, incoming, Some(x)).Ok?
    ensures ApplyTransition(ApplyTransition(t, outgoing, incoming, Some(x)).value, outgoing, incoming, None) ==
              ApplyTransition(t, outgoing, incoming, None)
  {
    FilterPushed((z: Transition) => z.outgoing != outgoing || z.incoming != incoming, t.transitions, x);
  }
}
