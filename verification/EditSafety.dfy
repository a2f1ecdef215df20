/**
 What every edit operation keeps (src/edits.ts), whole batches included, without the final
 check of the projection: distinct ids, no overlap outside audio tracks, starts that are not
 negative, and no transition of a clip that is gone.
 */
module EditSafety {
  import opened Wrappers
  import opened Collections
  import opened Slices
  import opened Timelines
  import opened Edits
  import opened RangeRemoval

  predicate AudioTrack(tracks: seq<Track>, id: string) {
    var track := FindTrack(tracks, id);
    track.Some? && track.value.kind.Audio?
  }

  predicate ClipsApart(c: Clip, d: Clip) {
    !Meets(c, d.start, EndOf(d))
  }

  predicate Apart(t: Timeline) {
    forall p, q :: p in t.clips && q in t.clips && p.id != q.id && p.track == q.track && !AudioTrack(t.tracks, p.track) ==>
      ClipsApart(p, q)
  }

  predicate StartsOk(clips: seq<Clip>) {
    forall p :: p in clips ==> p.start >= 0
  }

  predicate CuesOk(cues: seq<Cue>) {
    forall i :: 0 <= i < |cues| ==> cues[i].start >= 0 && cues[i].frames >= 1
  }

  predicate Joined(t: Timeline) {
    forall x :: x in t.transitions ==> HasId(t.clips, x.outgoing) && HasId(t.clips, x.incoming)
  }

  predicate Good(t: Timeline) {
    DistinctIds(t.clips) && Apart(t) && StartsOk(t.clips) && CuesOk(t.captions) && Joined(t)
  }

  /** Said with indices: no two clips of a track other than an audio track share a frame. */
  lemma NoTwoClipsShareAFrame(t: Timeline, i: nat, j: nat, f: int)
    requires Good(t) && i < j < |t.clips| && t.clips[i].track == t.clips[j].track && !AudioTrack(t.tracks, t.clips[i].track)
    ensures !(t.clips[i].start <= f < EndOf(t.clips[i]) && t.clips[j].start <= f < EndOf(t.clips[j]))
  {
    assert ClipsApart(t.clips[i], t.clips[j]);
  }

  predicate SameTracks(t: Timeline, u: Timeline) {
    t.sequence == u.sequence && t.tracks == u.tracks
  }

  // ----- the steps operations are made of

  lemma {:induction false} FilterDistinct(keep: Clip -> bool, clips: seq<Clip>)
    requires DistinctIds(clips)
    ensures DistinctIds(Filter(keep, clips))
    decreases |clips|
  {
    if clips == [] {
    } else {
      var n := |clips| - 1;
      FilterDistinct(keep, clips[..n]);
      forall i | 0 <= i < |Filter(keep, clips[..n])|
        ensures Filter(keep, clips[..n])[i].id != clips[n].id
      {
        Filtered(keep, clips[..n], Filter(keep, clips[..n])[i]);
      }
    }
  }

  lemma HasIdIsMember(clips: seq<Clip>, id: Id)
    ensures HasId(clips, id) <==> exists c :: c in clips && c.id == id
  {
  }

  lemma WithoutMembers(clips: seq<Clip>, id: Id)
    ensures forall c :: c in WithoutClip(clips, id) <==> c in clips && c.id != id
  {
    forall c
      ensures c in WithoutClip(clips, id) <==> c in clips && c.id != id
    {
      Filtered((c: Clip) => c.id != id, clips, c);
    }
  }

  lemma RemoveClipJoined(t: Timeline, id: Id)
    requires Joined(t)
    ensures Joined(RemoveClip(t, id))
  {
    var u := RemoveClip(t, id);
    WithoutMembers(t.clips, id);
    forall x | x in u.transitions
      ensures HasId(u.clips, x.outgoing) && HasId(u.clips, x.incoming)
    {
      Filtered((x: Transition) => x.outgoing != id && x.incoming != id, t.transitions, x);
      HasIdIsMember(t.clips, x.outgoing);
      HasIdIsMember(t.clips, x.incoming);
      HasIdIsMember(u.clips, x.outgoing);
      HasIdIsMember(u.clips, x.incoming);
    }
  }

  lemma RemoveClipGood(t: Timeline, id: Id)
    requires Good(t)
    ensures Good(RemoveClip(t, id)) && SameTracks(t, RemoveClip(t, id))
    ensures !HasId(RemoveClip(t, id).clips, id)
  {
    FilterDistinct((c: Clip) => c.id != id, t.clips);
    WithoutMembers(t.clips, id);
    RemoveClipJoined(t, id);
    HasIdIsMember(RemoveClip(t, id).clips, id);
  }

  /** A clip that may join the others: a new id, and apart from its neighbours. */
  predicate Fits(t: Timeline, c: Clip) {
    && c.start >= 0
    && !HasId(t.clips, c.id)
    && (AudioTrack(t.tracks, c.track) || forall q :: q in t.clips && q.track == c.track ==> ClipsApart(q, c))
  }

  lemma StillThere(clips: seq<Clip>, c: Clip, id: Id)
    requires HasId(clips, id)
    ensures HasId(clips + [c], id)
  {
    var i :| 0 <= i < |clips| && clips[i].id == id;
    assert (clips + [c])[i].id == id;
  }

  lemma PushGood(t: Timeline, c: Clip)
    requires Good(t) && Fits(t, c)
    ensures Good(PushClip(t, c)) && SameTracks(t, PushClip(t, c))
  {
    var u := PushClip(t, c);
    forall p, q | p in u.clips && q in u.clips && p.id != q.id && p.track == q.track && !AudioTrack(u.tracks, p.track)
      ensures ClipsApart(p, q)
    {
      if p != c && q != c { assert p in t.clips && q in t.clips; }
    }
    forall x | x in u.transitions
      ensures HasId(u.clips, x.outgoing) && HasId(u.clips, x.incoming)
    {
      StillThere(t.clips, c, x.outgoing);
      StillThere(t.clips, c, x.incoming);
    }
  }

  lemma StillPut(clips: seq<Clip>, i: nat, c: Clip, id: Id)
    requires i < |clips| && c.id == clips[i].id && HasId(clips, id)
    ensures HasId(clips[i := c], id)
  {
    var j :| 0 <= j < |clips| && clips[j].id == id;
    assert clips[i := c][j].id == id;
  }

  /** Replacing a clip by one with its id that stays apart from the others. */
  lemma PutGood(t: Timeline, i: nat, c: Clip)
    requires Good(t) && i < |t.clips| && c.id == t.clips[i].id && c.start >= 0
    requires AudioTrack(t.tracks, c.track) || forall q :: q in t.clips && q.track == c.track && q.id != c.id ==> ClipsApart(q, c)
    ensures Good(PutClip(t, i, c)) && SameTracks(t, PutClip(t, i, c))
  {
    var u := PutClip(t, i, c);
    forall p | p in u.clips
      ensures p == c || (p in t.clips && p.id != c.id)
    {
      var j :| 0 <= j < |u.clips| && u.clips[j] == p;
      if j != i { assert t.clips[j] == p; }
    }
    forall p, q | p in u.clips && q in u.clips && p.id != q.id && p.track == q.track && !AudioTrack(u.tracks, p.track)
      ensures ClipsApart(p, q)
    {
      if p == c { assert ClipsApart(q, c); }
    }
    forall x | x in u.transitions
      ensures HasId(u.clips, x.outgoing) && HasId(u.clips, x.incoming)
    {
      StillPut(t.clips, i, c, x.outgoing);
      StillPut(t.clips, i, c, x.incoming);
    }
  }

  lemma ShiftApart(t: Timeline, u: Timeline, track: string, from: int, delta: int)
    requires Apart(t) && u.tracks == t.tracks
    requires forall p :: p in u.clips ==> exists c :: c in t.clips && p == ShiftClip(c, track, from, delta)
    requires AudioTrack(t.tracks, track) ||
      forall q :: q in t.clips && q.track == track && q.start < from ==> EndOf(q) <= from && EndOf(q) <= from + delta
    ensures Apart(u)
  {
    forall p, q | p in u.clips && q in u.clips && p.id != q.id && p.track == q.track && !AudioTrack(u.tracks, p.track)
      ensures ClipsApart(p, q)
    {
      var c :| c in t.clips && p == ShiftClip(c, track, from, delta);
      var d :| d in t.clips && q == ShiftClip(d, track, from, delta);
      assert ClipsApart(c, d);
    }
  }

  lemma ShiftJoined(t: Timeline, u: Timeline, track: string, from: int, delta: int)
    requires Joined(t) && u.transitions == t.transitions && u.clips == ShiftClips(t.clips, track, from, delta)
    ensures Joined(u)
  {
    forall id | HasId(t.clips, id)
      ensures HasId(u.clips, id)
    {
      var i :| 0 <= i < |t.clips| && t.clips[i].id == id;
      assert u.clips[i].id == id;
    }
  }

  /** Moving the tail of a track keeps clips apart when what lies before it ends in time. */
  lemma ShiftGood(t: Timeline, track: string, from: int, delta: int)
    requires Good(t) && from + delta >= 0
    requires AudioTrack(t.tracks, track) ||
      forall q :: q in t.clips && q.track == track && q.start < from ==> EndOf(q) <= from && EndOf(q) <= from + delta
    ensures var u := t.(clips := ShiftClips(t.clips, track, from, delta));
            Good(u) && SameTracks(t, u)
  {
    var u := t.(clips := ShiftClips(t.clips, track, from, delta));
    forall p | p in u.clips
      ensures exists c :: c in t.clips && p == ShiftClip(c, track, from, delta)
    {
      Shifted(t.clips, track, from, delta, p);
    }
    ShiftApart(t, u, track, from, delta);
    ShiftJoined(t, u, track, from, delta);
  }

  // ----- removing a range

  /** Pieces of two clips that are apart stay apart, and so do the two pieces of one clip. */
  lemma BecomesApart(c: Clip, d: Clip, track: string, start: int, end: int, ripple: bool, p: Clip, q: Clip)
    requires start < end && c.track == d.track && ClipsApart(c, d)
    requires p in Becomes(c, track, start, end, ripple) && q in Becomes(d, track, start, end, ripple)
    ensures ClipsApart(p, q)
  {
  }

  lemma HalvesApart(c: Clip, track: string, start: int, end: int, ripple: bool, p: Clip, q: Clip)
    requires start < end && p.id != q.id
    requires p in Becomes(c, track, start, end, ripple) && q in Becomes(c, track, start, end, ripple)
    ensures ClipsApart(p, q)
  {
  }

  lemma OriginsApart(t: Timeline, c: Clip, d: Clip, track: string, start: int, end: int, ripple: bool, p: Clip, q: Clip)
    requires start < end && DistinctIds(t.clips) && Apart(t) && c in t.clips && d in t.clips
    requires p in Becomes(c, track, start, end, ripple) && q in Becomes(d, track, start, end, ripple)
    requires p.id != q.id && p.track == q.track && !AudioTrack(t.tracks, p.track)
    ensures ClipsApart(p, q)
  {
    assert p.track == c.track && q.track == d.track;
    if c.id == d.id {
      SameIdSameClip(t.clips, c, d);
      HalvesApart(c, track, start, end, ripple, p, q);
    } else {
      BecomesApart(c, d, track, start, end, ripple, p, q);
    }
  }

  lemma RemovalApart(t: Timeline, track: string, start: int, end: int, ripple: bool)
    requires start < end && DistinctIds(t.clips) && Apart(t) && FreshSlices(t.clips, track, start, end)
    requires SameTracks(t, RemoveFromTrack(t, track, start, end, ripple))
    ensures Apart(RemoveFromTrack(t, track, start, end, ripple))
  {
    var u := RemoveFromTrack(t, track, start, end, ripple);
    forall p, q | p in u.clips && q in u.clips && p.id != q.id && p.track == q.track && !AudioTrack(u.tracks, p.track)
      ensures ClipsApart(p, q)
    {
      AfterRemoval(t, track, start, end, ripple, p);
      AfterRemoval(t, track, start, end, ripple, q);
      var c :| c in t.clips && p in Becomes(c, track, start, end, ripple);
      var d :| d in t.clips && q in Becomes(d, track, start, end, ripple);
      OriginsApart(t, c, d, track, start, end, ripple, p, q);
    }
  }

  lemma RemovalStarts(t: Timeline, track: string, start: int, end: int, ripple: bool)
    requires 0 <= start < end && DistinctIds(t.clips) && StartsOk(t.clips) && FreshSlices(t.clips, track, start, end)
    ensures StartsOk(RemoveFromTrack(t, track, start, end, ripple).clips)
  {
    var u := RemoveFromTrack(t, track, start, end, ripple);
    forall p | p in u.clips
      ensures p.start >= 0
    {
      AfterRemoval(t, track, start, end, ripple, p);
    }
  }

  lemma RemovalCues(t: Timeline, track: string, start: int, end: int, ripple: bool)
    requires 0 <= start < end && CuesOk(t.captions)
    ensures CuesOk(RemoveFromTrack(t, track, start, end, ripple).captions)
    ensures SameTracks(t, RemoveFromTrack(t, track, start, end, ripple))
  {
    CutsKeepCues(t, OnTrack(t.clips, track), start, end, ripple);
  }

  lemma RemainsFrom(c: Clip, start: int, end: int, ripple: bool, p: Clip)
    requires start < end && p in Remains(c, start, end, ripple)
    ensures p.id.Derived? && p.id.from == c.id
  {
  }

  lemma CutInto(cs: seq<Clip>, start: int, end: int, ripple: bool, p: Clip) returns (c: Clip)
    requires start < end && LeftOver(cs, start, end, ripple, p)
    ensures c in cs && p in Remains(c, start, end, ripple)
  {
    var i :| 0 <= i < |cs| && Meets(cs[i], start, end) && p in Remains(cs[i], start, end, ripple);
    c := cs[i];
  }

  lemma NewAmongCuts(t: Timeline, cs: seq<Clip>, track: string, start: int, end: int, ripple: bool, p: Clip, q: Clip)
    requires start < end && cs != [] && AllIn(cs, t.clips, track) && FreshSlices(t.clips, track, start, end) && DistinctIds(cs)
    requires p in CutClips(t, cs[..|cs| - 1], start, end, ripple).clips
    requires Meets(cs[|cs| - 1], start, end) && q in Remains(cs[|cs| - 1], start, end, ripple)
    ensures p.id != q.id
  {
    var n := |cs| - 1;
    AfterCuts(t, cs[..n], track, start, end, ripple, p);
    RemainsFrom(cs[n], start, end, ripple, q);
    if p in t.clips {
      MemberHasId(t.clips, p);
      RemainsAreNew(t.clips, cs[n], track, start, end, ripple, q);
    } else {
      var c := CutInto(cs[..n], start, end, ripple, p);
      RemainsFrom(c, start, end, ripple, p);
      assert cs[n].id != c.id by { assert c in cs[..n]; }
    }
  }

  lemma RemainsDistinct(c: Clip, start: int, end: int, ripple: bool)
    requires start < end
    ensures DistinctIds(Remains(c, start, end, ripple))
  {
  }

  lemma JoinDistinct(xs: seq<Clip>, ys: seq<Clip>)
    requires DistinctIds(xs) && DistinctIds(ys)
    requires forall p, q :: p in xs && q in ys ==> p.id != q.id
    ensures DistinctIds(xs + ys)
  {
    forall i, j | 0 <= i < j < |xs + ys|
      ensures (xs + ys)[i].id != (xs + ys)[j].id
    {
      if i < |xs| <= j { assert xs[i] in xs && ys[j - |xs|] in ys; }
    }
  }

  lemma {:induction false} CutsDistinct(t: Timeline, cs: seq<Clip>, track: string, start: int, end: int, ripple: bool)
    requires start < end && AllIn(cs, t.clips, track) && FreshSlices(t.clips, track, start, end)
    requires DistinctIds(t.clips) && DistinctIds(cs)
    ensures DistinctIds(CutClips(t, cs, start, end, ripple).clips)
    decreases |cs|
  {
    if cs == [] {
    } else {
      var n := |cs| - 1;
      var before := CutClips(t, cs[..n], start, end, ripple);
      CutsDistinct(t, cs[..n], track, start, end, ripple);
      if Meets(cs[n], start, end) {
        var rest := WithoutClip(before.clips, cs[n].id);
        FilterDistinct((c: Clip) => c.id != cs[n].id, before.clips);
        forall p, q | p in rest && q in Remains(cs[n], start, end, ripple)
          ensures p.id != q.id
        {
          Filtered((c: Clip) => c.id != cs[n].id, before.clips, p);
          NewAmongCuts(t, cs, track, start, end, ripple, p, q);
        }
        RemainsDistinct(cs[n], start, end, ripple);
        JoinDistinct(rest, Remains(cs[n], start, end, ripple));
      }
    }
  }

  lemma RemovalDistinct(t: Timeline, track: string, start: int, end: int, ripple: bool)
    requires start < end && DistinctIds(t.clips) && FreshSlices(t.clips, track, start, end)
    ensures DistinctIds(RemoveFromTrack(t, track, start, end, ripple).clips)
  {
    var cs := OnTrack(t.clips, track);
    FilterDistinct((c: Clip) => c.track == track, t.clips);
    forall i | 0 <= i < |cs|
      ensures cs[i] in t.clips && cs[i].track == track
    {
      Filtered((c: Clip) => c.track == track, t.clips, cs[i]);
    }
    CutsDistinct(t, cs, track, start, end, ripple);
  }

  lemma UntouchedStays(t: Timeline, track: string, start: int, end: int, ripple: bool, id: Id)
    requires start < end && DistinctIds(t.clips) && FreshSlices(t.clips, track, start, end) && HasId(t.clips, id)
    requires forall c :: c in t.clips && Touched(c, track, start, end) ==> c.id != id
    ensures HasId(RemoveFromTrack(t, track, start, end, ripple).clips, id)
  {
    var i :| 0 <= i < |t.clips| && t.clips[i].id == id;
    var c := t.clips[i];
    assert c in t.clips;
    var p := if ripple then ShiftClip(c, track, end, start - end) else c;
    assert p in Becomes(c, track, start, end, ripple);
    AfterRemoval(t, track, start, end, ripple, p);
    MemberHasId(RemoveFromTrack(t, track, start, end, ripple).clips, p);
  }

  /** The clips a kept transition joins were not touched, so they are still there. */
  lemma RemovalJoined(t: Timeline, track: string, start: int, end: int, ripple: bool)
    requires start < end && DistinctIds(t.clips) && FreshSlices(t.clips, track, start, end) && Joined(t)
    ensures Joined(RemoveFromTrack(t, track, start, end, ripple))
  {
    var u := RemoveFromTrack(t, track, start, end, ripple);
    forall x | x in u.transitions
      ensures HasId(u.clips, x.outgoing) && HasId(u.clips, x.incoming)
    {
      TransitionsAfterRemoval(t, track, start, end, ripple, x);
      UntouchedStays(t, track, start, end, ripple, x.outgoing);
      UntouchedStays(t, track, start, end, ripple, x.incoming);
    }
  }

  lemma RemoveFromTrackGood(t: Timeline, track: string, start: int, end: int, ripple: bool)
    requires 0 <= start < end && Good(t) && FreshSlices(t.clips, track, start, end)
    ensures var u := RemoveFromTrack(t, track, start, end, ripple);
            Good(u) && SameTracks(t, u)
  {
    RemovalCues(t, track, start, end, ripple);
    RemovalApart(t, track, start, end, ripple);
    RemovalStarts(t, track, start, end, ripple);
    RemovalDistinct(t, track, start, end, ripple);
    RemovalJoined(t, track, start, end, ripple);
  }

  /** The ids of the slices are new whenever a track is cut. */
  predicate FreshTracks(t: Timeline, tracks: seq<string>, start: int, end: int, ripple: bool)
    requires start < end
    decreases |tracks|
  {
    tracks == [] ||
    (var n := |tracks| - 1;
     var before := RemoveFromTracks(t, tracks[..n], start, end, ripple);
     FreshTracks(t, tracks[..n], start, end, ripple) &&
     (before.Ok? ==> FreshSlices(before.value.clips, tracks[n], start, end)))
  }

  lemma {:induction false} RemoveFromTracksGood(t: Timeline, tracks: seq<string>, start: int, end: int, ripple: bool)
    requires 0 <= start < end && Good(t) && FreshTracks(t, tracks, start, end, ripple)
    requires RemoveFromTracks(t, tracks, start, end, ripple).Ok?
    ensures var u := RemoveFromTracks(t, tracks, start, end, ripple).value;
            Good(u) && SameTracks(t, u)
    decreases |tracks|
  {
    if tracks == [] {
    } else {
      var n := |tracks| - 1;
      RemoveFromTracksGood(t, tracks[..n], start, end, ripple);
      RemoveFromTrackGood(RemoveFromTracks(t, tracks[..n], start, end, ripple).value, tracks[n], start, end, ripple);
    }
  }

  predicate FreshRange(t: Timeline, tracks: seq<string>, r: SequenceRange, ripple: bool) {
    RangeFault(t, r).None? ==> FreshTracks(t, Unique(tracks), r.start, r.start + r.frames, ripple)
  }

  /** A range in order is removed from the named tracks, each once. */
  lemma RangeIsTracks(t: Timeline, tracks: seq<string>, r: SequenceRange, ripple: bool, u: Timeline)
    requires ApplyRemoveRange(t, tracks, r, ripple) == Ok(u)
    ensures 0 <= r.start && 1 <= r.frames && RemoveFromTracks(t, Unique(tracks), r.start, r.start + r.frames, ripple) == Ok(u)
  {
  }

  lemma ApplyRemoveRangeGood(t: Timeline, tracks: seq<string>, r: SequenceRange, ripple: bool)
    requires Good(t) && FreshRange(t, tracks, r, ripple) && ApplyRemoveRange(t, tracks, r, ripple).Ok?
    ensures var u := ApplyRemoveRange(t, tracks, r, ripple).value;
            Good(u) && SameTracks(t, u)
  {
    RangeIsTracks(t, tracks, r, ripple, ApplyRemoveRange(t, tracks, r, ripple).value);
    RemoveFromTracksGood(t, Unique(tracks), r.start, r.start + r.frames, ripple);
  }

  // ----- inserting

  lemma {:induction false} RemoveClipsGood(t: Timeline, removed: seq<Clip>)
    requires Good(t)
    ensures Good(RemoveClips(t, removed)) && SameTracks(t, RemoveClips(t, removed))
    ensures forall c :: c in RemoveClips(t, removed).clips <==> c in t.clips && forall i :: 0 <= i < |removed| ==> removed[i].id != c.id
    decreases |removed|
  {
    if removed == [] {
    } else {
      var n := |removed| - 1;
      RemoveClipsGood(t, removed[..n]);
      RemoveClipGood(RemoveClips(t, removed[..n]), removed[n].id);
      WithoutMembers(RemoveClips(t, removed[..n]).clips, removed[n].id);
      assert forall i :: 0 <= i < n ==> removed[..n][i] == removed[i];
    }
  }

  lemma OverlappingMembers(clips: seq<Clip>, track: string, start: int, end: int)
    ensures forall c :: c in Overlapping(clips, track, start, end) <==> c in clips && c.track == track && Meets(c, start, end)
  {
    forall c
      ensures c in Overlapping(clips, track, start, end) <==> c in clips && c.track == track && Meets(c, start, end)
    {
      Filtered((c: Clip) => c.track == track, clips, c);
      Filtered((c: Clip) => Meets(c, start, end), OnTrack(clips, track), c);
    }
  }

  lemma NotAmong(removed: seq<Clip>, q: Clip)
    requires forall i :: 0 <= i < |removed| ==> removed[i].id != q.id
    ensures q !in removed
  {
  }

  lemma NoneEarlier(clips: seq<Clip>, start: int, q: Clip)
    requires !StartsBefore(clips, start) && q in clips
    ensures q.start >= start
  {
  }

  lemma OverwriteGood(t: Timeline, c: Clip)
    requires Good(t) && c.start >= 0 && !HasId(t.clips, c.id)
    ensures var u := PushClip(RemoveClips(t, Overlapping(t.clips, c.track, c.start, EndOf(c))), c);
            Good(u) && SameTracks(t, u)
  {
    var overlaps := Overlapping(t.clips, c.track, c.start, EndOf(c));
    var cleared := RemoveClips(t, overlaps);
    RemoveClipsGood(t, overlaps);
    OverlappingMembers(t.clips, c.track, c.start, EndOf(c));
    HasIdIsMember(t.clips, c.id);
    HasIdIsMember(cleared.clips, c.id);
    forall q | q in cleared.clips && q.track == c.track
      ensures ClipsApart(q, c)
    {
      NotAmong(overlaps, q);
    }
    PushGood(cleared, c);
  }

  lemma MakeRoomGood(t: Timeline, c: Clip)
    requires Good(t) && c.start >= 0 && !HasId(t.clips, c.id)
    requires !StartsBefore(Overlapping(t.clips, c.track, c.start, EndOf(c)), c.start)
    ensures var u := PushClip(t.(clips := ShiftClips(t.clips, c.track, c.start, c.frames)), c);
            Good(u) && SameTracks(t, u)
  {
    var overlaps := Overlapping(t.clips, c.track, c.start, EndOf(c));
    OverlappingMembers(t.clips, c.track, c.start, EndOf(c));
    forall q | q in overlaps
      ensures q.start >= c.start
    {
      NoneEarlier(overlaps, c.start, q);
    }
    ShiftGood(t, c.track, c.start, c.frames);
    var shifted := t.(clips := ShiftClips(t.clips, c.track, c.start, c.frames));
    assert forall i :: 0 <= i < |t.clips| ==> shifted.clips[i].id == t.clips[i].id;
    forall q | q in shifted.clips && q.track == c.track
      ensures ClipsApart(q, c)
    {
      Shifted(t.clips, c.track, c.start, c.frames, q);
    }
    PushGood(shifted, c);
  }

  lemma ApplyInsertGood(library: Library, t: Timeline, id: Id, p: Placement, mode: Mode)
    requires Good(t) && ApplyInsert(library, t, id, p, mode).Ok?
    ensures var u := ApplyInsert(library, t, id, p, mode).value;
            Good(u) && SameTracks(t, u)
  {
    var c := ClipFromPlacement(id, p);
    if mode.Overwrite? { OverwriteGood(t, c); } else { MakeRoomGood(t, c); }
  }

  lemma {:induction false} InsertAllGood(library: Library, t: Timeline, placements: seq<Placement>, opId: Id)
    requires Good(t) && InsertAll(library, t, placements, opId).Ok?
    ensures var u := InsertAll(library, t, placements, opId).value;
            Good(u) && SameTracks(t, u)
    decreases |placements|
  {
    if placements == [] {
    } else {
      var n := |placements| - 1;
      InsertAllGood(library, t, placements[..n], opId);
      ApplyInsertGood(library, InsertAll(library, t, placements[..n], opId).value, Derived(opId, Placed(n)), placements[n], Overwrite);
    }
  }

  // ----- operations on one clip

  lemma EndsBefore(t: Timeline, q: Clip, c: Clip)
    requires Apart(t) && q in t.clips && c in t.clips && q.id != c.id && q.track == c.track && !AudioTrack(t.tracks, c.track)
    ensures q.start < EndOf(c) ==> EndOf(q) <= c.start
  {
    assert ClipsApart(q, c);
  }

  lemma RoomBefore(t: Timeline, c: Clip)
    requires Apart(t) && c in t.clips
    ensures AudioTrack(t.tracks, c.track) ||
      forall q :: q in RemoveClip(t, c.id).clips && q.track == c.track && q.start < EndOf(c) ==> EndOf(q) <= c.start
  {
    WithoutMembers(t.clips, c.id);
    forall q | q in t.clips && q.id != c.id && q.track == c.track && q.start < EndOf(c) && !AudioTrack(t.tracks, c.track)
      ensures EndOf(q) <= c.start
    {
      EndsBefore(t, q, c);
    }
  }

  lemma RippleGood(t: Timeline, c: Clip)
    requires Good(t) && c in t.clips
    ensures var without := RemoveClip(t, c.id);
            var u := without.(clips := ShiftClips(without.clips, c.track, EndOf(c), c.start - EndOf(c)));
            Good(u) && SameTracks(t, u)
  {
    var without := RemoveClip(t, c.id);
    RemoveClipGood(t, c.id);
    RoomBefore(t, c);
    ShiftGood(without, c.track, EndOf(c), c.start - EndOf(c));
  }

  lemma ApplyRemoveOneGood(t: Timeline, id: Id, ripple: bool)
    requires Good(t) && ApplyRemoveOne(t, id, ripple).Ok?
    ensures var u := ApplyRemoveOne(t, id, ripple).value;
            Good(u) && SameTracks(t, u)
  {
    var c := t.clips[IndexOf(t.clips, id).value];
    assert c in t.clips && c.id == id;
    if ripple { RippleGood(t, c); } else { RemoveClipGood(t, c.id); }
  }

  lemma CheckedGood(t: Timeline, i: nat, c: Clip)
    requires Good(t) && i < |t.clips| && c.id == t.clips[i].id && c.start >= 0 && Checked(PutClip(t, i, c), c).Ok?
    ensures Good(PutClip(t, i, c)) && SameTracks(t, PutClip(t, i, c))
  {
    var u := PutClip(t, i, c);
    forall q | q in t.clips && q.track == c.track && q.id != c.id && !AudioTrack(t.tracks, c.track)
      ensures ClipsApart(q, c)
    {
      var j :| 0 <= j < |t.clips| && t.clips[j] == q;
      assert u.clips[j] == q;
    }
    PutGood(t, i, c);
  }

  /** Settings do not move a clip. */
  lemma SettingGood(t: Timeline, i: nat, c: Clip)
    requires Good(t) && i < |t.clips|
    requires c.id == t.clips[i].id && c.track == t.clips[i].track && c.start == t.clips[i].start && c.frames == t.clips[i].frames
    ensures Good(PutClip(t, i, c)) && SameTracks(t, PutClip(t, i, c))
  {
    assert t.clips[i] in t.clips;
    forall q | q in t.clips && q.track == c.track && q.id != c.id && !AudioTrack(t.tracks, c.track)
      ensures ClipsApart(q, c)
    {
      assert ClipsApart(q, t.clips[i]);
    }
    PutGood(t, i, c);
  }

  lemma PartIdsFree(clips: seq<Clip>, own: Id, left: Id, right: Id)
    requires !TakenByOthers(clips, own, left, right)
    ensures !HasId(WithoutClip(clips, own), left) && !HasId(WithoutClip(clips, own), right)
  {
    WithoutMembers(clips, own);
    HasIdIsMember(WithoutClip(clips, own), left);
    HasIdIsMember(WithoutClip(clips, own), right);
  }

  /** A part of a clip fits where the clip was. */
  lemma PartFits(t: Timeline, c: Clip, p: Clip)
    requires Good(t) && c in t.clips && p.track == c.track && c.start <= p.start && EndOf(p) <= EndOf(c)
    requires !HasId(RemoveClip(t, c.id).clips, p.id)
    ensures Fits(RemoveClip(t, c.id), p)
  {
    WithoutMembers(t.clips, c.id);
    forall q | q in RemoveClip(t, c.id).clips && q.track == p.track && !AudioTrack(t.tracks, p.track)
      ensures ClipsApart(q, p)
    {
      assert ClipsApart(q, c);
    }
  }

  lemma RightFits(t: Timeline, left: Clip, right: Clip)
    requires Fits(t, right) && left.id != right.id && EndOf(left) <= right.start
    ensures Fits(PushClip(t, left), right)
  {
  }

  lemma PartsGood(t: Timeline, c: Clip, left: Clip, right: Clip)
    requires Good(t) && c in t.clips && left.track == right.track == c.track && left.id != right.id
    requires c.start == left.start && EndOf(left) == right.start && EndOf(right) == EndOf(c)
    requires !TakenByOthers(t.clips, c.id, left.id, right.id)
    ensures var u := PushClip(PushClip(RemoveClip(t, c.id), left), right);
            Good(u) && SameTracks(t, u)
  {
    var without := RemoveClip(t, c.id);
    RemoveClipGood(t, c.id);
    PartIdsFree(t.clips, c.id, left.id, right.id);
    PartFits(t, c, left);
    PushGood(without, left);
    PartFits(t, c, right);
    RightFits(without, left, right);
    PushGood(PushClip(without, left), right);
  }

  lemma ApplySplitGood(t: Timeline, op: Operation, opId: Id)
    requires op.SplitClip? && Good(t) && ApplySplit(t, op, opId).Ok?
    ensures var u := ApplySplit(t, op, opId).value.timeline;
            Good(u) && SameTracks(t, u)
  {
    var c := t.clips[IndexOf(t.clips, op.split).value];
    var frames := op.at - c.start;
    var left := LeftPart(c, IdOr(op.left, opId, Label.LeftHalf), frames);
    var right := RightPart(c, IdOr(op.right, opId, Label.RightHalf), frames);
    PartsGood(t, c, left, right);
    assert RemoveClip(t, c.id).clips + [left] + [right] == RemoveClip(t, c.id).clips + [left, right];
  }

  // ----- whole operations and batches

  lemma ApplyMoveGood(t: Timeline, id: Id, track: string, start: int)
    requires Good(t) && ApplyMove(t, id, track, start).Ok?
    ensures var u := ApplyMove(t, id, track, start).value;
            Good(u) && SameTracks(t, u)
  {
    var i := IndexOf(t.clips, id).value;
    CheckedGood(t, i, t.clips[i].(track := track, start := start));
  }

  lemma ApplyTrimGood(library: Library, t: Timeline, id: Id, start: int, frames: int, range: Option<Range>)
    requires Good(t) && ApplyTrim(library, t, id, start, frames, range).Ok?
    ensures var u := ApplyTrim(library, t, id, start, frames, range).value;
            Good(u) && SameTracks(t, u)
  {
    var i := IndexOf(t.clips, id).value;
    var source := TrimmedSource(library, t.clips[i].source, frames, range).value;
    CheckedGood(t, i, t.clips[i].(start := start, frames := frames, source := source));
  }

  lemma ApplySettingGood(t: Timeline, op: Operation, opId: Id)
    requires Good(t)
    ensures op.SetTransform? && ApplyTransform(t, op.transformed, op.transform).Ok? ==>
              var u := ApplyTransform(t, op.transformed, op.transform).value;
              Good(u) && SameTracks(t, u)
    ensures op.SetAudio? && ApplyAudio(t, op.faded, op.audio).Ok? ==>
              var u := ApplyAudio(t, op.faded, op.audio).value;
              Good(u) && SameTracks(t, u)
    ensures op.SetSpeed? && ApplySpeed(t, op, opId).Ok? ==>
              var u := ApplySpeed(t, op, opId).value.timeline;
              Good(u) && SameTracks(t, u)
  {
    match op
    case SetTransform(id, transform) =>
      var i := IndexOf(t.clips, id);
      if i.Some? { SettingGood(t, i.value, t.clips[i.value].(transform := Some(transform))); }
    case SetAudio(id, audio) =>
      var i := IndexOf(t.clips, id);
      if i.Some? { SettingGood(t, i.value, t.clips[i.value].(audio := Some(audio))); }
    case SetSpeed(id, speed, reverse, policy) =>
      var i := IndexOf(t.clips, id);
      if i.Some? && ApplySpeed(t, op, opId).Ok? {
        SettingGood(t, i.value, ApplySpeed(t, op, opId).value.timeline.clips[i.value]);
      }
    case _ =>
  }

  lemma ApplyTransitionGood(t: Timeline, outgoing: Id, incoming: Id, transition: Option<Transition>)
    requires Good(t) && ApplyTransition(t, outgoing, incoming, transition).Ok?
    ensures var u := ApplyTransition(t, outgoing, incoming, transition).value;
            Good(u) && SameTracks(t, u)
  {
    var u := ApplyTransition(t, outgoing, incoming, transition).value;
    forall x | x in u.transitions
      ensures HasId(u.clips, x.outgoing) && HasId(u.clips, x.incoming)
    {
      Filtered((x: Transition) => x.outgoing != outgoing || x.incoming != incoming, t.transitions, x);
    }
  }

  lemma ApplyCaptionGood(library: Library, t: Timeline, cue: Cue)
    requires Good(t) && ApplyCaption(library, t, cue).Ok?
    ensures var u := ApplyCaption(library, t, cue).value;
            Good(u) && SameTracks(t, u)
  {
    var others := Filter((x: Cue) => x.id != cue.id, t.captions);
    forall i | 0 <= i < |others|
      ensures others[i].start >= 0 && others[i].frames >= 1
    {
      Filtered((x: Cue) => x.id != cue.id, t.captions, others[i]);
    }
  }

  /** The slices an operation makes get new ids. */
  predicate FreshFor(t: Timeline, op: Operation) {
    match op
    case RemoveRange(tracks, range, ripple) => FreshRange(t, tracks, range, ripple)
    case BatchReplace(tracks, range, placements, ripple) => FreshRange(t, tracks, range, ripple)
    case _ => true
  }

  /** Every operation keeps the timeline good. */
  lemma ApplyGood(library: Library, t: Timeline, op: Operation, opId: Id)
    requires Good(t) && FreshFor(t, op) && Apply(library, t, op, opId).Ok?
    ensures var u := Apply(library, t, op, opId).value.timeline;
            Good(u) && SameTracks(t, u)
  {
    match op
    case InsertClip(clip, placement, mode) => ApplyInsertGood(library, t, IdOr(clip, opId, Inserted), placement, mode);
    case RemoveRange(tracks, range, ripple) => ApplyRemoveRangeGood(t, tracks, range, ripple);
    case RemoveOne(id, ripple) => ApplyRemoveOneGood(t, id, ripple);
    case MoveClip(id, track, start) => ApplyMoveGood(t, id, track, start);
    case TrimClip(id, start, frames, range) => ApplyTrimGood(library, t, id, start, frames, range);
    case SplitClip(_, _, _, _) => ApplySplitGood(t, op, opId);
    case RestoreClip(action, from, placement) =>
      ApplyInsertGood(library, t, Derived(opId, Restored(from)), placement, Overwrite);
    case SetTransform(_, _) => ApplySettingGood(t, op, opId);
    case SetAudio(_, _) => ApplySettingGood(t, op, opId);
    case SetSpeed(_, _, _, _) => ApplySettingGood(t, op, opId);
    case SetTransition(outgoing, incoming, transition) => ApplyTransitionGood(t, outgoing, incoming, transition);
    case UpsertCaption(cue) => ApplyCaptionGood(library, t, cue);
    case BatchReplace(tracks, range, placements, ripple) =>
      ApplyRemoveRangeGood(t, tracks, range, ripple);
      InsertAllGood(library, ApplyRemoveRange(t, tracks, range, ripple).value, placements, opId);
  }

  predicate FreshRun(library: Library, t: Timeline, steps: seq<Step>)
    decreases |steps|
  {
    steps == [] ||
    (var n := |steps| - 1;
     var before := Run(library, t, steps[..n]);
     FreshRun(library, t, steps[..n]) && (before.Ok? ==> FreshFor(before.value.timeline, steps[n].operation)))
  }

  /** So does every batch that does not fault. */
  lemma {:induction false} RunGood(library: Library, t: Timeline, steps: seq<Step>)
    requires Good(t) && FreshRun(library, t, steps) && Run(library, t, steps).Ok?
    ensures var u := Run(library, t, steps).value.timeline;
            Good(u) && SameTracks(t, u)
    decreases |steps|
  {
    if steps == [] {
    } else {
      var n := |steps| - 1;
      RunGood(library, t, steps[..n]);
      ApplyGood(library, Run(library, t, steps[..n]).value.timeline, steps[n].operation, steps[n].opId);
    }
  }

  /** What the final check would say about ids, overlaps and transitions' clips is settled before it runs. */
  lemma FinalCheckAgrees(library: Library, t: Timeline, i: nat)
    requires Good(t) && i < |t.clips|
    ensures !SeenBefore(t.clips, i)
    ensures FindTrack(t.tracks, t.clips[i].track).Some? ==> OverlapFault(t, t.clips[i]).None?
    ensures forall x :: x in t.transitions ==> TransitionFault(t, x) != Some(NotFound)
  {
    var c := t.clips[i];
    forall j | 0 <= j < |t.clips| && t.clips[j].track == c.track && t.clips[j].id != c.id && !AudioTrack(t.tracks, c.track)
      ensures !Meets(t.clips[j], c.start, EndOf(c))
    {
      assert ClipsApart(t.clips[j], c);
    }
  }

  lemma {:induction false} NoClipFault(library: Library, t: Timeline, i: nat, n: nat)
    requires i < n <= |t.clips| && ClipFaults(library, t, n).None?
    ensures ClipFault(library, t, i).None?
    decreases n
  {
    if i == n - 1 {
    } else {
      NoClipFault(library, t, i, n - 1);
    }
  }

  lemma {:induction false} NoTransitionFault(t: Timeline, i: nat, n: nat)
    requires i < n <= |t.transitions| && TransitionFaults(t, n).None?
    ensures TransitionFault(t, t.transitions[i]).None?
    decreases n
  {
    if i == n - 1 {
    } else {
      NoTransitionFault(t, i, n - 1);
    }
  }

  lemma CheckedApart(t: Timeline, p: Clip, q: Clip)
    requires p in t.clips && q in t.clips && p.id != q.id && p.track == q.track && !AudioTrack(t.tracks, p.track)
    requires OverlapFault(t, q).None?
    ensures ClipsApart(p, q)
  {
    var i :| 0 <= i < |t.clips| && t.clips[i] == p;
    assert t.clips[i].track == q.track && t.clips[i].id != q.id;
  }

  /** What passes the final check is good, so the next intent starts from a good timeline again. */
  lemma CheckedIsGoodAgain(library: Library, t: Timeline)
    requires ProjectionFault(library, t).None? && CuesOk(t.captions)
    ensures Good(t)
  {
    forall i | 0 <= i < |t.clips|
      ensures !SeenBefore(t.clips, i) && t.clips[i].start >= 0 && OverlapFault(t, t.clips[i]).None?
    {
      NoClipFault(library, t, i, |t.clips|);
    }
    forall x | x in t.transitions
      ensures HasId(t.clips, x.outgoing) && HasId(t.clips, x.incoming)
    {
      var i :| 0 <= i < |t.transitions| && t.transitions[i] == x;
      NoTransitionFault(t, i, |t.transitions|);
    }
    assert DistinctIds(t.clips) by {
      forall i, j | 0 <= i < j < |t.clips|
        ensures t.clips[i].id != t.clips[j].id
      {
        assert !SeenBefore(t.clips, j);
      }
    }
    forall p, q | p in t.clips && q in t.clips && p.id != q.id && p.track == q.track && !AudioTrack(t.tracks, p.track)
      ensures ClipsApart(p, q)
    {
      CheckedApart(t, p, q);
    }
  }
}
