/** The queue object of src/job-queue.ts: each method is one transaction over the rows. */
module JobQueue {
  import opened Wrappers
  import opened Jobs

  datatype QueueFault = Locked | JobNotFound

  /** The token a call presents: the fence given, or else the one the job has. */
  function Presented(s: Store, id: nat, expectedFence: Option<nat>): Token
    requires id < |s.jobs|
  {
    Token(id, if expectedFence.Some? then expectedFence.value else s.jobs[id].fence)
  }

  lemma {:induction false} NothingAllowed(jobs: seq<Job>, o: DequeueOptions, n: nat)
    requires n <= |jobs| && o.allowed.Some? && o.allowed.value - {""} == {}
    ensures FirstCandidate(jobs, o, n) == None
    decreases n
  {
    if n == 0 {
    } else {
      NothingAllowed(jobs, o, n - 1);
    }
  }

  class JobQueue {
    var jobs: seq<Job>
    var views: map<string, ViewStatus>

    function Contents(): Store
      reads this
    {
      Store(jobs, views)
    }

    constructor ()
      ensures Contents() == Store([], map[])
    {
      jobs, views := [], map[];
    }

    method FindDuplicate(o: EnqueueOptions) returns (r: Option<nat>)
      ensures r == LastMatch(jobs, o, |jobs|)
    {
      var i := |jobs|;
      while i > 0
        invariant 0 <= i <= |jobs| && LastMatch(jobs, o, |jobs|) == LastMatch(jobs, o, i)
      {
        i := i - 1;
        if Matches(jobs[i], o) { return Some(i); }
      }
      return None;
    }

    /** While a snapshot of the book is taken nothing is queued. */
    method Enqueue(o: EnqueueOptions, snapshotting: bool, now: int) returns (r: Result<EnqueueResult, QueueFault>)
      modifies this
      ensures r.Err? <==> snapshotting
      ensures r.Err? ==> r.error == Locked && Contents() == old(Contents())
      ensures r.Ok? ==> (Contents(), r.value) == Jobs.Enqueue(old(Contents()), o, now)
    {
      if snapshotting { return Err(Locked); }
      if Refused(jobs, o) {
        var found := FindDuplicate(o);
        if found.None? { return Ok(NoDuplicateFound); }
        r := Ok(Duplicate(found.value));
      } else {
        r := Ok(Inserted(|jobs|));
        jobs := jobs + [NewJob(o, now)];
      }
      if o.artifactId.Some? && o.tracksArtifact {
        views := views[o.artifactId.value := Pending];
      }
    }

    method Dequeue(o: DequeueOptions, now: int) returns (r: Option<Token>)
      modifies this
      ensures (Contents(), r) == Jobs.Dequeue(old(Contents()), o, now)
    {
      if o.allowed.Some? && o.allowed.value - {""} == {} {
        NothingAllowed(jobs, o, |jobs|);
        return None;
      }
      var found: Option<nat> := None;
      for i := 0 to |jobs|
        invariant found == FirstCandidate(jobs, o, i)
      {
        if Candidate(jobs[i], o) && (found.None? || Before(jobs[i], jobs[found.value], o)) {
          found := Some(i);
        }
      }
      if found.None? { return None; }
      var job := jobs[found.value];
      jobs := jobs[found.value := Dequeued(job, o, now)];
      return Some(Token(found.value, job.fence + 1));
    }

    method Heartbeat(t: Token, leaseMs: int, now: int) returns (r: bool)
      modifies `jobs
      ensures (Contents(), r) == Jobs.Heartbeat(old(Contents()), t, leaseMs, now)
    {
      r := t.id < |jobs| && jobs[t.id].state == Running && jobs[t.id].fence == t.fence;
      if r { jobs := jobs[t.id := jobs[t.id].(leaseExpiresAt := Some(now + leaseMs))]; }
    }

    method MarkCompleting(id: nat) returns (r: bool)
      modifies `jobs
      ensures (Contents(), r) == Jobs.MarkCompleting(old(Contents()), id)
    {
      r := id < |jobs| && jobs[id].state == Running;
      if r { jobs := jobs[id := jobs[id].(state := Completing)]; }
    }

    /** Without a fence the caller acts for whoever holds the job now. A job that does not exist is a fault. */
    method Complete(id: nat, result: Option<string>, expectedFence: Option<nat>, now: int) returns (r: Result<bool, QueueFault>)
      modifies this
      ensures r == Err(JobNotFound) <==> id >= |old(jobs)|
      ensures r.Err? ==> Contents() == old(Contents()) && r.error == JobNotFound
      ensures r.Ok? ==> (Contents(), r.value) == Jobs.Complete(old(Contents()), Presented(old(Contents()), id, expectedFence), result, now)
    {
      if id >= |jobs| { return Err(JobNotFound); }
      var job := jobs[id];
      var fence := if expectedFence.Some? then expectedFence.value else job.fence;
      if !(job.Leased() && job.fence == fence) { return Ok(false); }
      jobs := jobs[id := Completed(job, result, now)];
      views := SetView(views, job.artifactId, Ready);
      return Ok(true);
    }

    method Fail(id: nat, o: FailOptions, expectedFence: Option<nat>, now: int) returns (r: Result<bool, QueueFault>)
      modifies this
      ensures r == Err(JobNotFound) <==> id >= |old(jobs)|
      ensures r.Err? ==> Contents() == old(Contents()) && r.error == JobNotFound
      ensures r.Ok? ==> (Contents(), r.value) == Jobs.Fail(old(Contents()), Presented(old(Contents()), id, expectedFence), o, now)
    {
      if id >= |jobs| { return Err(JobNotFound); }
      var job := jobs[id];
      var fence := if expectedFence.Some? then expectedFence.value else job.fence;
      if !(job.Leased() && job.fence == fence) { return Ok(false); }
      jobs := jobs[id := FailedJob(job, o, now)];
      if !Retries(job, o) && !o.preserveArtifactState {
        views := SetView(views, job.artifactId, Error(o.error));
      }
      return Ok(true);
    }

    method Abort(id: nat, reason: string, now: int) returns (r: bool)
      modifies `jobs
      ensures (Contents(), r) == Jobs.Abort(old(Contents()), id, reason, now)
    {
      r := id < |jobs| && jobs[id].Active();
      if r { jobs := jobs[id := AbortedJob(jobs[id], reason, now)]; }
    }

    /** Aborts every unfinished job of an artifact, one transaction each, and lists them. */
    method AbortArtifact(artifactId: string, reason: string, now: int) returns (terminal: seq<nat>)
      modifies `jobs
      ensures |jobs| == |old(jobs)|
      ensures forall i :: 0 <= i < |jobs| ==>
                jobs[i] == if old(jobs)[i].artifactId == Some(artifactId) then AbortedJob(old(jobs)[i], reason, now) else old(jobs)[i]
      ensures forall i :: i in terminal <==> 0 <= i < |jobs| && old(jobs)[i].artifactId == Some(artifactId) && old(jobs)[i].Active()
    {
      terminal := [];
      for i := 0 to |jobs|
        invariant |jobs| == |old(jobs)|
        invariant forall j :: i <= j < |jobs| ==> jobs[j] == old(jobs)[j]
        invariant forall j :: 0 <= j < i ==>
                    jobs[j] == if old(jobs)[j].artifactId == Some(artifactId) then AbortedJob(old(jobs)[j], reason, now) else old(jobs)[j]
        invariant forall j :: j in terminal <==> 0 <= j < i && old(jobs)[j].artifactId == Some(artifactId) && old(jobs)[j].Active()
      {
        if jobs[i].artifactId == Some(artifactId) && jobs[i].Active() {
          var changed := Abort(i, reason, now);
          terminal := terminal + [i];
        }
      }
    }

    method Reap(now: int) returns (requeued: nat, failed: nat)
      modifies `jobs
      ensures Contents() == Jobs.Reap(old(Contents()), now)
      ensures (requeued, failed) == ReapCounts(old(jobs), now, |old(jobs)|)
    {
      requeued, failed := 0, 0;
      for i := 0 to |jobs|
        invariant |jobs| == |old(jobs)|
        invariant forall j :: i <= j < |jobs| ==> jobs[j] == old(jobs)[j]
        invariant forall j :: 0 <= j < i ==> jobs[j] == ReapedJob(old(jobs)[j], now)
        invariant (requeued, failed) == ReapCounts(old(jobs), now, i)
      {
        var job := jobs[i];
        if Expired(job, now) {
          if job.attempts < job.maxAttempts {
            jobs := jobs[i := job.(state := Queued, pid := None, leaseExpiresAt := None, fence := job.fence + 1)];
            requeued := requeued + 1;
          } else {
            jobs := jobs[i := job.(state := Failed, pid := None, leaseExpiresAt := None, finishedAt := Some(now),
                                   error := Some(LEASE_EXPIRED), fence := job.fence + 1)];
            failed := failed + 1;
          }
        }
      }
      assert jobs == Jobs.Reap(old(Contents()), now).jobs;
    }
  }
}
