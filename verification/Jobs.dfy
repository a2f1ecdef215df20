/**
 Rows of runtime_jobs and what each queue operation does to them (src/job-queue.ts,
 src/schema.ts). Ids are positions: rows are only ever appended, and numbered in that order.
 */
module Jobs {
  import opened Wrappers

  datatype JobState = Queued | Running | Completing | Done | Failed | Aborted

  datatype Job = Job(
    jobType: string, artifactId: Option<string>, externalTaskId: Option<string>, payload: string, dedupeKey: Option<string>,
    state: JobState, enqueuedAt: int, startedAt: Option<int>, finishedAt: Option<int>,
    pid: Option<int>, leaseExpiresAt: Option<int>, attempts: nat, maxAttempts: nat,
    result: Option<string>, error: Option<string>, fence: nat)
  {
    /** Held by a worker. */
    predicate Leased() {
      state == Running || state == Completing
    }

    /** Not finished: the states over which a dedupe key is unique. */
    predicate Active() {
      state == Queued || Leased()
    }
  }

  datatype ViewStatus = Pending | Ready | Error(message: string)

  datatype Store = Store(jobs: seq<Job>, views: map<string, ViewStatus>)

  // ----- enqueue

  /** `dedupeKey` is None when the caller gave none; then the canonical text of the request is the key. */
  datatype EnqueueOptions = EnqueueOptions(
    jobType: string, artifactId: Option<string>, externalTaskId: Option<string>, payload: string,
    maxAttempts: Option<int>, dedupeKey: Option<Option<string>>, canonicalKey: string, startRunning: bool, tracksArtifact: bool)

  datatype EnqueueResult = Inserted(id: nat) | Duplicate(id: nat) | NoDuplicateFound

  function KeyOf(o: EnqueueOptions): Option<string> {
    if o.dedupeKey.None? then Some(o.canonicalKey) else o.dedupeKey.value
  }

  function Limit(o: EnqueueOptions): nat {
    if o.maxAttempts.Some? && o.maxAttempts.value > 1 then o.maxAttempts.value else 1
  }

  function NewJob(o: EnqueueOptions, now: int): Job {
    Job(o.jobType, o.artifactId, o.externalTaskId, o.payload, KeyOf(o),
        if o.startRunning then Running else Queued, now, if o.startRunning then Some(now) else None, None,
        None, None, if o.startRunning then 1 else 0, Limit(o), None, None, 0)
  }

  predicate SameKey(job: Job, key: Option<string>) {
    key.Some? && job.dedupeKey == key && job.Active()
  }

  predicate SameTask(job: Job, jobType: string, externalTaskId: Option<string>) {
    externalTaskId.Some? && job.jobType == jobType && job.externalTaskId == externalTaskId
  }

  /** The two unique indexes refuse the row. */
  predicate Refused(jobs: seq<Job>, o: EnqueueOptions) {
    exists i :: 0 <= i < |jobs| && (SameKey(jobs[i], KeyOf(o)) || SameTask(jobs[i], o.jobType, o.externalTaskId))
  }

  predicate Matches(job: Job, o: EnqueueOptions) {
    if o.externalTaskId.Some? && o.externalTaskId.value != ""
    then SameTask(job, o.jobType, o.externalTaskId) else SameKey(job, KeyOf(o))
  }

  /** ORDER BY id DESC LIMIT 1 */
  function LastMatch(jobs: seq<Job>, o: EnqueueOptions, n: nat): Option<nat>
    requires n <= |jobs|
  {
    if n == 0 then None else if Matches(jobs[n - 1], o) then Some(n - 1) else LastMatch(jobs, o, n - 1)
  }

  function Enqueue(s: Store, o: EnqueueOptions, now: int): (Store, EnqueueResult) {
    var views := if o.artifactId.Some? && o.tracksArtifact then s.views[o.artifactId.value := Pending] else s.views;
    if !Refused(s.jobs, o) then (Store(s.jobs + [NewJob(o, now)], views), Inserted(|s.jobs|))
    else
      var found := LastMatch(s.jobs, o, |s.jobs|);
      if found.Some? then (s.(views := views), Duplicate(found.value)) else (s, NoDuplicateFound)
  }

  // ----- dequeue

  datatype DequeueOptions = DequeueOptions(pid: int, leaseMs: int, preferred: set<string>, allowed: Option<set<string>>)

  /** What a worker is given: the job and the fence it must present. */
  datatype Token = Token(id: nat, fence: nat)

  predicate Candidate(job: Job, o: DequeueOptions) {
    job.state == Queued && (o.allowed.Some? ==> job.jobType in o.allowed.value - {""})
  }

  /** ORDER BY preferred first, enqueued_at; among equals the lower id stays ahead. */
  predicate Before(a: Job, b: Job, o: DequeueOptions) {
    var p, q := a.jobType in o.preferred - {""}, b.jobType in o.preferred - {""};
    (p && !q) || (p == q && a.enqueuedAt < b.enqueuedAt)
  }

  /** The candidate the query ranks first among the first n rows. */
  function FirstCandidate(jobs: seq<Job>, o: DequeueOptions, n: nat): (r: Option<nat>)
    requires n <= |jobs|
    ensures r.Some? ==> r.value < n && Candidate(jobs[r.value], o)
  {
    if n == 0 then None
    else
      var best := FirstCandidate(jobs, o, n - 1);
      if Candidate(jobs[n - 1], o) && (best.None? || Before(jobs[n - 1], jobs[best.value], o)) then Some(n - 1) else best
  }

  function Dequeued(job: Job, o: DequeueOptions, now: int): Job {
    job.(state := Running, startedAt := if job.startedAt.Some? then job.startedAt else Some(now),
         pid := Some(o.pid), leaseExpiresAt := Some(now + o.leaseMs), attempts := job.attempts + 1, fence := job.fence + 1)
  }

  function Dequeue(s: Store, o: DequeueOptions, now: int): (Store, Option<Token>) {
    var found := FirstCandidate(s.jobs, o, |s.jobs|);
    if found.None? then (s, None)
    else
      var job := Dequeued(s.jobs[found.value], o, now);
      (s.(jobs := s.jobs[found.value := job]), Some(Token(found.value, job.fence)))
  }

  // ----- the holder's operations

  function Heartbeat(s: Store, t: Token, leaseMs: int, now: int): (Store, bool) {
    if t.id < |s.jobs| && s.jobs[t.id].state == Running && s.jobs[t.id].fence == t.fence
    then (s.(jobs := s.jobs[t.id := s.jobs[t.id].(leaseExpiresAt := Some(now + leaseMs))]), true)
    else (s, false)
  }

  function MarkCompleting(s: Store, id: nat): (Store, bool) {
    if id < |s.jobs| && s.jobs[id].state == Running
    then (s.(jobs := s.jobs[id := s.jobs[id].(state := Completing)]), true)
    else (s, false)
  }

  predicate Holds(s: Store, t: Token) {
    t.id < |s.jobs| && s.jobs[t.id].Leased() && s.jobs[t.id].fence == t.fence
  }

  /** UPDATE runtime_artifact_views ... WHERE artifact_id=?, which only touches an existing view. */
  function SetView(views: map<string, ViewStatus>, artifactId: Option<string>, status: ViewStatus): map<string, ViewStatus> {
    if artifactId.Some? && artifactId.value in views then views[artifactId.value := status] else views
  }

  function Completed(job: Job, result: Option<string>, now: int): Job {
    job.(state := Done, result := result, error := None, finishedAt := Some(now), leaseExpiresAt := None, pid := None)
  }

  function Complete(s: Store, t: Token, result: Option<string>, now: int): (Store, bool) {
    if !Holds(s, t) then (s, false)
    else
      var job := s.jobs[t.id];
      (Store(s.jobs[t.id := Completed(job, result, now)], SetView(s.views, job.artifactId, Ready)), true)
  }

  datatype FailOptions = FailOptions(error: string, allowRetry: bool, preserveArtifactState: bool)

  predicate Retries(job: Job, o: FailOptions) {
    o.allowRetry && job.attempts < job.maxAttempts
  }

  function FailedJob(job: Job, o: FailOptions, now: int): Job {
    job.(state := if Retries(job, o) then Queued else Failed, error := Some(o.error),
         finishedAt := if Retries(job, o) then None else Some(now), leaseExpiresAt := None, pid := None)
  }

  function Fail(s: Store, t: Token, o: FailOptions, now: int): (Store, bool) {
    if !Holds(s, t) then (s, false)
    else
      var job := s.jobs[t.id];
      var views := if Retries(job, o) || o.preserveArtifactState then s.views else SetView(s.views, job.artifactId, Error(o.error));
      (Store(s.jobs[t.id := FailedJob(job, o, now)], views), true)
  }

  // ----- abort and reap

  function AbortedJob(job: Job, reason: string, now: int): Job {
    if !job.Active() then job
    else job.(state := Aborted, error := Some(reason), finishedAt := Some(now), leaseExpiresAt := None, pid := None, fence := job.fence + 1)
  }

  function Abort(s: Store, id: nat, reason: string, now: int): (Store, bool) {
    if id < |s.jobs| && s.jobs[id].Active()
    then (s.(jobs := s.jobs[id := AbortedJob(s.jobs[id], reason, now)]), true)
    else (s, false)
  }

  predicate Expired(job: Job, now: int) {
    job.Leased() && job.leaseExpiresAt.Some? && job.leaseExpiresAt.value < now
  }

  const LEASE_EXPIRED := "Job lease expired"

  function ReapedJob(job: Job, now: int): Job {
    if !Expired(job, now) then job
    else if job.attempts < job.maxAttempts then
      job.(state := Queued, pid := None, leaseExpiresAt := None, fence := job.fence + 1)
    else
      job.(state := Failed, pid := None, leaseExpiresAt := None, finishedAt := Some(now), error := Some(LEASE_EXPIRED), fence := job.fence + 1)
  }

  function Reap(s: Store, now: int): (r: Store)
    ensures |r.jobs| == |s.jobs| && r.views == s.views
    ensures forall i :: 0 <= i < |s.jobs| ==> r.jobs[i] == ReapedJob(s.jobs[i], now)
  {
    s.(jobs := seq(|s.jobs|, i requires 0 <= i < |s.jobs| => ReapedJob(s.jobs[i], now)))
  }

  /** How many of the first n rows the reaper puts back, and how many it fails. */
  function ReapCounts(jobs: seq<Job>, now: int, n: nat): (nat, nat)
    requires n <= |jobs|
  {
    if n == 0 then (0, 0)
    else
      var (requeued, failed) := ReapCounts(jobs, now, n - 1);
      if !Expired(jobs[n - 1], now) then (requeued, failed)
      else if jobs[n - 1].attempts < jobs[n - 1].maxAttempts then (requeued + 1, failed)
      else (requeued, failed + 1)
  }
}
