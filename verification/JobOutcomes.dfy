/**
 What the rows and views of the queue say, told from the history alone: every column of a job is
 a function of the successful calls about that job, in the order they came.
 */
module JobOutcomes {
  import opened Wrappers
  import opened Jobs
  import opened JobRuns
  import opened JobQueue

  // ----- the history of one job

  /** What a step did to a job, as its caller sees it. */
  datatype Deed =
    | Entered(options: EnqueueOptions, at: int)
    | HandedOut(worker: int, until: int, at: int)
    | Prolonged(until: int)
    | Marked
    | Finished(result: Option<string>, at: int)
    | GaveUp(error: string, mayRetry: bool, at: int)
    | Stopped(reason: string, at: int)
    | TakenBack(at: int)

  function DeedOf(s: Store, e: Event, id: nat): Option<Deed> {
    match e
    case EnqueueEvent(o, now) => if Enqueue(s, o, now).1 == Inserted(id) then Some(Entered(o, now)) else None
    case DequeueEvent(o, now) =>
      var t := Dequeue(s, o, now).1;
      if t.Some? && t.value.id == id then Some(HandedOut(o.pid, now + o.leaseMs, now)) else None
    case HeartbeatEvent(t, leaseMs, now) => if t.id == id && Heartbeat(s, t, leaseMs, now).1 then Some(Prolonged(now + leaseMs)) else None
    case MarkCompletingEvent(i) => if i == id && MarkCompleting(s, i).1 then Some(Marked) else None
    case CompleteEvent(t, result, now) => if Releases(s, e, id) then Some(Finished(result, now)) else None
    case FailEvent(t, o, now) => if Releases(s, e, id) then Some(GaveUp(o.error, o.allowRetry, now)) else None
    case AbortEvent(i, reason, now) => if Releases(s, e, id) then Some(Stopped(reason, now)) else None
    case ReapEvent(now) => if Releases(s, e, id) then Some(TakenBack(now)) else None
  }

  function Deeds(events: seq<Event>, id: nat): seq<Deed> {
    if events == [] then []
    else
      var before, e := events[..|events| - 1], events[|events| - 1];
      var deed := DeedOf(Run(before), e, id);
      if deed.Some? then Deeds(before, id) + [deed.value] else Deeds(before, id)
  }

  // ----- what a history tells

  type History = d: seq<Deed> | d != [] && d[0].Entered? witness [Entered(EnqueueOptions("", None, None, "", None, None, "", false, false), 0)]

  function Last(d: History): Deed {
    d[|d| - 1]
  }

  function Front(d: History): History
    requires |d| > 1
  {
    d[..|d| - 1]
  }

  /** As many attempts as were asked for, if that is at least one; else one. */
  function AttemptsAllowed(d: History): nat {
    match d[0].options.maxAttempts
    case Some(n) => if 1 <= n then n else 1
    case None => 1
  }

  function TimesHandedOut(d: History): nat {
    var before := if |d| > 1 then TimesHandedOut(Front(d)) else 0;
    if Last(d).HandedOut? || (Last(d).Entered? && Last(d).options.startRunning) then before + 1 else before
  }

  predicate AttemptsLeft(d: History) {
    TimesHandedOut(d) < AttemptsAllowed(d)
  }

  /** What the last deed left the job as. */
  function StateTold(d: History): JobState {
    match Last(d)
    case Entered(o, _) => if o.startRunning then Running else Queued
    case HandedOut(_, _, _) => Running
    case Prolonged(_) => Running
    case Marked => Completing
    case Finished(_, _) => Done
    case GaveUp(_, mayRetry, _) => if mayRetry && AttemptsLeft(d) then Queued else Failed
    case Stopped(_, _) => Aborted
    case TakenBack(_) => if AttemptsLeft(d) then Queued else Failed
  }

  predicate Over(d: History) {
    StateTold(d) in {Done, Failed, Aborted}
  }

  function WorkerTold(d: History): Option<int> {
    match Last(d)
    case HandedOut(worker, _, _) => Some(worker)
    case Prolonged(_) => if |d| > 1 then WorkerTold(Front(d)) else None
    case Marked => if |d| > 1 then WorkerTold(Front(d)) else None
    case _ => None
  }

  function LeaseTold(d: History): Option<int> {
    match Last(d)
    case HandedOut(_, until, _) => Some(until)
    case Prolonged(until) => Some(until)
    case Marked => if |d| > 1 then LeaseTold(Front(d)) else None
    case _ => None
  }

  function StartTold(d: History): Option<int> {
    var before := if |d| > 1 then StartTold(Front(d)) else None;
    if before.Some? then before
    else if Last(d).HandedOut? || (Last(d).Entered? && Last(d).options.startRunning) then Some(Last(d).at)
    else None
  }

  /** The last complaint about the job, forgotten when it is finished. A job put back by the reaper keeps the one it had. */
  function ErrorTold(d: History): Option<string> {
    match Last(d)
    case Finished(_, _) => None
    case GaveUp(error, _, _) => Some(error)
    case Stopped(reason, _) => Some(reason)
    case TakenBack(_) => if !AttemptsLeft(d) then Some("Job lease expired") else if |d| > 1 then ErrorTold(Front(d)) else None
    case _ => if |d| > 1 then ErrorTold(Front(d)) else None
  }

  /** Handing out, aborting and reaping each raise the fence. */
  function FenceTold(d: History): nat {
    var before := if |d| > 1 then FenceTold(Front(d)) else 0;
    if Last(d).HandedOut? || Last(d).Stopped? || Last(d).TakenBack? then before + 1 else before
  }

  function RowTold(d: History): Job {
    var o := d[0].options;
    Job(o.jobType, o.artifactId, o.externalTaskId, o.payload,
        match o.dedupeKey case Some(given) => given case None => Some(o.canonicalKey),
        StateTold(d), d[0].at, StartTold(d), if Over(d) then Some(Last(d).at) else None,
        WorkerTold(d), LeaseTold(d), TimesHandedOut(d), AttemptsAllowed(d),
        if Last(d).Finished? then Last(d).result else None, ErrorTold(d), FenceTold(d))
  }

  predicate Tells(d: seq<Deed>, s: Store, id: nat) {
    if id < |s.jobs| then d != [] && d[0].Entered? && s.jobs[id] == RowTold(d) else d == []
  }

  function With(d: seq<Deed>, deed: Option<Deed>): seq<Deed> {
    if deed.Some? then d + [deed.value] else d
  }

  lemma OneMoreDeed(d: History, deed: Deed)
    ensures var more := d + [deed];
            |more| > 1 && more[0] == d[0] && Last(more) == deed && Front(more) == d
  {
  }

  lemma EnqueueTells(d: seq<Deed>, s: Store, e: Event, id: nat)
    requires Tells(d, s, id) && e.EnqueueEvent?
    ensures Tells(With(d, DeedOf(s, e, id)), Step(s, e), id)
  {
  }

  lemma HandOutTells(d: seq<Deed>, s: Store, e: Event, id: nat)
    requires Tells(d, s, id) && e.DequeueEvent?
    ensures Tells(With(d, DeedOf(s, e, id)), Step(s, e), id)
  {
    if DeedOf(s, e, id).Some? { OneMoreDeed(d, DeedOf(s, e, id).value); }
  }

  lemma HolderTells(d: seq<Deed>, s: Store, e: Event, id: nat)
    requires Tells(d, s, id) && (e.HeartbeatEvent? || e.MarkCompletingEvent?)
    ensures Tells(With(d, DeedOf(s, e, id)), Step(s, e), id)
  {
    if DeedOf(s, e, id).Some? { OneMoreDeed(d, DeedOf(s, e, id).value); }
  }

  lemma FinishTells(d: seq<Deed>, s: Store, e: Event, id: nat)
    requires Tells(d, s, id) && (e.CompleteEvent? || e.FailEvent?)
    ensures Tells(With(d, DeedOf(s, e, id)), Step(s, e), id)
  {
    if DeedOf(s, e, id).Some? { OneMoreDeed(d, DeedOf(s, e, id).value); }
  }

  lemma EndTells(d: seq<Deed>, s: Store, e: Event, id: nat)
    requires Tells(d, s, id) && (e.AbortEvent? || e.ReapEvent?)
    ensures Tells(With(d, DeedOf(s, e, id)), Step(s, e), id)
  {
    if DeedOf(s, e, id).Some? { OneMoreDeed(d, DeedOf(s, e, id).value); }
  }

  lemma StepTells(d: seq<Deed>, s: Store, e: Event, id: nat)
    requires Tells(d, s, id)
    ensures Tells(With(d, DeedOf(s, e, id)), Step(s, e), id)
  {
    hide *;
    match e
    case EnqueueEvent(_, _) => EnqueueTells(d, s, e, id);
    case DequeueEvent(_, _) => HandOutTells(d, s, e, id);
    case HeartbeatEvent(_, _, _) => HolderTells(d, s, e, id);
    case MarkCompletingEvent(_) => HolderTells(d, s, e, id);
    case CompleteEvent(_, _, _) => FinishTells(d, s, e, id);
    case FailEvent(_, _, _) => FinishTells(d, s, e, id);
    case AbortEvent(_, _, _) => EndTells(d, s, e, id);
    case ReapEvent(_) => EndTells(d, s, e, id);
  }

  /** In every run every column of every row is what the history of that job tells. */
  lemma {:induction false} RowIsTold(events: seq<Event>, id: nat)
    ensures Tells(Deeds(events, id), Run(events), id)
    decreases |events|
  {
    if events == [] {
    } else {
      RowIsTold(events[..|events| - 1], id);
      StepTells(Deeds(events[..|events| - 1], id), Run(events[..|events| - 1]), events[|events| - 1], id);
    }
  }

  /**
   How a job ended up, said by its last deed alone: done with a result exactly when a call completed
   it with that result; failed with an error exactly when a call gave it up with that error and
   without a retry, or the reaper found no attempts left; waiting again exactly when it was given up
   for a retry or reaped, with attempts left; aborted exactly when a call aborted it.
   */
  predicate EndedBy(job: Job, last: Deed, left: bool, result: Option<string>, text: string) {
    && (job.state == Done && job.result == result <==> last.Finished? && last.result == result)
    && (job.state == Failed && job.error == Some(text) <==>
          || (last.GaveUp? && last.error == text && !(last.mayRetry && left))
          || (last.TakenBack? && text == "Job lease expired" && !left))
    && (job.state == Queued <==>
          || (last.Entered? && !last.options.startRunning)
          || (last.GaveUp? && last.mayRetry && left)
          || (last.TakenBack? && left))
    && (job.state == Aborted && job.error == Some(text) <==> last.Stopped? && last.reason == text)
    && (job.finishedAt.Some? <==> job.state in {Done, Failed, Aborted})
    && (job.finishedAt.Some? ==> !last.Prolonged? && !last.Marked? && job.finishedAt == Some(last.at))
  }

  lemma RowEndedBy(d: History, result: Option<string>, text: string)
    ensures EndedBy(RowTold(d), Last(d), AttemptsLeft(d), result, text)
  {
  }

  /** In every run every row is what its last deed and the attempts left say, these being the tokens not yet handed out. */
  lemma OutcomeTold(events: seq<Event>, id: nat, result: Option<string>, text: string)
    requires id < |Run(events).jobs|
    ensures Deeds(events, id) != [] && Deeds(events, id)[0].Entered?
    ensures var d := Deeds(events, id);
            EndedBy(Run(events).jobs[id], Last(d), TimesIssued(events, id) < AttemptsAllowed(d), result, text)
  {
    hide Run, Deeds, StateTold, StartTold, WorkerTold, LeaseTold, ErrorTold, FenceTold, TimesHandedOut, TimesIssued, EndedBy;
    RowIsTold(events, id);
    AttemptsCountTokens(events, id);
    RowEndedBy(Deeds(events, id), result, text);
  }

  /** A step that is not about a job leaves its row as it is; only the reaper is about more than one. */
  lemma OthersUntouched(s: Store, e: Event, i: nat, j: nat)
    ensures i < |s.jobs| && DeedOf(s, e, i).None? ==> i < |Step(s, e).jobs| && Step(s, e).jobs[i] == s.jobs[i]
    ensures DeedOf(s, e, i).Some? && DeedOf(s, e, j).Some? && i != j ==> e.ReapEvent?
  {
  }

  // ----- the views of artifacts

  /** The artifact a job was enqueued for. */
  function ArtifactTold(d: seq<Deed>): Option<string> {
    if d != [] && d[0].Entered? then d[0].options.artifactId else None
  }

  /** The status an enqueue, a completion or a failure gives the artifact's view. */
  function StatusGiven(events: seq<Event>, e: Event, artifact: string): Option<ViewStatus> {
    var s := Run(events);
    match e
    case EnqueueEvent(o, now) =>
      if o.artifactId == Some(artifact) && o.tracksArtifact && !Enqueue(s, o, now).1.NoDuplicateFound? then Some(Pending) else None
    case CompleteEvent(t, result, now) =>
      if Releases(s, e, t.id) && ArtifactTold(Deeds(events, t.id)) == Some(artifact) then Some(Ready) else None
    case FailEvent(t, o, now) =>
      var d := Deeds(events, t.id);
      if Releases(s, e, t.id) && ArtifactTold(d) == Some(artifact) && !o.preserveArtifactState && !(o.allowRetry && AttemptsLeft(d))
      then Some(Error(o.error)) else None
    case _ => None
  }

  /** Only an enqueue makes a view; the others change one that is there. */
  function ViewTold(events: seq<Event>, artifact: string): Option<ViewStatus> {
    if events == [] then None
    else
      var before, e := events[..|events| - 1], events[|events| - 1];
      var given := StatusGiven(before, e, artifact);
      if given.Some? && (e.EnqueueEvent? || ViewTold(before, artifact).Some?) then given else ViewTold(before, artifact)
  }

  function StoredView(s: Store, artifact: string): Option<ViewStatus> {
    if artifact in s.views then Some(s.views[artifact]) else None
  }

  lemma ViewStep(events: seq<Event>, e: Event, artifact: string)
    ensures var given, view := StatusGiven(events, e, artifact), StoredView(Run(events), artifact);
            StoredView(Step(Run(events), e), artifact) == if given.Some? && (e.EnqueueEvent? || view.Some?) then given else view
  {
    hide Run, Deeds, StateTold, StartTold, WorkerTold, LeaseTold, ErrorTold, FenceTold;
    if e.CompleteEvent? || e.FailEvent? { RowIsTold(events, e.token.id); }
  }

  lemma {:induction false} ViewIsTold(events: seq<Event>, artifact: string)
    ensures ViewTold(events, artifact) == StoredView(Run(events), artifact)
    decreases |events|
  {
    if events == [] {
    } else {
      ViewIsTold(events[..|events| - 1], artifact);
      ViewStep(events[..|events| - 1], events[|events| - 1], artifact);
    }
  }

  // ----- answers

  /** An unfinished job holds the key the request gives, or else its canonical text; a null key is nobody's. */
  predicate SharesKey(job: Job, o: EnqueueOptions) {
    && job.state in {Queued, Running, Completing}
    && job.dedupeKey.Some?
    && match o.dedupeKey
       case Some(given) => job.dedupeKey == given
       case None => job.dedupeKey.value == o.canonicalKey
  }

  /** The job, finished or not, is for the same external task. */
  predicate SharesTask(job: Job, o: EnqueueOptions) {
    job.jobType == o.jobType && job.externalTaskId.Some? && job.externalTaskId == o.externalTaskId
  }

  /** What a refused request is said to repeat: an empty external id is looked up by key. */
  predicate Repeats(job: Job, o: EnqueueOptions) {
    match o.externalTaskId
    case Some(task) => if task == "" then SharesKey(job, o) else SharesTask(job, o)
    case None => SharesKey(job, o)
  }

  lemma SharingIsRefused(jobs: seq<Job>, o: EnqueueOptions)
    ensures Refused(jobs, o) <==> exists i :: 0 <= i < |jobs| && (SharesKey(jobs[i], o) || SharesTask(jobs[i], o))
  {
    forall i | 0 <= i < |jobs|
      ensures SharesKey(jobs[i], o) || SharesTask(jobs[i], o) <==>
                SameKey(jobs[i], KeyOf(o)) || SameTask(jobs[i], o.jobType, o.externalTaskId)
    {
    }
  }

  lemma {:induction false} LastRepeat(jobs: seq<Job>, o: EnqueueOptions, n: nat)
    requires n <= |jobs|
    ensures var r := LastMatch(jobs, o, n);
            && (r.Some? ==> r.value < n && Repeats(jobs[r.value], o) && forall i :: r.value < i < n ==> !Repeats(jobs[i], o))
            && (r.None? ==> forall i :: 0 <= i < n ==> !Repeats(jobs[i], o))
  {
    if n == 0 {
    } else {
      LastRepeat(jobs, o, n - 1);
    }
  }

  /**
   A row is inserted exactly when no unfinished job has the key and no job at all is for the same
   external task; else the answer is the last row the request repeats, or a fault if there is none.
   */
  lemma EnqueueMeans(s: Store, o: EnqueueOptions, now: int)
    ensures var (after, r) := Enqueue(s, o, now);
            && (r.Inserted? <==> forall i :: 0 <= i < |s.jobs| ==> !SharesKey(s.jobs[i], o) && !SharesTask(s.jobs[i], o))
            && (if r.Inserted? then r.id == |s.jobs| && |after.jobs| == r.id + 1 && after.jobs[..r.id] == s.jobs else after.jobs == s.jobs)
            && (r.Duplicate? ==> r.id < |s.jobs| && Repeats(s.jobs[r.id], o) && forall i :: r.id < i < |s.jobs| ==> !Repeats(s.jobs[i], o))
            && (r.NoDuplicateFound? ==> after == s && forall i :: 0 <= i < |s.jobs| ==> !Repeats(s.jobs[i], o))
  {
    SharingIsRefused(s.jobs, o);
    LastRepeat(s.jobs, o, |s.jobs|);
  }

  /** The job waits, and is of a type asked for; the empty type is nobody's. */
  predicate Eligible(job: Job, o: DequeueOptions) {
    job.state == Queued && (o.allowed.None? || (job.jobType != "" && job.jobType in o.allowed.value))
  }

  /** Job i goes before job j: by preference, then by time, then by id. */
  predicate GoesBefore(jobs: seq<Job>, o: DequeueOptions, i: nat, j: nat)
    requires i < |jobs| && j < |jobs|
  {
    var liked := set x | x in o.preferred && x != "";
    if (jobs[i].jobType in liked) != (jobs[j].jobType in liked) then jobs[i].jobType in liked
    else if jobs[i].enqueuedAt != jobs[j].enqueuedAt then jobs[i].enqueuedAt < jobs[j].enqueuedAt
    else i < j
  }

  /** Nothing is handed out exactly when no job is eligible; else the eligible job that goes before all others, with its next fence. */
  lemma DequeueMeans(s: Store, o: DequeueOptions, now: int)
    ensures var (after, r) := Dequeue(s, o, now);
            && (r.None? <==> forall i :: 0 <= i < |s.jobs| ==> !Eligible(s.jobs[i], o))
            && (r.None? ==> after == s)
            && (r.Some? ==>
                  && r.value.id < |s.jobs| && Eligible(s.jobs[r.value.id], o) && r.value.fence == s.jobs[r.value.id].fence + 1
                  && forall i :: 0 <= i < |s.jobs| && Eligible(s.jobs[i], o) && i != r.value.id ==> GoesBefore(s.jobs, o, r.value.id, i))
  {
    FirstCandidateIsFirst(s.jobs, o, |s.jobs|);
    forall i | 0 <= i < |s.jobs|
      ensures Candidate(s.jobs[i], o) <==> Eligible(s.jobs[i], o)
    {
    }
  }

  /** In every run only a held job not yet marked can be marked, and exactly the jobs not over can be aborted. */
  lemma AnswersTold(events: seq<Event>, id: nat, reason: string, now: int)
    ensures MarkCompleting(Run(events), id).1 <==> Holder(events, id).Some? && !MarkedSince(events, id)
    ensures Abort(Run(events), id, reason, now).1 <==>
              Deeds(events, id) != [] && Deeds(events, id)[0].Entered? && !Over(Deeds(events, id))
  {
    HolderIsLeased(events, id);
    MarkedIsCompleting(events, id);
    RowIsTold(events, id);
  }

  /** Without a fence a call acts for whoever holds the job; with one, for that holder alone. */
  lemma FenceIsOptional(events: seq<Event>, id: nat, fence: Option<nat>, result: Option<string>, o: FailOptions, now: int)
    requires id < |Run(events).jobs|
    ensures var s, holder := Run(events), Holder(events, id);
            var holds := holder.Some? && (fence.Some? ==> fence == holder);
            && Complete(s, Presented(s, id, fence), result, now).1 == holds
            && Fail(s, Presented(s, id, fence), o, now).1 == holds
  {
    HolderIsLeased(events, id);
  }

  /** The held jobs among the first n that end in a state. */
  function ReapedTo(jobs: seq<Job>, after: seq<Job>, n: nat, state: JobState): set<int>
    requires n <= |jobs| == |after|
  {
    set i | 0 <= i < n && jobs[i].Leased() && after[i].state == state
  }

  lemma OneMoreReaped(jobs: seq<Job>, after: seq<Job>, n: nat, state: JobState)
    requires n < |jobs| == |after|
    ensures |ReapedTo(jobs, after, n + 1, state)| ==
              |ReapedTo(jobs, after, n, state)| + if jobs[n].Leased() && after[n].state == state then 1 else 0
  {
    var more := if jobs[n].Leased() && after[n].state == state then {n as int} else {};
    assert ReapedTo(jobs, after, n + 1, state) == ReapedTo(jobs, after, n, state) + more;
  }

  lemma {:induction false} ReapedOnesCounted(jobs: seq<Job>, after: seq<Job>, now: int, n: nat)
    requires n <= |jobs| == |after| && forall i :: 0 <= i < |jobs| ==> after[i] == ReapedJob(jobs[i], now)
    ensures ReapCounts(jobs, now, n) == (|ReapedTo(jobs, after, n, Queued)|, |ReapedTo(jobs, after, n, Failed)|)
  {
    if n == 0 {
      assert ReapedTo(jobs, after, n, Queued) == ReapedTo(jobs, after, n, Failed) == {};
    } else {
      hide ReapedTo;
      ReapedOnesCounted(jobs, after, now, n - 1);
      OneMoreReaped(jobs, after, n - 1, Queued);
      OneMoreReaped(jobs, after, n - 1, Failed);
      assert after[n - 1] == ReapedJob(jobs[n - 1], now);
    }
  }

  /** The reaper's two counts are the numbers of held jobs it puts back and of those it fails. */
  lemma ReapCountsRows(s: Store, now: int)
    ensures var after := Reap(s, now).jobs;
            ReapCounts(s.jobs, now, |s.jobs|) == (|ReapedTo(s.jobs, after, |s.jobs|, Queued)|, |ReapedTo(s.jobs, after, |s.jobs|, Failed)|)
  {
    ReapedOnesCounted(s.jobs, Reap(s, now).jobs, now, |s.jobs|);
  }
}
