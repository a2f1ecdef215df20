/** Every run of the queue: what each step keeps, who holds a job, and how much work there can be. */
module JobRuns {
  import opened Wrappers
  import opened Jobs

  // ----- steps and runs

  datatype Event =
    | EnqueueEvent(enqueue: EnqueueOptions, now: int)
    | DequeueEvent(dequeue: DequeueOptions, now: int)
    | HeartbeatEvent(token: Token, leaseMs: int, now: int)
    | MarkCompletingEvent(id: nat)
    | CompleteEvent(token: Token, result: Option<string>, now: int)
    | FailEvent(token: Token, options: FailOptions, now: int)
    | AbortEvent(id: nat, reason: string, now: int)
    | ReapEvent(now: int)

  function Step(s: Store, e: Event): Store {
    match e
    case EnqueueEvent(o, now) => Enqueue(s, o, now).0
    case DequeueEvent(o, now) => Dequeue(s, o, now).0
    case HeartbeatEvent(t, leaseMs, now) => Heartbeat(s, t, leaseMs, now).0
    case MarkCompletingEvent(id) => MarkCompleting(s, id).0
    case CompleteEvent(t, result, now) => Complete(s, t, result, now).0
    case FailEvent(t, o, now) => Fail(s, t, o, now).0
    case AbortEvent(id, reason, now) => Abort(s, id, reason, now).0
    case ReapEvent(now) => Reap(s, now)
  }

  const EMPTY := Store([], map[])

  /** The rows after any sequence of transactions, by any workers, in any order. */
  function Run(events: seq<Event>): Store {
    if events == [] then EMPTY else Step(Run(events[..|events| - 1]), events[|events| - 1])
  }

  lemma AppendSplits(before: seq<Event>, after: seq<Event>)
    ensures after == [] ==> before + after == before
    ensures after != [] ==> var all := before + after;
              all != [] && all[..|all| - 1] == before + after[..|after| - 1] && all[|all| - 1] == after[|after| - 1]
  {
  }

  lemma RunAppend(before: seq<Event>, after: seq<Event>)
    ensures after == [] ==> Run(before + after) == Run(before)
    ensures after != [] ==> Run(before + after) == Step(Run(before + after[..|after| - 1]), after[|after| - 1])
  {
    AppendSplits(before, after);
  }

  // ----- what every step keeps

  ghost predicate JobOk(job: Job) {
    && job.maxAttempts >= 1 && job.attempts <= job.maxAttempts
    && (job.state == Queued ==> job.attempts < job.maxAttempts && job.leaseExpiresAt == None && job.pid == None
                                && job.finishedAt == None && job.fence <= 2 * job.attempts)
    && (job.Leased() ==> 1 <= job.attempts && job.finishedAt == None && job.fence <= 2 * job.attempts - 1)
    && (!job.Active() ==> job.finishedAt.Some? && job.leaseExpiresAt == None && job.pid == None && job.fence <= 2 * job.maxAttempts)
  }

  /** The two unique indexes. */
  ghost predicate KeysUnique(jobs: seq<Job>) {
    forall i, j :: 0 <= i < j < |jobs| ==>
      && !SameKey(jobs[i], if jobs[j].Active() then jobs[j].dedupeKey else None)
      && !SameTask(jobs[i], jobs[j].jobType, jobs[j].externalTaskId)
  }

  ghost predicate Good(s: Store) {
    (forall i :: 0 <= i < |s.jobs| ==> JobOk(s.jobs[i])) && KeysUnique(s.jobs)
  }

  /** Identity never changes, and an unfinished job was unfinished before. */
  ghost predicate SameIdentity(before: Job, after: Job) {
    && after.jobType == before.jobType && after.externalTaskId == before.externalTaskId
    && after.dedupeKey == before.dedupeKey && after.maxAttempts == before.maxAttempts
    && (after.Active() ==> before.Active())
  }

  /** How one step may change a row: not at all if finished, and never giving back a fence. */
  ghost predicate RowStep(before: Job, after: Job) {
    && SameIdentity(before, after)
    && (JobOk(before) ==> JobOk(after))
    && before.fence <= after.fence && before.attempts <= after.attempts
    && (!before.Active() ==> after == before)
    && (!before.Leased() && after.Leased() ==> before.fence < after.fence && after.attempts == before.attempts + 1)
    && (before.Leased() && after.Leased() ==> after.fence == before.fence)
    && (!(!before.Leased() && after.Leased()) ==> after.attempts == before.attempts)
  }

  lemma QueueRowSteps(s: Store, e: Event, i: nat)
    requires (e.EnqueueEvent? || e.DequeueEvent?) && i < |s.jobs|
    ensures i < |Step(s, e).jobs| && RowStep(s.jobs[i], Step(s, e).jobs[i])
  {
  }

  lemma HolderRowSteps(s: Store, e: Event, i: nat)
    requires (e.HeartbeatEvent? || e.MarkCompletingEvent? || e.CompleteEvent? || e.FailEvent?) && i < |s.jobs|
    ensures i < |Step(s, e).jobs| && RowStep(s.jobs[i], Step(s, e).jobs[i])
  {
  }

  lemma EndingRowSteps(s: Store, e: Event, i: nat)
    requires (e.AbortEvent? || e.ReapEvent?) && i < |s.jobs|
    ensures i < |Step(s, e).jobs| && RowStep(s.jobs[i], Step(s, e).jobs[i])
  {
  }

  lemma RowSteps(s: Store, e: Event, i: nat)
    requires i < |s.jobs|
    ensures i < |Step(s, e).jobs| && RowStep(s.jobs[i], Step(s, e).jobs[i])
  {
    if e.EnqueueEvent? || e.DequeueEvent? {
      QueueRowSteps(s, e, i);
    } else if e.AbortEvent? || e.ReapEvent? {
      EndingRowSteps(s, e, i);
    } else {
      HolderRowSteps(s, e, i);
    }
  }

  lemma OnlyEnqueueAdds(s: Store, e: Event)
    ensures |Step(s, e).jobs| == |s.jobs| ||
      (e.EnqueueEvent? && !Refused(s.jobs, e.enqueue) && Step(s, e).jobs == s.jobs + [NewJob(e.enqueue, e.now)])
  {
  }

  lemma KeysStayUnique(s: Store, e: Event)
    requires KeysUnique(s.jobs)
    requires forall i :: 0 <= i < |s.jobs| ==> i < |Step(s, e).jobs| && SameIdentity(s.jobs[i], Step(s, e).jobs[i])
    ensures KeysUnique(Step(s, e).jobs)
  {
    var jobs' := Step(s, e).jobs;
    OnlyEnqueueAdds(s, e);
    forall i, j | 0 <= i < j < |jobs'|
      ensures !SameKey(jobs'[i], if jobs'[j].Active() then jobs'[j].dedupeKey else None)
      ensures !SameTask(jobs'[i], jobs'[j].jobType, jobs'[j].externalTaskId)
    {
      if j < |s.jobs| {
        assert SameIdentity(s.jobs[i], jobs'[i]) && SameIdentity(s.jobs[j], jobs'[j]);
      } else {
        assert jobs'[i] == s.jobs[i] && jobs'[j] == NewJob(e.enqueue, e.now);
      }
    }
  }

  lemma StepKeepsGood(s: Store, e: Event)
    requires Good(s)
    ensures Good(Step(s, e))
  {
    var s' := Step(s, e);
    OnlyEnqueueAdds(s, e);
    forall i | 0 <= i < |s.jobs|
      ensures i < |s'.jobs| && RowStep(s.jobs[i], s'.jobs[i])
    {
      RowSteps(s, e, i);
    }
    KeysStayUnique(s, e);
  }

  /** In every reachable state attempts, leases and fences are within bounds and keys are unique. */
  lemma {:induction false} ReachableIsGood(events: seq<Event>)
    ensures Good(Run(events))
    decreases |events|
  {
    if events == [] {
    } else {
      ReachableIsGood(events[..|events| - 1]);
      StepKeepsGood(Run(events[..|events| - 1]), events[|events| - 1]);
    }
  }

  // ----- who holds a job

  /** The token a step hands out, as its caller sees it. */
  function Issued(s: Store, e: Event): Option<Token> {
    match e
    case DequeueEvent(o, now) => Dequeue(s, o, now).1
    case EnqueueEvent(o, now) =>
      var r := Enqueue(s, o, now).1;
      if r.Inserted? && o.startRunning then Some(Token(r.id, 0)) else None
    case _ => None
  }

  /** The step takes the job away from its holder: it finishes, fails, aborts or reaps it. */
  predicate Releases(s: Store, e: Event, id: nat) {
    match e
    case CompleteEvent(t, result, now) => t.id == id && Complete(s, t, result, now).1
    case FailEvent(t, o, now) => t.id == id && Fail(s, t, o, now).1
    case AbortEvent(i, reason, now) => i == id && Abort(s, i, reason, now).1
    case ReapEvent(now) => id < |s.jobs| && Expired(s.jobs[id], now)
    case _ => false
  }

  /** The token last handed out for a job, unless the job was taken away since: told from the history alone. */
  function Holder(events: seq<Event>, id: nat): Option<nat> {
    if events == [] then None
    else
      var before, e := events[..|events| - 1], events[|events| - 1];
      var issued := Issued(Run(before), e);
      if issued.Some? && issued.value.id == id then Some(issued.value.fence)
      else if Releases(Run(before), e, id) then None
      else Holder(before, id)
  }

  function LeasedFence(s: Store, id: nat): Option<nat> {
    if id < |s.jobs| && s.jobs[id].Leased() then Some(s.jobs[id].fence) else None
  }

  lemma HolderStep(s: Store, e: Event, id: nat)
    ensures var issued := Issued(s, e);
            LeasedFence(Step(s, e), id) ==
              if issued.Some? && issued.value.id == id then Some(issued.value.fence)
              else if Releases(s, e, id) then None
              else LeasedFence(s, id)
  {
  }

  /** The rows know exactly who holds each job. */
  lemma {:induction false} HolderIsLeased(events: seq<Event>, id: nat)
    ensures Holder(events, id) == LeasedFence(Run(events), id)
    decreases |events|
  {
    if events == [] {
    } else {
      HolderIsLeased(events[..|events| - 1], id);
      HolderStep(Run(events[..|events| - 1]), events[|events| - 1], id);
    }
  }

  /** The job was marked as completing since it was last handed out: told from the history alone. */
  predicate MarkedSince(events: seq<Event>, id: nat) {
    if events == [] then false
    else
      var before, e := events[..|events| - 1], events[|events| - 1];
      var issued := Issued(Run(before), e);
      if (issued.Some? && issued.value.id == id) || Releases(Run(before), e, id) then false
      else if e.MarkCompletingEvent? && e.id == id && MarkCompleting(Run(before), id).1 then true
      else MarkedSince(before, id)
  }

  predicate IsCompleting(s: Store, id: nat) {
    id < |s.jobs| && s.jobs[id].state == Completing
  }

  lemma MarkStep(s: Store, e: Event, id: nat)
    ensures var issued := Issued(s, e);
            IsCompleting(Step(s, e), id) <==>
              if (issued.Some? && issued.value.id == id) || Releases(s, e, id) then false
              else if e.MarkCompletingEvent? && e.id == id && MarkCompleting(s, id).1 then true
              else IsCompleting(s, id)
  {
  }

  lemma {:induction false} MarkedIsCompleting(events: seq<Event>, id: nat)
    ensures MarkedSince(events, id) <==> IsCompleting(Run(events), id)
    decreases |events|
  {
    if events == [] {
    } else {
      MarkedIsCompleting(events[..|events| - 1], id);
      MarkStep(Run(events[..|events| - 1]), events[|events| - 1], id);
    }
  }

  /**
   The job was last handed out by its own enqueue and has not been taken away or prolonged by a
   heartbeat since: told from the history alone.
   */
  predicate NeverLeased(events: seq<Event>, id: nat) {
    if events == [] then false
    else
      var before, e := events[..|events| - 1], events[|events| - 1];
      var issued := Issued(Run(before), e);
      if issued.Some? && issued.value.id == id then e.EnqueueEvent?
      else if Releases(Run(before), e, id) then false
      else if e.HeartbeatEvent? && e.token.id == id && Heartbeat(Run(before), e.token, e.leaseMs, e.now).1 then false
      else NeverLeased(before, id)
  }

  predicate WithoutLease(s: Store, id: nat) {
    id < |s.jobs| && s.jobs[id].Leased() && s.jobs[id].leaseExpiresAt.None?
  }

  lemma LeaseStep(s: Store, e: Event, id: nat)
    ensures var issued := Issued(s, e);
            WithoutLease(Step(s, e), id) <==>
              if issued.Some? && issued.value.id == id then e.EnqueueEvent?
              else if Releases(s, e, id) then false
              else if e.HeartbeatEvent? && e.token.id == id && Heartbeat(s, e.token, e.leaseMs, e.now).1 then false
              else WithoutLease(s, id)
  {
  }

  lemma {:induction false} NeverLeasedIsWithoutLease(events: seq<Event>, id: nat)
    ensures NeverLeased(events, id) <==> WithoutLease(Run(events), id)
    decreases |events|
  {
    if events == [] {
    } else {
      NeverLeasedIsWithoutLease(events[..|events| - 1], id);
      LeaseStep(Run(events[..|events| - 1]), events[|events| - 1], id);
    }
  }

  /** When the lease of a job ends, if it has one: set when it is handed out, moved by heartbeats, gone when it is taken away. */
  function LeaseEnd(events: seq<Event>, id: nat): Option<int> {
    if events == [] then None
    else
      var before, e := events[..|events| - 1], events[|events| - 1];
      var issued := Issued(Run(before), e);
      if issued.Some? && issued.value.id == id then (if e.DequeueEvent? then Some(e.now + e.dequeue.leaseMs) else None)
      else if Releases(Run(before), e, id) then None
      else if e.HeartbeatEvent? && e.token.id == id && Heartbeat(Run(before), e.token, e.leaseMs, e.now).1 then Some(e.now + e.leaseMs)
      else LeaseEnd(before, id)
  }

  function StoredLease(s: Store, id: nat): Option<int> {
    if id < |s.jobs| then s.jobs[id].leaseExpiresAt else None
  }

  lemma LeaseEndStep(s: Store, e: Event, id: nat)
    ensures var issued := Issued(s, e);
            StoredLease(Step(s, e), id) ==
              if issued.Some? && issued.value.id == id then (if e.DequeueEvent? then Some(e.now + e.dequeue.leaseMs) else None)
              else if Releases(s, e, id) then None
              else if e.HeartbeatEvent? && e.token.id == id && Heartbeat(s, e.token, e.leaseMs, e.now).1 then Some(e.now + e.leaseMs)
              else StoredLease(s, id)
  {
  }

  lemma {:induction false} LeaseEndIsStored(events: seq<Event>, id: nat)
    ensures LeaseEnd(events, id) == StoredLease(Run(events), id)
    decreases |events|
  {
    if events == [] {
    } else {
      LeaseEndIsStored(events[..|events| - 1], id);
      LeaseEndStep(Run(events[..|events| - 1]), events[|events| - 1], id);
    }
  }

  /**
   The reaper takes a held job away exactly when its lease has ended, and leaves every other held
   job as it is: one that was enqueued as running, whatever the time, until a heartbeat gives it a
   lease.
   */
  lemma ReapedOnceLeaseEnds(events: seq<Event>, id: nat, now: int)
    requires Holder(events, id).Some?
    ensures var s, end := Run(events), LeaseEnd(events, id);
            && id < |s.jobs|
            && (end.None? <==> NeverLeased(events, id))
            && (Releases(s, ReapEvent(now), id) <==> end.Some? && end.value < now)
            && (Reap(s, now).jobs[id] == s.jobs[id] <==> NeverLeased(events, id) || now <= end.value)
  {
    HolderIsLeased(events, id);
    NeverLeasedIsWithoutLease(events, id);
    LeaseEndIsStored(events, id);
  }

  /**
   In every run, complete and fail with a token work exactly for the current holder of the job,
   and heartbeat exactly for the holder of a job not marked as completing since it was handed
   out; otherwise they answer false and change nothing.
   */
  lemma OnlyTheHolderCounts(events: seq<Event>, t: Token, result: Option<string>, o: FailOptions, leaseMs: int, now: int)
    ensures var s := Run(events);
            var holds := Holder(events, t.id) == Some(t.fence);
            && Complete(s, t, result, now).1 == holds && Fail(s, t, o, now).1 == holds
            && Heartbeat(s, t, leaseMs, now).1 == (holds && !MarkedSince(events, t.id))
            && (!holds ==> Complete(s, t, result, now).0 == s && Fail(s, t, o, now).0 == s)
            && (!Heartbeat(s, t, leaseMs, now).1 ==> Heartbeat(s, t, leaseMs, now).0 == s)
  {
    HolderIsLeased(events, t.id);
    MarkedIsCompleting(events, t.id);
  }

  lemma OneStep(before: seq<Event>, e: Event)
    ensures Run(before + [e]) == Step(Run(before), e)
    ensures Holder(before + [e], 0) ==
              var issued := Issued(Run(before), e);
              if issued.Some? && issued.value.id == 0 then Some(issued.value.fence)
              else if Releases(Run(before), e, 0) then None
              else Holder(before, 0)
  {
    assert (before + [e])[..|before + [e]| - 1] == before;
  }

  /** The job moved on from this token: a later fence, or nobody holds it. */
  ghost predicate MovedOn(s: Store, t: Token) {
    t.id < |s.jobs| && (t.fence < s.jobs[t.id].fence || (s.jobs[t.id].fence == t.fence && !s.jobs[t.id].Leased()))
  }

  /** A job is handed out, reaped and handed out again. */
  lemma HandedOutTwice() returns (before: seq<Event>)
    ensures Holder(before, 0) == Some(3) && |Run(before).jobs| == 1
    ensures var job := Run(before).jobs[0]; job.fence == 3 && job.state == Running
  {
    var o := EnqueueOptions("cut", None, None, "", Some(2), Some(None), "", false, false);
    var d := DequeueOptions(1, 10, {}, None);
    var e1, e2, e3, e4 := EnqueueEvent(o, 0), DequeueEvent(d, 0), ReapEvent(20), DequeueEvent(d, 20);
    OneStep([], e1);
    OneStep([] + [e1], e2);
    var leased := [] + [e1] + [e2];
    assert Run(leased).jobs == [Dequeued(NewJob(o, 0), d, 0)];
    OneStep(leased, e3);
    assert Run(leased + [e3]).jobs == [ReapedJob(Dequeued(NewJob(o, 0), d, 0), 20)];
    OneStep(leased + [e3], e4);
    before := leased + [e3] + [e4];
  }

  /**
   Marking asks for no fence. A worker whose lease was reaped can mark the job after it was handed
   to another: that one still holds the job and can finish it, but its heartbeat no longer works.
   */
  lemma StaleMark() returns (before: seq<Event>, stale: Token, holder: Token)
    ensures stale.id == holder.id && MovedOn(Run(before), stale) && Holder(before, holder.id) == Some(holder.fence)
    ensures Heartbeat(Run(before), holder, 10, 30).1 && MarkCompleting(Run(before), stale.id).1
    ensures var after := before + [MarkCompletingEvent(stale.id)];
            && Holder(after, holder.id) == Some(holder.fence)
            && !Heartbeat(Run(after), holder, 10, 30).1 && Complete(Run(after), holder, None, 30).1
  {
    stale, holder := Token(0, 1), Token(0, 3);
    before := HandedOutTwice();
    OneStep(before, MarkCompletingEvent(0));
  }

  lemma {:induction false} MovedOnForever(before: seq<Event>, after: seq<Event>, t: Token)
    requires MovedOn(Run(before), t)
    ensures MovedOn(Run(before + after), t)
    decreases |after|
  {
    RunAppend(before, after);
    if after == [] {
    } else {
      var front := after[..|after| - 1];
      MovedOnForever(before, front, t);
      RowSteps(Run(before + front), after[|after| - 1], t.id);
    }
  }

  lemma ReleaseMovesOn(s: Store, e: Event, t: Token)
    requires Holds(s, t) && Releases(s, e, t.id)
    ensures MovedOn(Step(s, e), t)
  {
  }

  /** Once a holder has finished, failed, or lost a job, its token never works again, whatever happens later. */
  lemma LostTokensStayLost(before: seq<Event>, e: Event, after: seq<Event>, t: Token)
    requires Holder(before, t.id) == Some(t.fence) && Releases(Run(before), e, t.id)
    ensures Holder(before + [e] + after, t.id) != Some(t.fence)
  {
    HolderIsLeased(before, t.id);
    ReleaseMovesOn(Run(before), e, t);
    assert (before + [e])[..|before + [e]| - 1] == before;
    MovedOnForever(before + [e], after, t);
    HolderIsLeased(before + [e] + after, t.id);
  }

  /** The row remembers the fence it was handed out with, which is above the one it had. */
  lemma IssuedFence(s: Store, e: Event)
    ensures var t := Issued(s, e);
            t.Some? ==>
              && t.value.id < |Step(s, e).jobs| && Step(s, e).jobs[t.value.id].fence == t.value.fence
              && (t.value.id < |s.jobs| ==> s.jobs[t.value.id].fence < t.value.fence)
  {
  }

  lemma {:induction false} FenceGrows(before: seq<Event>, after: seq<Event>, id: nat)
    requires id < |Run(before).jobs|
    ensures id < |Run(before + after).jobs| && Run(before).jobs[id].fence <= Run(before + after).jobs[id].fence
    decreases |after|
  {
    RunAppend(before, after);
    if after == [] {
    } else {
      var front := after[..|after| - 1];
      FenceGrows(before, front, id);
      RowSteps(Run(before + front), after[|after| - 1], id);
    }
  }

  /** A new token for a job carries a greater fence than any token for it before. */
  lemma TokensIncrease(before: seq<Event>, e: Event, between: seq<Event>, f: Event)
    requires var t, u := Issued(Run(before), e), Issued(Run(before + [e] + between), f);
             t.Some? && u.Some? && t.value.id == u.value.id
    ensures Issued(Run(before), e).value.fence < Issued(Run(before + [e] + between), f).value.fence
  {
    var t := Issued(Run(before), e).value;
    assert (before + [e])[..|before + [e]| - 1] == before;
    IssuedFence(Run(before), e);
    FenceGrows(before + [e], between, t.id);
    IssuedFence(Run(before + [e] + between), f);
  }

  /** A finished job is never touched again. */
  lemma {:induction false} TerminalForever(before: seq<Event>, after: seq<Event>, id: nat)
    requires id < |Run(before).jobs| && !Run(before).jobs[id].Active()
    ensures id < |Run(before + after).jobs| && Run(before + after).jobs[id] == Run(before).jobs[id]
    decreases |after|
  {
    RunAppend(before, after);
    if after == [] {
    } else {
      var front := after[..|after| - 1];
      TerminalForever(before, front, id);
      RowSteps(Run(before + front), after[|after| - 1], id);
    }
  }

  // ----- how much work there can be

  /** How many tokens a run hands out for a job. */
  function TimesIssued(events: seq<Event>, id: nat): nat {
    if events == [] then 0
    else
      var before, e := events[..|events| - 1], events[|events| - 1];
      var issued := Issued(Run(before), e);
      TimesIssued(before, id) + (if issued.Some? && issued.value.id == id then 1 else 0)
  }

  function Attempts(s: Store, id: nat): nat {
    if id < |s.jobs| then s.jobs[id].attempts else 0
  }

  lemma AttemptStep(s: Store, e: Event, id: nat)
    ensures var issued := Issued(s, e);
            var given := if issued.Some? && issued.value.id == id then 1 else 0;
            Attempts(Step(s, e), id) == Attempts(s, id) + given
  {
  }

  /** Attempts count hand-outs, so no job is handed out more than its limit. */
  lemma {:induction false} AttemptsCountTokens(events: seq<Event>, id: nat)
    ensures TimesIssued(events, id) == Attempts(Run(events), id)
    ensures id < |Run(events).jobs| ==> TimesIssued(events, id) <= Run(events).jobs[id].maxAttempts
    decreases |events|
  {
    if events == [] {
    } else {
      AttemptsCountTokens(events[..|events| - 1], id);
      AttemptStep(Run(events[..|events| - 1]), events[|events| - 1], id);
    }
    ReachableIsGood(events);
  }

  /** Steps a job can still go through. */
  function Weight(job: Job): int {
    if !job.Active() then 0
    else 3 * (job.maxAttempts - job.attempts) + (if job.state == Running then 2 else if job.state == Completing then 1 else 0)
  }

  function TotalWeight(jobs: seq<Job>): int {
    if jobs == [] then 0 else TotalWeight(jobs[..|jobs| - 1]) + Weight(jobs[|jobs| - 1])
  }

  /** The step changed a row other than by adding one or by prolonging a lease. */
  predicate Works(s: Store, e: Event) {
    !e.EnqueueEvent? && !e.HeartbeatEvent? && Step(s, e).jobs != s.jobs
  }

  function WorkingSteps(events: seq<Event>): nat {
    if events == [] then 0
    else
      var before, e := events[..|events| - 1], events[|events| - 1];
      WorkingSteps(before) + (if Works(Run(before), e) then 1 else 0)
  }

  /** Three steps for every attempt that inserted jobs may make. */
  function Allowance(events: seq<Event>): nat {
    if events == [] then 0
    else
      var before, e := events[..|events| - 1], events[|events| - 1];
      Allowance(before) + (if e.EnqueueEvent? && Enqueue(Run(before), e.enqueue, e.now).1.Inserted? then 3 * Limit(e.enqueue) else 0)
  }

  lemma RowWeightFalls(s: Store, e: Event, i: nat)
    requires i < |s.jobs| && JobOk(s.jobs[i])
    ensures i < |Step(s, e).jobs|
    ensures var job, job' := s.jobs[i], Step(s, e).jobs[i];
            && Weight(job') <= Weight(job)
            && (job' != job && !e.HeartbeatEvent? ==> Weight(job') < Weight(job))
  {
  }

  lemma {:induction false} TotalWeightFalls(jobs: seq<Job>, jobs': seq<Job>)
    requires |jobs| == |jobs'|
    requires forall i :: 0 <= i < |jobs| ==> Weight(jobs'[i]) <= Weight(jobs[i])
    ensures TotalWeight(jobs') <= TotalWeight(jobs)
    decreases |jobs|
  {
    if jobs == [] {
    } else {
      TotalWeightFalls(jobs[..|jobs| - 1], jobs'[..|jobs| - 1]);
    }
  }

  lemma {:induction false} TotalWeightFallsAt(jobs: seq<Job>, jobs': seq<Job>, i: nat)
    requires |jobs| == |jobs'| && i < |jobs| && Weight(jobs'[i]) < Weight(jobs[i])
    requires forall i :: 0 <= i < |jobs| ==> Weight(jobs'[i]) <= Weight(jobs[i])
    ensures TotalWeight(jobs') < TotalWeight(jobs)
    decreases |jobs|
  {
    var n := |jobs| - 1;
    if i == n {
      TotalWeightFalls(jobs[..n], jobs'[..n]);
    } else {
      TotalWeightFallsAt(jobs[..n], jobs'[..n], i);
    }
  }

  lemma {:induction false} TotalWeightNatural(jobs: seq<Job>)
    requires forall i :: 0 <= i < |jobs| ==> JobOk(jobs[i])
    ensures TotalWeight(jobs) >= 0
    decreases |jobs|
  {
    if jobs == [] {
    } else {
      TotalWeightNatural(jobs[..|jobs| - 1]);
    }
  }

  lemma WorkStep(s: Store, e: Event)
    requires Good(s)
    ensures var added := if e.EnqueueEvent? && Enqueue(s, e.enqueue, e.now).1.Inserted? then 3 * Limit(e.enqueue) else 0;
            TotalWeight(Step(s, e).jobs) + (if Works(s, e) then 1 else 0) <= TotalWeight(s.jobs) + added
  {
    var jobs' := Step(s, e).jobs;
    OnlyEnqueueAdds(s, e);
    if |jobs'| == |s.jobs| {
      forall i | 0 <= i < |s.jobs|
        ensures Weight(jobs'[i]) <= Weight(s.jobs[i])
        ensures jobs'[i] != s.jobs[i] && !e.HeartbeatEvent? ==> Weight(jobs'[i]) < Weight(s.jobs[i])
      {
        RowWeightFalls(s, e, i);
      }
      TotalWeightFalls(s.jobs, jobs');
      if Works(s, e) {
        var i :| 0 <= i < |s.jobs| && jobs'[i] != s.jobs[i];
        TotalWeightFallsAt(s.jobs, jobs', i);
      }
    } else {
      assert jobs'[..|jobs'| - 1] == s.jobs;
    }
  }

  /**
   Retries are bounded: however workers, reapers and aborts interleave, a run makes at most
   three working steps for every attempt allowed to the jobs it inserted.
   */
  lemma {:induction false} WorkIsBounded(events: seq<Event>)
    ensures WorkingSteps(events) + TotalWeight(Run(events).jobs) <= Allowance(events)
    ensures WorkingSteps(events) <= Allowance(events)
    decreases |events|
  {
    if events == [] {
    } else {
      var before := events[..|events| - 1];
      WorkIsBounded(before);
      ReachableIsGood(before);
      WorkStep(Run(before), events[|events| - 1]);
    }
    ReachableIsGood(events);
    TotalWeightNatural(Run(events).jobs);
  }

  // ----- which job a worker gets

  /** The job handed out comes before every other candidate, ties going to the lower id. */
  lemma {:induction false} FirstCandidateIsFirst(jobs: seq<Job>, o: DequeueOptions, n: nat)
    requires n <= |jobs|
    ensures var r := FirstCandidate(jobs, o, n);
            && (r.None? <==> forall i :: 0 <= i < n ==> !Candidate(jobs[i], o))
            && (r.Some? ==> forall i :: 0 <= i < n && Candidate(jobs[i], o) && i != r.value ==>
                  Before(jobs[r.value], jobs[i], o) || (!Before(jobs[i], jobs[r.value], o) && r.value < i))
    decreases n
  {
    if n == 0 {
    } else {
      FirstCandidateIsFirst(jobs, o, n - 1);
    }
  }
}
