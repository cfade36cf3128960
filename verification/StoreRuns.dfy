/** What holds over whole runs of the store: any events, any job ids, rejected calls included. */
module StoreRuns {
  import opened Events
  import opened StateMachine
  import opened Language
  import opened Histories
  import opened EventStore

  // ---------------------------------------------------------------- jobs do not interfere

  lemma StepTouchesOneLog(s: Store, e: ArsEvent, id: string)
    ensures Step(s, e).LogOf(id) ==
            if e.jobId == id && Append(s, e).Ok? then s.LogOf(id) + [e] else s.LogOf(id)
  {
  }

  lemma VerdictDependsOnLog(s: Store, t: Store, e: ArsEvent)
    requires s.LogOf(e.jobId) == t.LogOf(e.jobId)
    ensures Verdict(s, e) == Verdict(t, e)
    ensures Append(s, e).Ok? <==> Append(t, e).Ok?
  {
  }

  /**
   * A job sees only its own events: its log, its derived job and the answers to its calls are those of
   * a run of its own events alone.
   */
  lemma {:induction false} NonInterference(s: Store, t: Store, events: seq<ArsEvent>, id: string)
    requires s.LogOf(id) == t.LogOf(id)
    ensures Run(s, events).LogOf(id) == Run(t, Only(events, id)).LogOf(id)
    ensures Current(Run(s, events).LogOf(id)) == Current(Run(t, Only(events, id)).LogOf(id))
    ensures VerdictsOn(s, events, id) == Verdicts(t, Only(events, id))
  {
    if events != [] {
      var earlier, e := events[..|events| - 1], events[|events| - 1];
      NonInterference(s, t, earlier, id);
      StepTouchesOneLog(Run(s, earlier), e, id);
      if e.jobId == id {
        RunSnoc(t, Only(earlier, id), e);
        StepTouchesOneLog(Run(t, Only(earlier, id)), e, id);
        VerdictDependsOnLog(Run(s, earlier), Run(t, Only(earlier, id)), e);
      }
    }
  }

  lemma SameLogs(x: Store, y: Store)
    requires x.Valid() && y.Valid() && forall id :: x.LogOf(id) == y.LogOf(id)
    ensures x.logs == y.logs && x.Jobs() == y.Jobs()
    ensures forall id :: id in x.ids <==> id in y.ids
  {
    forall id
      ensures id in x.logs <==> id in y.logs
      ensures id in x.logs ==> x.logs[id] == y.logs[id]
    {
      assert x.LogOf(id) == y.LogOf(id);
      assert id in x.logs ==> ValidLog(x.logs[id], id);
      assert id in y.logs ==> ValidLog(y.logs[id], id);
    }
    assert x.logs == y.logs;
  }

  lemma SameOwnEvents(s: Store, a: seq<ArsEvent>, b: seq<ArsEvent>, id: string)
    requires Only(a, id) == Only(b, id)
    ensures Run(s, a).LogOf(id) == Run(s, b).LogOf(id)
    ensures VerdictsOn(s, a, id) == VerdictsOn(s, b, id)
  {
    NonInterference(s, s, a, id);
    NonInterference(s, s, b, id);
  }

  /** Two schedules that give every job the same events in the same order end in the same logs and jobs. */
  lemma SchedulesAgree(s: Store, a: seq<ArsEvent>, b: seq<ArsEvent>)
    requires s.Valid()
    requires forall id :: Only(a, id) == Only(b, id)
    ensures Run(s, a).logs == Run(s, b).logs && Run(s, a).Jobs() == Run(s, b).Jobs()
    ensures forall id :: id in Run(s, a).ids <==> id in Run(s, b).ids
    ensures forall id :: VerdictsOn(s, a, id) == VerdictsOn(s, b, id)
  {
    forall id
      ensures Run(s, a).LogOf(id) == Run(s, b).LogOf(id)
      ensures VerdictsOn(s, a, id) == VerdictsOn(s, b, id)
    {
      SameOwnEvents(s, a, b, id);
    }
    RunIsValid(s, a);
    RunIsValid(s, b);
    SameLogs(Run(s, a), Run(s, b));
  }

  lemma {:induction false} OnlyConcat(a: seq<ArsEvent>, b: seq<ArsEvent>, id: string)
    ensures Only(a + b, id) == Only(a, id) + Only(b, id)
    decreases |b|
  {
    if b == [] {
      assert a + b == a;
    } else {
      var rest, e := b[..|b| - 1], b[|b| - 1];
      assert a + b == (a + rest) + [e];
      OnlyConcat(a, rest, id);
      OnlySnoc(a + rest, e, id);
    }
  }

  /** In particular two neighbouring calls on different jobs can be exchanged anywhere in a run. */
  lemma NeighboursCommute(s: Store, a: seq<ArsEvent>, e: ArsEvent, f: ArsEvent, b: seq<ArsEvent>)
    requires s.Valid() && e.jobId != f.jobId
    ensures Run(s, a + [e, f] + b).logs == Run(s, a + [f, e] + b).logs
    ensures forall id :: VerdictsOn(s, a + [e, f] + b, id) == VerdictsOn(s, a + [f, e] + b, id)
  {
    forall id
      ensures Only(a + [e, f] + b, id) == Only(a + [f, e] + b, id)
    {
      OnlyConcat(a + [e, f], b, id);
      OnlyConcat(a + [f, e], b, id);
      OnlyConcat(a, [e, f], id);
      OnlyConcat(a, [f, e], id);
      assert [e, f] == [e] + [f] && [f, e] == [f] + [e];
      OnlySnoc([e], f, id);
      OnlySnoc([f], e, id);
      OnlySnoc([], e, id);
      OnlySnoc([], f, id);
    }
    SchedulesAgree(s, a + [e, f] + b, a + [f, e] + b);
  }

  // ---------------------------------------------------------------- the store holds what it accepted

  /** A log is what it was, followed by the events of the job that were accepted, and nothing else. */
  lemma {:induction false} LogHoldsAccepted(s: Store, events: seq<ArsEvent>, id: string)
    ensures Run(s, events).LogOf(id) == s.LogOf(id) + Only(Accepted(s, events), id)
  {
    if events != [] {
      var earlier, e := events[..|events| - 1], events[|events| - 1];
      LogHoldsAccepted(s, earlier, id);
      StepTouchesOneLog(Run(s, earlier), e, id);
      OnlySnoc(Accepted(s, earlier), e, id);
    }
  }

  lemma RunsIffLifecycle(log: seq<ArsEvent>)
    ensures RunLog(log).Ok? <==> log == [] || Lifecycle(log)
  {
    ExactLanguage(log);
    if log != [] {
      RunLogSnoc(log[..|log| - 1], log[|log| - 1]);
      assert log == log[..|log| - 1] + [log[|log| - 1]];
    }
  }

  lemma AppendIffRuns(s: Store, e: ArsEvent)
    ensures Append(s, e).Ok? <==> RunLog(s.LogOf(e.jobId) + [e]).Ok?
  {
    CurrentIsRunLog(s.LogOf(e.jobId));
    RunLogSnoc(s.LogOf(e.jobId), e);
  }

  lemma StoredLogRuns(s: Store, id: string)
    requires s.Valid()
    ensures RunLog(s.LogOf(id)).Ok?
  {
    if id in s.logs {
      assert ValidLog(s.logs[id], id);
    }
  }

  /** Every job's events, on their own, are a lifecycle or nothing at all. */
  ghost predicate Shuffle(events: seq<ArsEvent>) {
    forall id :: RunLog(Only(events, id)).Ok?
  }

  lemma ShufflePrefix(events: seq<ArsEvent>, e: ArsEvent)
    requires Shuffle(events + [e])
    ensures Shuffle(events)
  {
    forall id
      ensures RunLog(Only(events, id)).Ok?
    {
      assert RunLog(Only(events + [e], id)).Ok?;
      OnlySnoc(events, e, id);
      RunLogSnoc(Only(events, id), e);
    }
  }

  lemma {:induction false} ShuffleIsAccepted(events: seq<ArsEvent>)
    requires Shuffle(events)
    ensures Accepted(EMPTY, events) == events
  {
    if events != [] {
      var earlier, e := events[..|events| - 1], events[|events| - 1];
      assert events == earlier + [e];
      ShufflePrefix(earlier, e);
      ShuffleIsAccepted(earlier);
      LogHoldsAccepted(EMPTY, earlier, e.jobId);
      OnlySnoc(earlier, e, e.jobId);
      assert RunLog(Only(events, e.jobId)).Ok?;
      assert Run(EMPTY, earlier).LogOf(e.jobId) == Only(earlier, e.jobId);
      AppendIffRuns(Run(EMPTY, earlier), e);
    }
  }

  ghost predicate ShuffleOfLifecycles(events: seq<ArsEvent>) {
    forall id :: Only(events, id) == [] || Lifecycle(Only(events, id))
  }

  lemma ShuffleIff(events: seq<ArsEvent>)
    ensures Shuffle(events) <==> ShuffleOfLifecycles(events)
  {
    if Shuffle(events) {
      forall id
        ensures Only(events, id) == [] || Lifecycle(Only(events, id))
      {
        assert RunLog(Only(events, id)).Ok?;
        RunsIffLifecycle(Only(events, id));
      }
    }
    if ShuffleOfLifecycles(events) {
      forall id
        ensures RunLog(Only(events, id)).Ok?
      {
        assert Only(events, id) == [] || Lifecycle(Only(events, id));
        RunsIffLifecycle(Only(events, id));
      }
    }
  }

  lemma OwnEventsRun(s: Store, events: seq<ArsEvent>, id: string)
    requires s == Run(EMPTY, events) && s.Valid() && Accepted(EMPTY, events) == events
    ensures RunLog(Only(events, id)).Ok?
  {
    LogHoldsAccepted(EMPTY, events, id);
    assert s.LogOf(id) == Only(events, id);
    StoredLogRuns(s, id);
  }

  lemma EmptyRunIsValid(events: seq<ArsEvent>)
    ensures Run(EMPTY, events).Valid()
  {
    RunIsValid(EMPTY, events);
  }

  lemma AcceptedIsShuffle(events: seq<ArsEvent>)
    requires Accepted(EMPTY, events) == events
    ensures Shuffle(events)
  {
    EmptyRunIsValid(events);
    forall id
      ensures RunLog(Only(events, id)).Ok?
    {
      OwnEventsRun(Run(EMPTY, events), events, id);
    }
  }

  /**
   * The language of the store: it takes every call of a sequence exactly if the sequence is a shuffle of
   * lifecycles, one per job, whatever the order between jobs.
   */
  lemma StoreLanguage(events: seq<ArsEvent>)
    ensures Accepted(EMPTY, events) == events <==> ShuffleOfLifecycles(events)
  {
    ShuffleIff(events);
    if Accepted(EMPTY, events) == events {
      AcceptedIsShuffle(events);
    }
    if Shuffle(events) {
      ShuffleIsAccepted(events);
    }
  }

  /** Running the accepted events alone rebuilds the store exactly, and refuses none of them. */
  lemma {:induction false} AcceptedRebuilds(s: Store, events: seq<ArsEvent>)
    ensures Run(s, Accepted(s, events)) == Run(s, events)
    ensures Accepted(s, Accepted(s, events)) == Accepted(s, events)
  {
    if events != [] {
      var earlier, e := events[..|events| - 1], events[|events| - 1];
      AcceptedRebuilds(s, earlier);
      RunSnoc(s, Accepted(s, earlier), e);
    }
  }

  lemma LogStep(t: Store, rest: seq<ArsEvent>, e: ArsEvent)
    requires t.LogOf(e.jobId) == rest && Replay(rest + [e]).Ok?
    ensures Step(t, e) == Put(t, e.jobId, rest + [e])
  {
    AppendIffReplay(t, e);
  }

  lemma PutTwice(s: Store, id: string, rest: seq<ArsEvent>, log: seq<ArsEvent>)
    ensures Put(Put(s, id, rest), id, log) == Put(s, id, log)
    ensures Put(s, id, rest).LogOf(id) == rest
  {
    assert s.logs[id := rest][id := log] == s.logs[id := log];
  }

  /** Running an accepted log of an unknown job files exactly that log. */
  lemma {:induction false} RunOneLog(s: Store, id: string, log: seq<ArsEvent>)
    requires id !in s.logs && Replay(log).Ok? && log[0].jobId == id
    ensures Run(s, log) == Put(s, id, log)
    decreases |log|
  {
    var n := |log| - 1;
    var rest, e := log[..n], log[n];
    assert log == rest + [e];
    assert e.jobId == id by {
      AcceptedForm(log);
    }
    RunSnoc(s, rest, e);
    if rest != [] {
      AcceptedPrefix(log, n);
      RunOneLog(s, id, rest);
      PutTwice(s, id, rest, log);
    }
    LogStep(Run(s, rest), rest, e);
  }

  /** The logs of a store, one job after the other. */
  function Dump(s: Store, k: nat): seq<ArsEvent>
    requires k <= |s.ids|
  {
    if k == 0 then [] else Dump(s, k - 1) + s.LogOf(s.ids[k - 1])
  }

  function FirstJobs(s: Store, k: nat): Store
    requires k <= |s.ids|
  {
    Store(s.ids[..k], map id | id in s.ids[..k] :: s.LogOf(id))
  }

  lemma FirstJobsGrow(s: Store, k: nat)
    requires 0 < k <= |s.ids| && s.ids[k - 1] !in s.ids[..k - 1]
    ensures s.ids[k - 1] !in FirstJobs(s, k - 1).logs
    ensures FirstJobs(s, k) == Put(FirstJobs(s, k - 1), s.ids[k - 1], s.LogOf(s.ids[k - 1]))
  {
    var id := s.ids[k - 1];
    assert s.ids[..k] == s.ids[..k - 1] + [id];
    assert FirstJobs(s, k).logs == FirstJobs(s, k - 1).logs[id := s.LogOf(id)];
  }

  lemma {:induction false} DumpRestores(s: Store, k: nat)
    requires k <= |s.ids|
    requires forall i :: 0 <= i < k ==> s.ids[i] !in s.ids[..i] && ValidLog(s.LogOf(s.ids[i]), s.ids[i])
    ensures Run(EMPTY, Dump(s, k)) == FirstJobs(s, k)
  {
    if k == 0 {
      assert FirstJobs(s, 0).logs == map[];
    } else {
      var id := s.ids[k - 1];
      DumpRestores(s, k - 1);
      FirstJobsGrow(s, k);
      RunConcat(EMPTY, Dump(s, k - 1), s.LogOf(id));
      assert ValidLog(s.LogOf(id), id);
      RunOneLog(FirstJobs(s, k - 1), id, s.LogOf(id));
    }
  }

  lemma ValidIdsAndLogs(s: Store, i: nat)
    requires s.Valid() && i < |s.ids|
    ensures s.ids[i] !in s.ids[..i] && ValidLog(s.LogOf(s.ids[i]), s.ids[i])
  {
    assert s.ids[i] in s.ids;
  }

  lemma AllJobsAreTheStore(s: Store)
    requires forall id :: id in s.ids <==> id in s.logs
    ensures FirstJobs(s, |s.ids|) == s
  {
    assert s.ids[..|s.ids|] == s.ids;
    assert FirstJobs(s, |s.ids|).logs == s.logs;
  }

  lemma ValidIsReachable(s: Store)
    requires s.Valid()
    ensures Run(EMPTY, Dump(s, |s.ids|)) == s
  {
    AllJobsAreTheStore(s);
    forall i | 0 <= i < |s.ids| {
      ValidIdsAndLogs(s, i);
    }
    DumpRestores(s, |s.ids|);
  }

  ghost predicate ReachableStore(s: Store) {
    exists events :: Run(EMPTY, events) == s
  }

  /** The invariant is exact: the valid stores are those that some run produces, and no others. */
  lemma ValidExactlyReachable(s: Store)
    ensures s.Valid() <==> ReachableStore(s)
  {
    if s.Valid() {
      ValidIsReachable(s);
    }
    if ReachableStore(s) {
      var events :| Run(EMPTY, events) == s;
      RunIsValid(EMPTY, events);
    }
  }

  /** The ids of the jobs opened in a log, in order. */
  function OpenedIds(log: seq<ArsEvent>): seq<string> {
    if log == [] then []
    else
      var rest, e := OpenedIds(log[..|log| - 1]), log[|log| - 1];
      if e.JobOpened? then rest + [e.jobId] else rest
  }

  lemma AcceptedOpensUnknown(s: Store, e: ArsEvent)
    requires s.Valid() && Append(s, e).Ok?
    ensures e.JobOpened? <==> e.jobId !in s.logs
  {
    if e.jobId in s.logs {
      assert ValidLog(s.logs[e.jobId], e.jobId);
    }
  }

  lemma IdsStep(s: Store, e: ArsEvent)
    requires s.Valid()
    ensures Step(s, e).ids == if Verdict(s, e).None? && e.JobOpened? then s.ids + [e.jobId] else s.ids
  {
    if Append(s, e).Ok? {
      AcceptedOpensUnknown(s, e);
    }
  }

  lemma IdsFollow(before: seq<string>, log: seq<ArsEvent>, e: ArsEvent)
    ensures before + OpenedIds(log + [e]) ==
            if e.JobOpened? then before + OpenedIds(log) + [e.jobId] else before + OpenedIds(log)
  {
    OpenedIdsSnoc(log, e);
  }

  /** `jobIds()` lists the accepted `JobOpened` events in the order of acceptance. */
  lemma {:induction false} IdsInOpeningOrder(s: Store, events: seq<ArsEvent>)
    requires s.Valid()
    ensures Run(s, events).ids == s.ids + OpenedIds(Accepted(s, events))
  {
    if events != [] {
      var earlier, e := events[..|events| - 1], events[|events| - 1];
      IdsInOpeningOrder(s, earlier);
      RunIsValid(s, earlier);
      IdsStep(Run(s, earlier), e);
      IdsFollow(s.ids, Accepted(s, earlier), e);
    }
  }

  /** And it lists none of them twice. */
  lemma NoIdTwice(s: Store, events: seq<ArsEvent>, i: nat, j: nat)
    requires s.Valid() && i < j < |s.ids| + |OpenedIds(Accepted(s, events))|
    ensures (s.ids + OpenedIds(Accepted(s, events)))[i] != (s.ids + OpenedIds(Accepted(s, events)))[j]
  {
    RunIsValid(s, events);
    IdsInOpeningOrder(s, events);
  }

  lemma OpenedIdsSnoc(log: seq<ArsEvent>, e: ArsEvent)
    ensures OpenedIds(log + [e]) == if e.JobOpened? then OpenedIds(log) + [e.jobId] else OpenedIds(log)
  {
    assert (log + [e])[..|log|] == log;
  }

  // ---------------------------------------------------------------- redelivery

  function StateOf(s: Store, id: string): Option<PrincipalState> {
    match Current(s.LogOf(id))
    case Ok(Some(job)) => Some(job.state)
    case _ => None
  }

  /** When a valid store takes an event, by its state alone. */
  lemma AcceptedByState(s: Store, e: ArsEvent)
    requires s.Valid() && !e.JobOpened?
    ensures Append(s, e).Ok? <==> StateOf(s, e.jobId).Some? && KindOf(e) in Next(StateOf(s, e.jobId).value)
    ensures Append(s, e).Ok? ==> StateOf(Step(s, e), e.jobId) == Some(StateAfter(e))
  {
    var id := e.jobId;
    var log := s.LogOf(id);
    CurrentIsRunLog(log);
    if log != [] {
      assert ValidLog(log, id);
      AcceptedForm(log);
      AcceptedIffNext(Replay(log).value, e);
      RunLogSnoc(log, e);
      CurrentIsRunLog(log + [e]);
      StepTouchesOneLog(s, e, id);
    }
  }

  /** Logs only grow. */
  lemma LogsGrow(s: Store, events: seq<ArsEvent>, id: string)
    ensures s.LogOf(id) <= Run(s, events).LogOf(id)
  {
    LogHoldsAccepted(s, events, id);
  }

  lemma StaysInLog(s: Store, e: ArsEvent, events: seq<ArsEvent>)
    requires Append(s, e).Ok?
    ensures var log, k := Run(Step(s, e), events).LogOf(e.jobId), |s.LogOf(e.jobId)|;
            k < |log| && log[k] == e
  {
    StepTouchesOneLog(s, e, e.jobId);
    LogsGrow(Step(s, e), events, e.jobId);
    assert Step(s, e).LogOf(e.jobId)[|s.LogOf(e.jobId)|] == e;
  }

  lemma ReleaseRepeatsWhileExecuting(s: Store, k: nat, again: ArsEvent)
    requires s.Valid() && k < |s.LogOf(again.jobId)|
    requires again.PrincipalReleased? && s.LogOf(again.jobId)[k].PrincipalReleased?
    ensures Append(s, again).Ok? <==> StateOf(s, again.jobId) == Some(EXECUTING)
  {
    var log := s.LogOf(again.jobId);
    AcceptedByState(s, again);
    assert ValidLog(log, again.jobId);
    if StateOf(s, again.jobId) == Some(RELEASABLE) {
      NothingReleasedBefore(log);
      assert log[k] in log;
    }
  }

  /**
   * Once an event is accepted, an event of its type for its job is accepted at a later point of any run
   * exactly if it is a release and the job is then executing. A refusal changes nothing.
   */
  lemma RedeliveryIff(s: Store, e: ArsEvent, events: seq<ArsEvent>, again: ArsEvent)
    requires s.Valid() && Append(s, e).Ok?
    requires again.jobId == e.jobId && SameType(e, again)
    ensures var later := Run(Step(s, e), events);
      && (Append(later, again).Ok? <==> e.PrincipalReleased? && StateOf(later, e.jobId) == Some(EXECUTING))
      && (Append(later, again).Err? ==> Step(later, again) == later)
  {
    var id, later := e.jobId, Run(Step(s, e), events);
    StaysInLog(s, e, events);
    StepIsValid(s, e);
    RunIsValid(Step(s, e), events);
    var log, k := later.LogOf(id), |s.LogOf(id)|;
    if e.PrincipalReleased? {
      ReleaseRepeatsWhileExecuting(later, k, again);
    } else if Append(later, again).Ok? {
      AppendIffReplay(later, again);
      NoSecondOfAType(log + [again], k, |log|);
      assert false;
    }
  }

  // ---------------------------------------------------------------- conservation

  /** Principal released over the listed jobs. */
  function ReleasedOver(ids: seq<string>, jobs: map<string, Job>): int {
    if ids == [] then 0
    else
      var id := ids[|ids| - 1];
      ReleasedOver(ids[..|ids| - 1], jobs) + (if id in jobs then jobs[id].releasedAtomic else 0)
  }

  lemma {:induction false} ReleasedOverUpdate(ids: seq<string>, jobs: map<string, Job>, id: string, job: Job)
    requires forall i, j :: 0 <= i < j < |ids| ==> ids[i] != ids[j]
    ensures ReleasedOver(ids, jobs[id := job]) ==
            ReleasedOver(ids, jobs)
            + (if id !in ids then 0 else job.releasedAtomic - (if id in jobs then jobs[id].releasedAtomic else 0))
  {
    if ids != [] {
      var rest, last := ids[..|ids| - 1], ids[|ids| - 1];
      ReleasedOverUpdate(rest, jobs, id, job);
      assert id in ids <==> id in rest || id == last;
      assert last !in rest;
    }
  }

  /** The same on current jobs alone: an accepted event adds its amount to its own job. */
  lemma AppliedAmount(job: Option<Job>, e: ArsEvent)
    requires ApplyEvent(job, e).Ok?
    ensures ApplyEvent(job, e).value.releasedAtomic ==
            (if job.Some? then job.value.releasedAtomic else 0) + Amount(e)
  {
  }

  lemma StepConserves(s: Store, e: ArsEvent)
    requires s.Valid()
    ensures ReleasedOver(Step(s, e).ids, Step(s, e).Jobs()) ==
            ReleasedOver(s.ids, s.Jobs()) + (if Append(s, e).Ok? then Amount(e) else 0)
  {
    StepRefines(s, e);
    if Append(s, e).Ok? {
      forall id
        ensures id in s.ids <==> id in s.Jobs()
      {
        CurrentIsJob(s, id);
      }
      JobsConserve(s.ids, s.Jobs(), e);
    }
  }

  lemma JobsConserve(ids: seq<string>, jobs: map<string, Job>, e: ArsEvent)
    requires forall i, j :: 0 <= i < j < |ids| ==> ids[i] != ids[j]
    requires forall id :: id in ids <==> id in jobs
    requires ApplyEvent(JobIn(jobs, e.jobId), e).Ok?
    ensures ReleasedOver(if e.jobId in jobs then ids else ids + [e.jobId], StepJobs(jobs, e)) ==
            ReleasedOver(ids, jobs) + Amount(e)
  {
    var id, job := e.jobId, ApplyEvent(JobIn(jobs, e.jobId), e).value;
    AppliedAmount(JobIn(jobs, id), e);
    ReleasedOverUpdate(ids, jobs, id, job);
    assert (ids + [id])[..|ids|] == ids;
  }

  /** Summed over all jobs, released principal is exactly what the accepted releases carried. */
  lemma {:induction false} PrincipalIsConserved(s: Store, events: seq<ArsEvent>)
    requires s.Valid()
    ensures ReleasedOver(Run(s, events).ids, Run(s, events).Jobs()) ==
            ReleasedOver(s.ids, s.Jobs()) + ReleasedSum(Accepted(s, events))
  {
    if events != [] {
      var earlier, e := events[..|events| - 1], events[|events| - 1];
      RunIsValid(s, earlier);
      PrincipalIsConserved(s, earlier);
      StepConserves(Run(s, earlier), e);
      TotalSnoc(Accepted(s, earlier), e, Amount);
    }
  }

  lemma JobOfLog(s: Store, id: string)
    requires s.Valid() && id in s.logs
    ensures id in s.Jobs() && s.Jobs()[id].releasedAtomic == ReleasedSum(s.LogOf(id))
  {
    assert ValidLog(s.logs[id], id);
    AcceptedForm(s.logs[id]);
  }

  /** And per job: the sum over its log, which is the sum over its accepted events. */
  lemma PrincipalPerJob(s: Store, events: seq<ArsEvent>, id: string)
    requires s.Valid() && id in Run(s, events).logs
    ensures id in Run(s, events).Jobs()
    ensures Run(s, events).Jobs()[id].releasedAtomic == ReleasedSum(Run(s, events).LogOf(id))
    ensures Run(s, events).Jobs()[id].releasedAtomic ==
            ReleasedSum(s.LogOf(id)) + ReleasedSum(Only(Accepted(s, events), id))
  {
    RunIsValid(s, events);
    JobOfLog(Run(s, events), id);
    LogHoldsAccepted(s, events, id);
    TotalConcat(s.LogOf(id), Only(Accepted(s, events), id), Amount);
  }
}
