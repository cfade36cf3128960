/** The event store as a value: per-job logs under insertion-ordered keys, validated on append (src/store.ts). */
module EventStore {
  import opened Events
  import opened StateMachine
  import opened Language

  datatype Store = Store(ids: seq<string>, logs: map<string, seq<ArsEvent>>) {

    /** `log(jobId)`: empty for a job never seen. */
    function LogOf(id: string): seq<ArsEvent> {
      if id in logs then logs[id] else []
    }

    /** Keys are listed once each, and every stored log is a non-empty accepted log of its own key. */
    ghost predicate Valid() {
      && (forall i, j :: 0 <= i < j < |ids| ==> ids[i] != ids[j])
      && (forall id :: id in ids <==> id in logs)
      && (forall id :: id in logs ==> ValidLog(logs[id], id))
    }

    /** The abstract store: one current job per id, no history. */
    ghost function Jobs(): map<string, Job> {
      map id | id in logs && Replay(logs[id]).Ok? :: Replay(logs[id]).value
    }
  }

  ghost predicate ValidLog(log: seq<ArsEvent>, id: string) {
    log != [] && Replay(log).Ok? && log[0].jobId == id
  }

  const EMPTY := Store([], map[])

  /** `existing.length > 0 ? replay(existing) : null` */
  function Current(log: seq<ArsEvent>): Result<Option<Job>, TransitionError> {
    if |log| > 0 then
      match Replay(log)
      case Err(error) => Err(error)
      case Ok(job) => Ok(Some(job))
    else Ok(None)
  }

  /** `Map.set`: a new key goes last, an old one keeps its place. */
  function Put(s: Store, id: string, log: seq<ArsEvent>): Store {
    Store(if id in s.logs then s.ids else s.ids + [id], s.logs[id := log])
  }

  function Append(s: Store, e: ArsEvent): Result<Store, TransitionError> {
    var existing := s.LogOf(e.jobId);
    match Current(existing)
    case Err(error) => Err(error)
    case Ok(current) =>
      match ApplyEvent(current, e)
      case Err(error) => Err(error)
      case Ok(_) => Ok(Put(s, e.jobId, existing + [e]))
  }

  /** One call: a rejected event leaves the store as it was. */
  function Step(s: Store, e: ArsEvent): Store {
    match Append(s, e)
    case Ok(next) => next
    case Err(_) => s
  }

  function Verdict(s: Store, e: ArsEvent): Option<TransitionError> {
    match Append(s, e)
    case Ok(_) => None
    case Err(error) => Some(error)
  }

  /** A run: any events at all, in the order the calls arrive. */
  function Run(s: Store, events: seq<ArsEvent>): Store {
    if events == [] then s else Step(Run(s, events[..|events| - 1]), events[|events| - 1])
  }

  /** The store's answer to each event of a run. */
  function Verdicts(s: Store, events: seq<ArsEvent>): seq<Option<TransitionError>> {
    if events == [] then []
    else
      var earlier, e := events[..|events| - 1], events[|events| - 1];
      Verdicts(s, earlier) + [Verdict(Run(s, earlier), e)]
  }

  /** The store's answers to the events of one job only. */
  function VerdictsOn(s: Store, events: seq<ArsEvent>, id: string): seq<Option<TransitionError>> {
    if events == [] then []
    else
      var earlier, e := events[..|events| - 1], events[|events| - 1];
      var answers := VerdictsOn(s, earlier, id);
      if e.jobId == id then answers + [Verdict(Run(s, earlier), e)] else answers
  }

  /** The events of a run that the store accepted. */
  function Accepted(s: Store, events: seq<ArsEvent>): seq<ArsEvent> {
    if events == [] then []
    else
      var earlier, e := events[..|events| - 1], events[|events| - 1];
      if Verdict(Run(s, earlier), e).None? then Accepted(s, earlier) + [e] else Accepted(s, earlier)
  }

  lemma RunSnoc(s: Store, events: seq<ArsEvent>, e: ArsEvent)
    ensures Run(s, events + [e]) == Step(Run(s, events), e)
    ensures Verdicts(s, events + [e]) == Verdicts(s, events) + [Verdict(Run(s, events), e)]
    ensures Accepted(s, events + [e]) ==
            if Verdict(Run(s, events), e).None? then Accepted(s, events) + [e] else Accepted(s, events)
  {
    assert (events + [e])[..|events|] == events;
  }

  lemma {:induction false} RunConcat(s: Store, a: seq<ArsEvent>, b: seq<ArsEvent>)
    ensures Run(s, a + b) == Run(Run(s, a), b)
    decreases |b|
  {
    if b == [] {
      assert a + b == a;
    } else {
      var rest, e := b[..|b| - 1], b[|b| - 1];
      assert a + b == (a + rest) + [e];
      RunConcat(s, a, rest);
      RunSnoc(s, a + rest, e);
    }
  }

  /** The validation replays the log, so it asks whether the longer log is accepted. */
  lemma AppendIffReplay(s: Store, e: ArsEvent)
    ensures Append(s, e).Ok? <==> Replay(s.LogOf(e.jobId) + [e]).Ok?
    ensures Append(s, e).Ok? <==> Lifecycle(s.LogOf(e.jobId) + [e])
    ensures Append(s, e).Err? ==> Replay(s.LogOf(e.jobId) + [e]) == Err(Append(s, e).error)
  {
    RunLogSnoc(s.LogOf(e.jobId), e);
    ExactLanguage(s.LogOf(e.jobId) + [e]);
    CurrentIsRunLog(s.LogOf(e.jobId));
  }

  lemma CurrentIsRunLog(log: seq<ArsEvent>)
    ensures Current(log) == RunLog(log)
  {
    if log != [] {
      RunLogSnoc(log[..|log| - 1], log[|log| - 1]);
      assert log == log[..|log| - 1] + [log[|log| - 1]];
    }
  }

  /** Every call keeps the store valid. */
  lemma StepIsValid(s: Store, e: ArsEvent)
    requires s.Valid()
    ensures Step(s, e).Valid()
  {
    if Append(s, e).Ok? {
      var id := e.jobId;
      var log := s.LogOf(id) + [e];
      AppendIffReplay(s, e);
      AcceptedForm(log);
      assert ValidLog(log, id) by {
        assert log[|log| - 1].jobId == log[0].jobId;
      }
      var next := Put(s, id, log);
      assert forall i :: 0 <= i < |s.ids| ==> next.ids[i] == s.ids[i];
      assert forall other :: other in next.ids <==> other in s.ids || other == id;
    }
  }

  lemma {:induction false} RunIsValid(s: Store, events: seq<ArsEvent>)
    requires s.Valid()
    ensures Run(s, events).Valid()
  {
    if events != [] {
      RunIsValid(s, events[..|events| - 1]);
      StepIsValid(Run(s, events[..|events| - 1]), events[|events| - 1]);
    }
  }

  /** Why a valid store refuses an event: never for a job id that differs or an empty log. */
  lemma RefusalInStore(s: Store, e: ArsEvent)
    requires s.Valid() && Append(s, e).Err?
    ensures Append(s, e).error == Diagnosis(s.LogOf(e.jobId), e)
    ensures Append(s, e).error in {UnknownJob, JobAlreadyExists, JobIsTerminal, NotAllowed}
    ensures Append(s, e).error == UnknownJob <==> e.jobId !in s.logs
    ensures Append(s, e).error == JobAlreadyExists <==> e.JobOpened?
  {
    var log := s.LogOf(e.jobId);
    AppendIffReplay(s, e);
    if log != [] {
      assert ValidLog(log, e.jobId);
      DiagnosisOfStep(log, e);
      AcceptedForm(log);
    } else {
      DiagnosisOfStep([], e);
      assert [] + [e] == log + [e];
      if e.JobOpened? {
        RunLogSnoc([], e);
      }
    }
  }

  function JobIn(jobs: map<string, Job>, id: string): Option<Job> {
    if id in jobs then Some(jobs[id]) else None
  }

  /** One step of the abstract store, which keeps no history. */
  ghost function StepJobs(jobs: map<string, Job>, e: ArsEvent): map<string, Job> {
    match ApplyEvent(JobIn(jobs, e.jobId), e)
    case Err(_) => jobs
    case Ok(job) => jobs[e.jobId := job]
  }

  ghost function RunJobs(jobs: map<string, Job>, events: seq<ArsEvent>): map<string, Job> {
    if events == [] then jobs else StepJobs(RunJobs(jobs, events[..|events| - 1]), events[|events| - 1])
  }

  /** What the abstract store answers to one event, and to each event of a run. */
  ghost function Answer(jobs: map<string, Job>, e: ArsEvent): Option<TransitionError> {
    match ApplyEvent(JobIn(jobs, e.jobId), e)
    case Err(error) => Some(error)
    case Ok(_) => None
  }

  ghost function Answers(jobs: map<string, Job>, events: seq<ArsEvent>): seq<Option<TransitionError>> {
    if events == [] then []
    else
      var earlier, e := events[..|events| - 1], events[|events| - 1];
      Answers(jobs, earlier) + [Answer(RunJobs(jobs, earlier), e)]
  }

  lemma CurrentIsJob(s: Store, id: string)
    requires s.Valid()
    ensures id in s.Jobs() <==> id in s.logs
    ensures Current(s.LogOf(id)) == Ok(JobIn(s.Jobs(), id))
  {
    if id in s.logs {
      assert ValidLog(s.logs[id], id);
    }
  }

  lemma AppendDerives(s: Store, e: ArsEvent)
    requires Current(s.LogOf(e.jobId)) == Ok(JobIn(s.Jobs(), e.jobId))
    requires Append(s, e).Ok?
    ensures Replay(s.LogOf(e.jobId) + [e]) == ApplyEvent(JobIn(s.Jobs(), e.jobId), e)
  {
    CurrentIsRunLog(s.LogOf(e.jobId));
    RunLogSnoc(s.LogOf(e.jobId), e);
  }

  lemma PutJob(s: Store, id: string, log: seq<ArsEvent>)
    requires Replay(log).Ok?
    ensures Put(s, id, log).Jobs() == s.Jobs()[id := Replay(log).value]
  {
  }

  /** The replaying store refines the one that only remembers current jobs. */
  lemma StepRefines(s: Store, e: ArsEvent)
    requires s.Valid()
    ensures Step(s, e).Jobs() == StepJobs(s.Jobs(), e)
    ensures Verdict(s, e) == Answer(s.Jobs(), e)
  {
    CurrentIsJob(s, e.jobId);
    if Append(s, e).Ok? {
      AppendDerives(s, e);
      PutJob(s, e.jobId, s.LogOf(e.jobId) + [e]);
    }
  }

  lemma {:induction false} RunRefines(s: Store, events: seq<ArsEvent>)
    requires s.Valid()
    ensures Run(s, events).Valid()
    ensures Run(s, events).Jobs() == RunJobs(s.Jobs(), events)
    ensures Verdicts(s, events) == Answers(s.Jobs(), events)
  {
    RunIsValid(s, events);
    if events != [] {
      var earlier := events[..|events| - 1];
      RunIsValid(s, earlier);
      RunRefines(s, earlier);
      StepRefines(Run(s, earlier), events[|events| - 1]);
    }
  }
}
