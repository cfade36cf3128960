/** The transition function of the principal track and the fold that derives a job (src/state.ts). */
module StateMachine {
  import opened Events

  datatype PrincipalState =
    | AWAIT_UNDERWRITING
    | UNDERWRITING
    | REJECTED
    | RELEASABLE
    | EXECUTING
    | EVIDENCE_SUBMITTED
    | DISPUTED
    | CLOSED

  datatype Job = Job(
    jobId: string,
    agent: string,
    requestor: string,
    exposureAtomic: int,
    state: PrincipalState,
    releasedAtomic: int,
    lastEventAt: int)

  /** One constructor for each place that throws `ARSTransitionError`. */
  datatype TransitionError = JobAlreadyExists | UnknownJob | JobIdMismatch | JobIsTerminal | NotAllowed | EmptyLog

  predicate IsTerminal(state: PrincipalState) {
    state in {REJECTED, CLOSED}
  }

  function To(job: Job, state: PrincipalState, event: ArsEvent): Job {
    job.(state := state, lastEventAt := event.at)
  }

  function ApplyEvent(job: Option<Job>, event: ArsEvent): Result<Job, TransitionError> {
    if event.JobOpened? then
      if job.Some? then Err(JobAlreadyExists)
      else Ok(Job(event.jobId, event.agent, event.requestor, event.exposureAtomic, AWAIT_UNDERWRITING, 0, event.at))
    else if job.None? then Err(UnknownJob)
    else if job.value.jobId != event.jobId then Err(JobIdMismatch)
    else if IsTerminal(job.value.state) then Err(JobIsTerminal)
    else
      var j := job.value;
      match event
      case UnderwritingStarted(_, _) =>
        if j.state == AWAIT_UNDERWRITING then Ok(To(j, UNDERWRITING, event)) else Err(NotAllowed)
      case UnderwritingDecided(_, _, passed, _) =>
        if j.state != UNDERWRITING then Err(NotAllowed)
        else Ok(To(j, if passed then RELEASABLE else REJECTED, event))
      case PrincipalReleased(_, _, amount) =>
        if j.state != RELEASABLE && j.state != EXECUTING then Err(NotAllowed)
        else Ok(To(j.(releasedAtomic := j.releasedAtomic + amount), EXECUTING, event))
      case EvidenceSubmitted(_, _, _, _) =>
        if j.state == EXECUTING then Ok(To(j, EVIDENCE_SUBMITTED, event)) else Err(NotAllowed)
      case Disputed(_, _, _) =>
        if j.state == EVIDENCE_SUBMITTED then Ok(To(j, DISPUTED, event)) else Err(NotAllowed)
      case Closed(_, _, _) =>
        if j.state == EVIDENCE_SUBMITTED || j.state == DISPUTED then Ok(To(j, CLOSED, event)) else Err(NotAllowed)
  }

  /** The fold over a log: no job before the first event, and the first rejection ends it. */
  function RunLog(log: seq<ArsEvent>): Result<Option<Job>, TransitionError> {
    if log == [] then Ok(None)
    else
      match RunLog(log[..|log| - 1])
      case Err(error) => Err(error)
      case Ok(job) =>
        match ApplyEvent(job, log[|log| - 1])
        case Err(error) => Err(error)
        case Ok(next) => Ok(Some(next))
  }

  function Replay(log: seq<ArsEvent>): Result<Job, TransitionError> {
    match RunLog(log)
    case Err(error) => Err(error)
    case Ok(None) => Err(EmptyLog)
    case Ok(Some(job)) => Ok(job)
  }

  lemma RunLogSnoc(log: seq<ArsEvent>, e: ArsEvent)
    ensures RunLog(log + [e]) ==
            match RunLog(log)
            case Err(error) => Err(error)
            case Ok(job) =>
              match ApplyEvent(job, e)
              case Err(error) => Err(error)
              case Ok(next) => Ok(Some(next))
  {
    assert (log + [e])[..|log|] == log;
  }

  /** A rejected prefix decides the whole log. */
  lemma {:induction false} RejectionSticks(log: seq<ArsEvent>, i: nat)
    requires i <= |log| && RunLog(log[..i]).Err?
    ensures RunLog(log) == RunLog(log[..i])
    decreases |log|
  {
    if i < |log| {
      var rest := log[..|log| - 1];
      assert rest[..i] == log[..i];
      RejectionSticks(rest, i);
    } else {
      assert log[..i] == log;
    }
  }

  /** A log is accepted event by event, so all its beginnings are. */
  lemma AcceptedPrefix(log: seq<ArsEvent>, i: nat)
    requires Replay(log).Ok? && 0 < i <= |log|
    ensures Replay(log[..i]).Ok?
  {
    if RunLog(log[..i]).Err? {
      RejectionSticks(log, i);
    }
  }

  /** The loop of `replay`: it stops at the first illegal event. */
  method ReplayLoop(events: seq<ArsEvent>) returns (r: Result<Job, TransitionError>)
    ensures r == Replay(events)
  {
    var job: Option<Job> := None;
    for i := 0 to |events|
      invariant RunLog(events[..i]) == Ok(job)
    {
      assert events[..i + 1] == events[..i] + [events[i]];
      RunLogSnoc(events[..i], events[i]);
      match ApplyEvent(job, events[i])
      case Err(error) =>
        RejectionSticks(events, i + 1);
        return Err(error);
      case Ok(next) =>
        job := Some(next);
    }
    assert events[..|events|] == events;
    match job
    case None => return Err(EmptyLog);
    case Some(j) => return Ok(j);
  }
}
