/**
 * The Python implementation of the state machine (python/src/telaro_ars/state.py): an `isinstance`
 * chain and a loop that starts from `None`.
 */
module PythonState {
  import opened Events
  import opened StateMachine
  import opened Language

  predicate PyIsTerminal(state: PrincipalState) {
    state == REJECTED || state == CLOSED
  }

  function Replace(job: Job, state: PrincipalState, releasedAtomic: int, event: ArsEvent): Job {
    Job(job.jobId, job.agent, job.requestor, job.exposureAtomic, state, releasedAtomic, event.at)
  }

  function PyApplyEvent(job: Option<Job>, event: ArsEvent): Result<Job, TransitionError> {
    if event.JobOpened? then
      if job != None then Err(JobAlreadyExists)
      else Ok(Job(jobId := event.jobId, agent := event.agent, requestor := event.requestor,
                  exposureAtomic := event.exposureAtomic, state := AWAIT_UNDERWRITING,
                  releasedAtomic := 0, lastEventAt := event.at))
    else if job == None then Err(UnknownJob)
    else
      var j := job.value;
      if j.jobId != event.jobId then Err(JobIdMismatch)
      else if PyIsTerminal(j.state) then Err(JobIsTerminal)
      else if event.UnderwritingStarted? then
        if j.state != AWAIT_UNDERWRITING then Err(NotAllowed)
        else Ok(Replace(j, UNDERWRITING, j.releasedAtomic, event))
      else if event.UnderwritingDecided? then
        if j.state != UNDERWRITING then Err(NotAllowed)
        else Ok(Replace(j, if event.passed then RELEASABLE else REJECTED, j.releasedAtomic, event))
      else if event.PrincipalReleased? then
        if j.state !in {RELEASABLE, EXECUTING} then Err(NotAllowed)
        else Ok(Replace(j, EXECUTING, j.releasedAtomic + event.amountAtomic, event))
      else if event.EvidenceSubmitted? then
        if j.state != EXECUTING then Err(NotAllowed)
        else Ok(Replace(j, EVIDENCE_SUBMITTED, j.releasedAtomic, event))
      else if event.Disputed? then
        if j.state != EVIDENCE_SUBMITTED then Err(NotAllowed)
        else Ok(Replace(j, DISPUTED, j.releasedAtomic, event))
      else
        // `Closed`, the last class of the union
        if j.state !in {EVIDENCE_SUBMITTED, DISPUTED} then Err(NotAllowed)
        else Ok(Replace(j, CLOSED, j.releasedAtomic, event))
  }

  /** The rest of the loop, from the job it holds. */
  function PyReplayFrom(job: Option<Job>, events: seq<ArsEvent>): Result<Job, TransitionError>
    decreases |events|
  {
    if events == [] then
      if job == None then Err(EmptyLog) else Ok(job.value)
    else
      match PyApplyEvent(job, events[0])
      case Err(error) => Err(error)
      case Ok(next) => PyReplayFrom(Some(next), events[1..])
  }

  function PyReplay(events: seq<ArsEvent>): Result<Job, TransitionError> {
    PyReplayFrom(None, events)
  }

  method PyReplayLoop(events: seq<ArsEvent>) returns (r: Result<Job, TransitionError>)
    ensures r == PyReplay(events)
  {
    var job: Option<Job> := None;
    for i := 0 to |events|
      invariant PyReplay(events) == PyReplayFrom(job, events[i..])
    {
      match PyApplyEvent(job, events[i])
      case Err(error) => return Err(error);
      case Ok(next) => job := Some(next);
    }
    return if job == None then Err(EmptyLog) else Ok(job.value);
  }

  lemma TransitionsAgree(job: Option<Job>, event: ArsEvent)
    ensures PyApplyEvent(job, event) == ApplyEvent(job, event)
  {
  }

  lemma {:induction false} LoopMeetsFold(log: seq<ArsEvent>, i: nat)
    requires i <= |log| && RunLog(log[..i]).Ok?
    ensures PyReplayFrom(RunLog(log[..i]).value, log[i..]) == Replay(log)
    decreases |log| - i
  {
    if i == |log| {
      assert log[..i] == log;
    } else {
      var job := RunLog(log[..i]).value;
      RunLogSnoc(log[..i], log[i]);
      assert log[..i + 1] == log[..i] + [log[i]];
      TransitionsAgree(job, log[i]);
      if ApplyEvent(job, log[i]).Ok? {
        LoopMeetsFold(log, i + 1);
        assert log[i..][1..] == log[i + 1..];
      } else {
        RejectionSticks(log, i + 1);
      }
    }
  }

  /** The two implementations agree on every log, in the job derived and in the kind of rejection. */
  lemma ImplementationsAgree(log: seq<ArsEvent>)
    ensures PyReplay(log) == Replay(log)
    ensures PyReplay(log).Ok? <==> Lifecycle(log)
  {
    assert log[..0] == [] && log[0..] == log;
    LoopMeetsFold(log, 0);
    ExactLanguage(log);
  }
}
