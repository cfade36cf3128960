/** Progress: every accepted event moves a job towards an end that it can always reach. */
module Progress {
  import opened Events
  import opened StateMachine
  import opened Language
  import opened Histories

  function Rank(state: PrincipalState): nat {
    match state
    case AWAIT_UNDERWRITING => 0
    case UNDERWRITING => 1
    case RELEASABLE => 2
    case EXECUTING => 3
    case EVIDENCE_SUBMITTED => 4
    case DISPUTED => 5
    case REJECTED => 6
    case CLOSED => 6
  }

  /** The rank grows with every accepted event but a repeated release. */
  lemma RankGrows(job: Job, e: ArsEvent)
    requires ApplyEvent(Some(job), e).Ok?
    ensures var next := ApplyEvent(Some(job), e).value;
            if job.state == EXECUTING && e.PrincipalReleased? then next.state == EXECUTING
            else Rank(job.state) < Rank(next.state)
  {
    AcceptedIffNext(job, e);
  }

  lemma LastStep(log: seq<ArsEvent>, j: nat)
    requires Replay(log).Ok? && 1 < j <= |log|
    ensures Replay(log[..j - 1]).Ok? && Replay(log[..j]) == ApplyEvent(Some(Replay(log[..j - 1]).value), log[j - 1])
  {
    AcceptedPrefix(log, j - 1);
    assert log[..j] == log[..j - 1] + [log[j - 1]];
    RunLogSnoc(log[..j - 1], log[j - 1]);
  }

  /**
   * No state is entered twice: along an accepted log the rank never falls, and it stands still only while
   * the job executes, between releases.
   */
  lemma {:induction false} NoWayBack(log: seq<ArsEvent>, i: nat, j: nat)
    requires Replay(log).Ok? && 0 < i < j <= |log|
    ensures Replay(log[..i]).Ok? && Replay(log[..j]).Ok?
    ensures var before, after := Replay(log[..i]).value.state, Replay(log[..j]).value.state;
      || Rank(before) < Rank(after)
      || (before == after == EXECUTING && forall k :: i <= k < j ==> log[k].PrincipalReleased?)
    decreases j
  {
    AcceptedPrefix(log, i);
    AcceptedPrefix(log, j);
    LastStep(log, j);
    RankGrows(Replay(log[..j - 1]).value, log[j - 1]);
    if i < j - 1 {
      NoWayBack(log, i, j - 1);
    }
  }

  /** Events that take a job on, one after the other. */
  function Continue(job: Job, events: seq<ArsEvent>): Result<Job, TransitionError>
    decreases |events|
  {
    if events == [] then Ok(job)
    else
      match ApplyEvent(Some(job), events[0])
      case Err(error) => Err(error)
      case Ok(next) => Continue(next, events[1..])
  }

  /** Continuing a derived job is the same as replaying the longer log. */
  lemma {:induction false} ContinueIsReplay(log: seq<ArsEvent>, events: seq<ArsEvent>)
    requires Replay(log).Ok?
    ensures Continue(Replay(log).value, events) == Replay(log + events)
    decreases |events|
  {
    if events == [] {
      assert log + events == log;
    } else {
      RunLogSnoc(log, events[0]);
      assert log + events == log + [events[0]] + events[1..];
      if Replay(log + [events[0]]).Ok? {
        ContinueIsReplay(log + [events[0]], events[1..]);
      } else {
        assert (log + events)[..|log| + 1] == log + [events[0]];
        RejectionSticks(log + events, |log| + 1);
      }
    }
  }

  function StepsToEnd(state: PrincipalState): nat {
    match state
    case REJECTED => 0
    case CLOSED => 0
    case UNDERWRITING => 1
    case EVIDENCE_SUBMITTED => 1
    case DISPUTED => 1
    case AWAIT_UNDERWRITING => 2
    case EXECUTING => 2
    case RELEASABLE => 3
  }

  /** The shortest way out of a state. */
  function WayOut(job: Job): seq<ArsEvent> {
    var decline := UnderwritingDecided(job.jobId, 0, false, None);
    var evidence := EvidenceSubmitted(job.jobId, 0, "", Succeeded);
    var close := Closed(job.jobId, 0, NoDispute);
    match job.state
    case REJECTED => []
    case CLOSED => []
    case AWAIT_UNDERWRITING => [UnderwritingStarted(job.jobId, 0), decline]
    case UNDERWRITING => [decline]
    case RELEASABLE => [PrincipalReleased(job.jobId, 0, 0), evidence, close]
    case EXECUTING => [evidence, close]
    case EVIDENCE_SUBMITTED => [close]
    case DISPUTED => [close]
  }

  /** No deadlock: every job reaches an end in at most three events, and not in fewer than its distance. */
  lemma {:induction false} EndIsReachable(job: Job)
    ensures |WayOut(job)| == StepsToEnd(job.state) <= 3
    ensures Continue(job, WayOut(job)).Ok? && IsTerminal(Continue(job, WayOut(job)).value.state)
    decreases StepsToEnd(job.state)
  {
    var way := WayOut(job);
    if way != [] {
      var next := ApplyEvent(Some(job), way[0]).value;
      EndIsReachable(next);
      assert way[1..] == WayOut(next);
    }
  }

  lemma {:induction false} NoShorterWay(job: Job, events: seq<ArsEvent>)
    requires Continue(job, events).Ok? && IsTerminal(Continue(job, events).value.state)
    ensures |events| >= StepsToEnd(job.state)
    decreases |events|
  {
    if events != [] {
      var next := ApplyEvent(Some(job), events[0]).value;
      NoShorterWay(next, events[1..]);
      AcceptedIffNext(job, events[0]);
      assert StepsToEnd(job.state) <= StepsToEnd(next.state) + 1;
    }
  }

  /** The terminal states are exactly those in which no event whatsoever is accepted. */
  lemma TerminalIffStuck(job: Job)
    ensures IsTerminal(job.state) <==> forall e :: ApplyEvent(Some(job), e).Err?
  {
    if !IsTerminal(job.state) {
      EndIsReachable(job);
      assert ApplyEvent(Some(job), WayOut(job)[0]).Ok?;
    }
  }

  ghost predicate Reachable(job: Job) {
    exists log :: Replay(log) == Ok(job)
  }

  /** The events of the longest way to a given job, in order. */
  function Event(job: Job, step: nat): ArsEvent
    requires step < 6
  {
    var id, at := job.jobId, job.lastEventAt;
    match step
    case 0 => JobOpened(id, at, job.agent, job.requestor, job.exposureAtomic)
    case 1 => UnderwritingStarted(id, at)
    case 2 => UnderwritingDecided(id, at, job.state != REJECTED, None)
    case 3 => PrincipalReleased(id, at, job.releasedAtomic)
    case 4 => EvidenceSubmitted(id, at, "", Succeeded)
    case 5 => if job.state == DISPUTED then Disputed(id, at, "") else Closed(id, at, NoDispute)
  }

  function Witness(job: Job, length: nat): seq<ArsEvent>
    requires length <= 6
  {
    if length == 0 then [] else Witness(job, length - 1) + [Event(job, length - 1)]
  }

  /** The job after so many events of the witness. */
  function Stage(job: Job, length: nat): Job
    requires 1 <= length <= 6
  {
    job.(state := StateAfter(Event(job, length - 1)), releasedAtomic := if length >= 4 then job.releasedAtomic else 0)
  }

  function WitnessLength(state: PrincipalState): nat {
    match state
    case AWAIT_UNDERWRITING => 1
    case UNDERWRITING => 2
    case REJECTED => 3
    case RELEASABLE => 3
    case EXECUTING => 4
    case EVIDENCE_SUBMITTED => 5
    case DISPUTED => 6
    case CLOSED => 6
  }

  lemma StageStep(job: Job, length: nat)
    requires 1 <= length <= WitnessLength(job.state)
    ensures ApplyEvent(if length == 1 then None else Some(Stage(job, length - 1)), Event(job, length - 1)) ==
            Ok(Stage(job, length))
  {
    assert length == 1 || length == 2 || length == 3 || length == 4 || length == 5 || length == 6;
  }

  function StageBefore(job: Job, length: nat): Option<Job>
    requires length <= 6
  {
    if length == 0 then None else Some(Stage(job, length))
  }

  lemma WitnessStep(job: Job, log: seq<ArsEvent>, length: nat)
    requires 1 <= length <= WitnessLength(job.state)
    requires RunLog(log) == Ok(StageBefore(job, length - 1))
    ensures RunLog(log + [Event(job, length - 1)]) == Ok(StageBefore(job, length))
  {
    StageStep(job, length);
    RunLogSnoc(log, Event(job, length - 1));
  }

  lemma {:induction false} WitnessLeadsTo(job: Job, length: nat)
    requires length <= WitnessLength(job.state)
    ensures RunLog(Witness(job, length)) == Ok(StageBefore(job, length))
  {
    if length > 0 {
      WitnessLeadsTo(job, length - 1);
      WitnessStep(job, Witness(job, length - 1), length);
    }
  }

  lemma StageIsJob(job: Job)
    requires job.state in {AWAIT_UNDERWRITING, UNDERWRITING, REJECTED, RELEASABLE} ==> job.releasedAtomic == 0
    ensures Stage(job, WitnessLength(job.state)) == job
  {
  }

  /**
   * The reachable jobs are exactly those that have released nothing before they execute. Nothing
   * else is enforced: times need not grow, and a release may be negative or above the exposure.
   */
  lemma ReachableExactly(job: Job)
    ensures Reachable(job) <==>
      (job.state in {AWAIT_UNDERWRITING, UNDERWRITING, REJECTED, RELEASABLE} ==> job.releasedAtomic == 0)
  {
    if Reachable(job) {
      var log :| Replay(log) == Ok(job);
      if job.state in {AWAIT_UNDERWRITING, UNDERWRITING, REJECTED, RELEASABLE} {
        NothingReleasedBefore(log);
      }
    }
    if job.state in {AWAIT_UNDERWRITING, UNDERWRITING, REJECTED, RELEASABLE} ==> job.releasedAtomic == 0 {
      WitnessLeadsTo(job, WitnessLength(job.state));
      StageIsJob(job);
      assert Replay(Witness(job, WitnessLength(job.state))) == Ok(job);
    }
  }
}
