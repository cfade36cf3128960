/**
 * What a job log may say. The accepted logs are given here as words, without a state machine:
 * the non-empty prefixes of
 *     Opened Started Declined
 *     Opened Started Approved Released+ Evidence Dispute? Closing
 * The theorems say that the fold accepts exactly these, and what job it derives from them.
 */
module Language {
  import opened Events
  import opened StateMachine

  datatype Kind = Opened | Started | Declined | Approved | Released | Evidence | Dispute | Closing

  function KindOf(e: ArsEvent): Kind {
    match e
    case JobOpened(_, _, _, _, _) => Opened
    case UnderwritingStarted(_, _) => Started
    case UnderwritingDecided(_, _, passed, _) => if passed then Approved else Declined
    case PrincipalReleased(_, _, _) => Released
    case EvidenceSubmitted(_, _, _, _) => Evidence
    case Disputed(_, _, _) => Dispute
    case Closed(_, _, _) => Closing
  }

  function Kinds(log: seq<ArsEvent>): (ks: seq<Kind>)
    ensures |ks| == |log|
    ensures forall i :: 0 <= i < |log| ==> ks[i] == KindOf(log[i])
  {
    seq(|log|, i requires 0 <= i < |log| => KindOf(log[i]))
  }

  const DECLINED_WORD: seq<Kind> := [Opened, Started, Declined]

  /** The complete word of a funded job with n releases. */
  function FundedWord(n: nat, disputed: bool): seq<Kind> {
    Executing(n) + [Evidence] + (if disputed then [Dispute] else []) + [Closing]
  }

  function Executing(n: nat): (ks: seq<Kind>)
    ensures |ks| == 3 + n
    ensures ks[0] == Opened && ks[1] == Started && ks[2] == Approved
    ensures forall i :: 3 <= i < 3 + n ==> ks[i] == Released
  {
    [Opened, Started, Approved] + seq(n, _ => Released)
  }

  ghost predicate LegalPrefix(ks: seq<Kind>) {
    ks <= DECLINED_WORD || exists n: nat, disputed: bool :: n >= 1 && ks <= FundedWord(n, disputed)
  }

  predicate OneJob(log: seq<ArsEvent>) {
    forall i :: 0 <= i < |log| ==> log[i].jobId == log[0].jobId
  }

  ghost predicate Lifecycle(log: seq<ArsEvent>) {
    log != [] && OneJob(log) && LegalPrefix(Kinds(log))
  }

  /** The state is a function of the last event alone. */
  function StateAfter(e: ArsEvent): PrincipalState {
    match KindOf(e)
    case Opened => AWAIT_UNDERWRITING
    case Started => UNDERWRITING
    case Declined => REJECTED
    case Approved => RELEASABLE
    case Released => EXECUTING
    case Evidence => EVIDENCE_SUBMITTED
    case Dispute => DISPUTED
    case Closing => CLOSED
  }

  function ReleasedSum(log: seq<ArsEvent>): int {
    Total(log, Amount)
  }

  function Releases(log: seq<ArsEvent>): (n: nat)
    ensures n == Total(log, One)
  {
    ReleasesNonNegative(log);
    Total(log, One)
  }

  lemma ReleasesNonNegative(log: seq<ArsEvent>)
    ensures Total(log, One) >= 0
  {
  }

  /** The job a log stands for, read off its two ends and its releases. */
  function ClosedForm(log: seq<ArsEvent>): Job
    requires log != [] && log[0].JobOpened?
  {
    var first, last := log[0], log[|log| - 1];
    Job(first.jobId, first.agent, first.requestor, first.exposureAtomic,
        StateAfter(last), ReleasedSum(log), last.at)
  }

  /** The word behind a state: what the log must look like when the job is in it, after n releases. */
  predicate Shape(ks: seq<Kind>, state: PrincipalState, n: nat) {
    match state
    case AWAIT_UNDERWRITING => n == 0 && ks == [Opened]
    case UNDERWRITING => n == 0 && ks == [Opened, Started]
    case REJECTED => n == 0 && ks == DECLINED_WORD
    case RELEASABLE => n == 0 && ks == Executing(0)
    case EXECUTING => n >= 1 && ks == Executing(n)
    case EVIDENCE_SUBMITTED => n >= 1 && ks == Executing(n) + [Evidence]
    case DISPUTED => n >= 1 && ks == Executing(n) + [Evidence, Dispute]
    case CLOSED => n >= 1 && (ks == FundedWord(n, false) || ks == FundedWord(n, true))
  }

  function Successor(k: Kind, n: nat): nat {
    if k == Released then n + 1 else n
  }

  /** One accepted event extends the shape. */
  lemma ShapeStep(ks: seq<Kind>, job: Job, e: ArsEvent, n: nat)
    requires Shape(ks, job.state, n)
    requires ApplyEvent(Some(job), e).Ok?
    ensures Shape(ks + [KindOf(e)], ApplyEvent(Some(job), e).value.state, Successor(KindOf(e), n))
  {
    if e.PrincipalReleased? {
      assert Executing(n) + [Released] == Executing(n + 1);
    } else if e.Disputed? {
      assert Executing(n) + [Evidence] + [Dispute] == Executing(n) + [Evidence, Dispute];
    } else if e.Closed? {
      assert Executing(n) + [Evidence] + [Closing] == FundedWord(n, false);
      assert Executing(n) + [Evidence, Dispute] + [Closing] == FundedWord(n, true);
    }
  }

  lemma ClosedFormStep(log: seq<ArsEvent>, e: ArsEvent)
    requires log != [] && log[0].JobOpened?
    requires ApplyEvent(Some(ClosedForm(log)), e).Ok?
    ensures e.jobId == log[0].jobId
    ensures ApplyEvent(Some(ClosedForm(log)), e).value == ClosedForm(log + [e])
  {
    TotalSnoc(log, e, Amount);
  }

  /** What an accepted log is, and what is derived from it. */
  lemma {:induction false} AcceptedForm(log: seq<ArsEvent>)
    requires Replay(log).Ok?
    ensures log != [] && OneJob(log) && log[0].JobOpened?
    ensures Replay(log).value == ClosedForm(log)
  {
    var rest, e := log[..|log| - 1], log[|log| - 1];
    assert log == rest + [e];
    RunLogSnoc(rest, e);
    if rest == [] {
      assert Total(log, Amount) == 0 by {
        TotalSnoc([], e, Amount);
      }
    } else {
      assert Replay(rest).Ok?;
      AcceptedForm(rest);
      ClosedFormStep(rest, e);
    }
  }

  lemma ShapeExtends(log: seq<ArsEvent>, e: ArsEvent, next: PrincipalState)
    requires Shape(Kinds(log) + [KindOf(e)], next, Successor(KindOf(e), Releases(log)))
    ensures Shape(Kinds(log + [e]), next, Releases(log + [e]))
  {
    TotalSnoc(log, e, One);
    assert Kinds(log + [e]) == Kinds(log) + [KindOf(e)];
  }

  lemma ShapeBegins(e: ArsEvent)
    requires e.JobOpened?
    ensures Shape(Kinds([e]), AWAIT_UNDERWRITING, Releases([e]))
  {
    TotalSnoc([], e, One);
    assert Kinds([e]) == [Opened];
  }

  lemma {:induction false} AcceptedShape(log: seq<ArsEvent>)
    requires Replay(log).Ok?
    ensures Shape(Kinds(log), Replay(log).value.state, Releases(log))
  {
    var rest, e := log[..|log| - 1], log[|log| - 1];
    assert log == rest + [e];
    RunLogSnoc(rest, e);
    if rest == [] {
      ShapeBegins(e);
    } else {
      AcceptedShape(rest);
      var before, after := Replay(rest).value, Replay(log).value;
      assert ApplyEvent(Some(before), e) == Ok(after);
      ShapeStep(Kinds(rest), before, e, Releases(rest));
      ShapeExtends(rest, e, after.state);
    }
  }

  lemma ShapeIsLegal(ks: seq<Kind>, state: PrincipalState, n: nat)
    requires Shape(ks, state, n)
    ensures LegalPrefix(ks)
  {
    if state in {RELEASABLE, EXECUTING, EVIDENCE_SUBMITTED} {
      var m := if n == 0 then 1 else n;
      assert Executing(n) <= Executing(m);
      assert ks <= FundedWord(m, false);
    } else if state in {DISPUTED, CLOSED} {
      assert Executing(n) + [Evidence, Dispute] <= FundedWord(n, true);
      assert ks <= FundedWord(n, true) || ks <= FundedWord(n, false);
    }
  }

  /** A funded word has its evidence right after its last release, so n can be read off a longer word. */
  lemma FundedWordAt(n: nat, disputed: bool)
    ensures |FundedWord(n, disputed)| == 5 + n + (if disputed then 1 else 0)
    ensures forall i :: 0 <= i < 3 + n ==> FundedWord(n, disputed)[i] == Executing(n)[i]
    ensures FundedWord(n, disputed)[3 + n] == Evidence
    ensures FundedWord(n, disputed)[4 + n] == if disputed then Dispute else Closing
    ensures disputed ==> FundedWord(n, disputed)[5 + n] == Closing
  {
  }

  /** The kinds of event that can follow in a state. */
  function Next(state: PrincipalState): set<Kind> {
    match state
    case AWAIT_UNDERWRITING => {Started}
    case UNDERWRITING => {Declined, Approved}
    case RELEASABLE => {Released}
    case EXECUTING => {Released, Evidence}
    case EVIDENCE_SUBMITTED => {Dispute, Closing}
    case DISPUTED => {Closing}
    case REJECTED => {}
    case CLOSED => {}
  }

  lemma AcceptedIffNext(job: Job, e: ArsEvent)
    ensures ApplyEvent(Some(job), e).Ok? <==> e.jobId == job.jobId && KindOf(e) in Next(job.state)
    ensures ApplyEvent(Some(job), e).Ok? ==> ApplyEvent(Some(job), e).value.state == StateAfter(e)
  {
  }

  lemma FundedGoesOn(ks: seq<Kind>, k: Kind, state: PrincipalState, n: nat, m: nat, disputed: bool)
    requires Shape(ks, state, n)
    requires m >= 1 && ks + [k] <= FundedWord(m, disputed)
    ensures k in Next(state)
  {
    FundedWordAt(m, disputed);
    var word := FundedWord(m, disputed);
    assert forall i :: 0 <= i < |ks| ==> ks[i] == (ks + [k])[i] == word[i];
    assert k == (ks + [k])[|ks|] == word[|ks|];
    if n >= 1 {
      assert ks[2 + n] == Released;
      assert n <= m;
      if state != EXECUTING {
        assert ks[3 + n] == Evidence;
        assert n == m;
        if state == CLOSED {
          FundedWordAt(n, false);
          FundedWordAt(n, true);
        }
      }
    }
  }

  /** If a legal word goes on after a shape, the machine can take the step. */
  lemma LegalGoesOn(ks: seq<Kind>, k: Kind, state: PrincipalState, n: nat)
    requires Shape(ks, state, n)
    requires LegalPrefix(ks + [k])
    ensures k in Next(state)
  {
    if ks + [k] <= DECLINED_WORD {
      assert |ks| < 3;
      assert k == (ks + [k])[|ks|] == DECLINED_WORD[|ks|];
      assert state != RELEASABLE by {
        assert |Executing(0)| == 3;
      }
    } else {
      var m: nat, disputed: bool :| m >= 1 && ks + [k] <= FundedWord(m, disputed);
      FundedGoesOn(ks, k, state, n, m, disputed);
    }
  }

  lemma LegalBegins(ks: seq<Kind>)
    requires ks != [] && LegalPrefix(ks)
    ensures ks[0] == Opened
  {
    if !(ks <= DECLINED_WORD) {
      var n: nat, disputed: bool :| n >= 1 && ks <= FundedWord(n, disputed);
      assert ks[0] == FundedWord(n, disputed)[0];
    }
  }

  lemma CompletenessStep(rest: seq<ArsEvent>, e: ArsEvent)
    requires Replay(rest).Ok? && e.jobId == rest[0].jobId
    requires LegalPrefix(Kinds(rest) + [KindOf(e)])
    ensures Replay(rest + [e]).Ok?
  {
    RunLogSnoc(rest, e);
    AcceptedForm(rest);
    AcceptedShape(rest);
    LegalGoesOn(Kinds(rest), KindOf(e), Replay(rest).value.state, Releases(rest));
    AcceptedIffNext(Replay(rest).value, e);
  }

  lemma OpeningIsAccepted(e: ArsEvent)
    requires LegalPrefix(Kinds([e]))
    ensures Replay([e]).Ok?
  {
    LegalBegins(Kinds([e]));
    RunLogSnoc([], e);
    assert [] + [e] == [e];
  }

  lemma LegalLast(rest: seq<ArsEvent>, e: ArsEvent)
    requires rest != [] && OneJob(rest + [e]) && LegalPrefix(Kinds(rest + [e]))
    ensures OneJob(rest) && e.jobId == rest[0].jobId
    ensures LegalPrefix(Kinds(rest)) && LegalPrefix(Kinds(rest) + [KindOf(e)])
  {
    var log := rest + [e];
    assert Kinds(log) == Kinds(rest) + [KindOf(e)];
    LegalPrefixOfLegal(Kinds(rest), KindOf(e));
    assert log[0] == rest[0] && log[|rest|] == e;
    assert forall i :: 0 <= i < |rest| ==> log[i] == rest[i];
  }

  lemma {:induction false} Completeness(log: seq<ArsEvent>)
    requires log != [] && OneJob(log) && LegalPrefix(Kinds(log))
    ensures Replay(log).Ok?
  {
    var rest, e := log[..|log| - 1], log[|log| - 1];
    assert log == rest + [e];
    if rest == [] {
      assert log == [e];
      OpeningIsAccepted(e);
    } else {
      LegalLast(rest, e);
      Completeness(rest);
      CompletenessStep(rest, e);
    }
  }

  lemma LegalPrefixOfLegal(ks: seq<Kind>, k: Kind)
    requires LegalPrefix(ks + [k])
    ensures LegalPrefix(ks)
  {
    assert ks <= ks + [k];
    if !(ks + [k] <= DECLINED_WORD) {
      var n: nat, disputed: bool :| n >= 1 && ks + [k] <= FundedWord(n, disputed);
      assert ks <= FundedWord(n, disputed);
    }
  }

  /** The accepted language, sound and complete. */
  lemma ExactLanguage(log: seq<ArsEvent>)
    ensures Replay(log).Ok? <==> Lifecycle(log)
  {
    if Replay(log).Ok? {
      AcceptedForm(log);
      AcceptedShape(log);
      ShapeIsLegal(Kinds(log), Replay(log).value.state, Releases(log));
    }
    if Lifecycle(log) {
      Completeness(log);
    }
  }

  /** What the fold computes, with no reference to the machine. */
  lemma FoldHasClosedForm(log: seq<ArsEvent>)
    requires Lifecycle(log)
    ensures log[0].JobOpened? && Replay(log) == Ok(ClosedForm(log))
  {
    ExactLanguage(log);
    AcceptedForm(log);
  }

  /**
   * Why a log is refused, told by the log alone: the error is decided by its longest legal prefix
   * and by the one event after it.
   */
  function Diagnosis(legal: seq<ArsEvent>, e: ArsEvent): TransitionError {
    if legal == [] then UnknownJob
    else if e.JobOpened? then JobAlreadyExists
    else if e.jobId != legal[0].jobId then JobIdMismatch
    else if KindOf(legal[|legal| - 1]) in {Declined, Closing} then JobIsTerminal
    else NotAllowed
  }

  lemma DiagnosisOfStep(legal: seq<ArsEvent>, e: ArsEvent)
    requires legal == [] || Replay(legal).Ok?
    requires Replay(legal + [e]).Err?
    ensures Replay(legal + [e]) == Err(Diagnosis(legal, e))
  {
    RunLogSnoc(legal, e);
    if legal != [] {
      AcceptedForm(legal);
    }
  }

  lemma {:induction false} FirstRefusal(log: seq<ArsEvent>) returns (i: nat)
    requires log != [] && Replay(log).Err?
    ensures i < |log|
    ensures i == 0 || Replay(log[..i]).Ok?
    ensures Replay(log[..i + 1]).Err?
    ensures Replay(log) == Err(Diagnosis(log[..i], log[i]))
  {
    var n := |log| - 1;
    var rest := log[..n];
    assert log == rest + [log[n]];
    if rest == [] || Replay(rest).Ok? {
      i := n;
      assert log[..n + 1] == log;
      DiagnosisOfStep(rest, log[n]);
    } else {
      i := FirstRefusal(rest);
      assert rest[..i] == log[..i] && rest[..i + 1] == log[..i + 1] && rest[i] == log[i];
      RunLogSnoc(rest, log[n]);
    }
  }

  lemma RefusalIsDiagnosed(log: seq<ArsEvent>) returns (i: nat)
    requires log != [] && !Lifecycle(log)
    ensures i < |log|
    ensures i == 0 || Lifecycle(log[..i])
    ensures !Lifecycle(log[..i + 1])
    ensures Replay(log) == Err(Diagnosis(log[..i], log[i]))
  {
    ExactLanguage(log);
    i := FirstRefusal(log);
    ExactLanguage(log[..i]);
    ExactLanguage(log[..i + 1]);
  }
}
