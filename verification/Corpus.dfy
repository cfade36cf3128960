/** The vectors that ship with the package (python/src/telaro_ars/conformance.py:74-243). */
module Corpus {
  import opened Events
  import opened StateMachine
  import opened PythonState
  import opened Bytes
  import opened Binding
  import opened Conformance

  function Opened(exposure: int): seq<ArsEvent> {
    [JobOpened("j1", 1, "A", "D", exposure)]
  }

  function Reviewed(exposure: int): seq<ArsEvent> {
    Opened(exposure) + [UnderwritingStarted("j1", 2)]
  }

  function Declined(exposure: int, code: string): seq<ArsEvent> {
    Reviewed(exposure) + [UnderwritingDecided("j1", 3, false, Some(code))]
  }

  function Drawn(amount: int): seq<ArsEvent> {
    Reviewed(1_000_000_000) + [UnderwritingDecided("j1", 3, true, None)] + [PrincipalReleased("j1", 4, amount)]
  }

  function Recorded(outcome: ActionOutcome): seq<ArsEvent> {
    Drawn(1_000_000_000) + [EvidenceSubmitted("j1", 5, "0xabc", outcome)]
  }

  function StateVectors(): seq<StateVector> {
    [StateVector(Opened(1_000_000_000), AWAIT_UNDERWRITING, 0),
     StateVector(Declined(1_000_000_000, "BOND_BELOW_MIN"), REJECTED, 0),
     StateVector(Drawn(500_000_000), EXECUTING, 500_000_000),
     StateVector(Recorded(Succeeded) + [Closed("j1", 6, NoDispute)], CLOSED, 1_000_000_000),
     StateVector(Recorded(Failed) + [Disputed("j1", 6, "C")] + [Closed("j1", 7, DisputeUpheld)],
                 CLOSED, 1_000_000_000)]
  }

  function IllegalVectors(): seq<seq<ArsEvent>> {
    [Opened(1) + [PrincipalReleased("j1", 2, 1)],
     [] + [UnderwritingStarted("ghost", 1)],
     Declined(1, "X") + [UnderwritingStarted("j1", 4)]]
  }

  function ViewBondVectors(d: Discriminators): seq<ViewBondVector> {
    [Expected(d, 0, 0), Expected(d, 1_000_000, 700), Expected(d, 1_000_000_000, 800), Expected(d, U64_MAX, U16_MAX)]
  }

  function Shipped(d: Discriminators): Suite {
    Suite(StateVectors(), IllegalVectors(), ViewBondVectors(d))
  }

  function Expected(d: Discriminators, minBond: nat, minScore: nat): ViewBondVector {
    ViewBondVector(minBond, minScore, Hex(d.viewBond + LeBytes(minBond, 8) + LeBytes(minScore, 2)))
  }

  /** A log taken one event further, in both implementations. */
  lemma Goes(log: seq<ArsEvent>, job: Option<Job>, e: ArsEvent)
    requires RunLog(log) == Ok(job)
    ensures ApplyEvent(job, e).Ok? ==> RunLog(log + [e]) == Ok(Some(ApplyEvent(job, e).value))
    ensures PyReplay(log + [e]) == ApplyEvent(job, e)
  {
    RunLogSnoc(log, e);
    ImplementationsAgree(log + [e]);
  }

  function J1(exposure: int, state: PrincipalState, released: int, at: int): Option<Job> {
    Some(Job("j1", "A", "D", exposure, state, released, at))
  }

  lemma Early(exposure: int, code: string)
    ensures RunLog(Opened(exposure)) == Ok(J1(exposure, AWAIT_UNDERWRITING, 0, 1))
    ensures RunLog(Reviewed(exposure)) == Ok(J1(exposure, UNDERWRITING, 0, 2))
    ensures RunLog(Declined(exposure, code)) == Ok(J1(exposure, REJECTED, 0, 3))
    ensures StateMatches(StateVector(Opened(exposure), AWAIT_UNDERWRITING, 0))
    ensures StateMatches(StateVector(Declined(exposure, code), REJECTED, 0))
  {
    Goes([], None, JobOpened("j1", 1, "A", "D", exposure));
    assert [] + Opened(exposure) == Opened(exposure);
    Goes(Opened(exposure), J1(exposure, AWAIT_UNDERWRITING, 0, 1), UnderwritingStarted("j1", 2));
    Goes(Reviewed(exposure), J1(exposure, UNDERWRITING, 0, 2), UnderwritingDecided("j1", 3, false, Some(code)));
  }

  lemma Funded(amount: int)
    ensures RunLog(Drawn(amount)) == Ok(J1(1_000_000_000, EXECUTING, amount, 4))
    ensures StateMatches(StateVector(Drawn(amount), EXECUTING, amount))
  {
    var approved := UnderwritingDecided("j1", 3, true, None);
    Early(1_000_000_000, "");
    Goes(Reviewed(1_000_000_000), J1(1_000_000_000, UNDERWRITING, 0, 2), approved);
    Goes(Reviewed(1_000_000_000) + [approved], J1(1_000_000_000, RELEASABLE, 0, 3), PrincipalReleased("j1", 4, amount));
  }

  lemma Evidenced(outcome: ActionOutcome)
    ensures RunLog(Recorded(outcome)) == Ok(J1(1_000_000_000, EVIDENCE_SUBMITTED, 1_000_000_000, 5))
  {
    Funded(1_000_000_000);
    Goes(Drawn(1_000_000_000), J1(1_000_000_000, EXECUTING, 1_000_000_000, 4),
         EvidenceSubmitted("j1", 5, "0xabc", outcome));
  }

  lemma Finished(outcome: ActionOutcome)
    ensures StateMatches(StateVector(Recorded(outcome) + [Closed("j1", 6, NoDispute)], CLOSED, 1_000_000_000))
  {
    Evidenced(outcome);
    Goes(Recorded(outcome), J1(1_000_000_000, EVIDENCE_SUBMITTED, 1_000_000_000, 5), Closed("j1", 6, NoDispute));
  }

  lemma Argued(outcome: ActionOutcome)
    ensures StateMatches(StateVector(Recorded(outcome) + [Disputed("j1", 6, "C")] + [Closed("j1", 7, DisputeUpheld)],
                                     CLOSED, 1_000_000_000))
  {
    var disputed := Recorded(outcome) + [Disputed("j1", 6, "C")];
    Evidenced(outcome);
    Goes(Recorded(outcome), J1(1_000_000_000, EVIDENCE_SUBMITTED, 1_000_000_000, 5), Disputed("j1", 6, "C"));
    Goes(disputed, J1(1_000_000_000, DISPUTED, 1_000_000_000, 6), Closed("j1", 7, DisputeUpheld));
  }

  lemma StatesPass(v: StateVector)
    requires v in StateVectors()
    ensures StateMatches(v)
  {
    Early(1_000_000_000, "BOND_BELOW_MIN");
    Funded(500_000_000);
    Finished(Succeeded);
    Argued(Failed);
  }

  lemma IllegalPass(log: seq<ArsEvent>)
    requires log in IllegalVectors()
    ensures PyReplay(log).Err?
  {
    Early(1, "X");
    Goes(Opened(1), J1(1, AWAIT_UNDERWRITING, 0, 1), PrincipalReleased("j1", 2, 1));
    Goes([], None, UnderwritingStarted("ghost", 1));
    Goes(Declined(1, "X"), J1(1, REJECTED, 0, 3), UnderwritingStarted("j1", 4));
  }

  /** The package passes its own corpus. */
  lemma ShippedPasses(d: Discriminators)
    ensures SelfMatches(d, Shipped(d)).All()
  {
    forall v | v in StateVectors() {
      StatesPass(v);
    }
    forall log | log in IllegalVectors() {
      IllegalPass(log);
    }
    forall v | v in ViewBondVectors(d)
      ensures ViewBondMatches(d, v)
    {
    }
  }

  lemma ShippedIsBuildable(d: Discriminators, v: ViewBondVector)
    requires v in ViewBondVectors(d)
    ensures !Unbuildable(v)
  {
    Widths();
  }

  /** `run_self_test` on what ships: always a report, and it says 5 of 5, 3 of 3 and 4 of 4. */
  method RunShippedSelfTest(d: Discriminators) returns (report: ConformanceReport)
    ensures fresh(report) && report.Ok()
    ensures report.statePassed == 5 && report.illegalPassed == 3 && report.viewBondPassed == 4
  {
    var run := RunSelfTest(d, Shipped(d));
    forall v | v in ViewBondVectors(d) {
      ShippedIsBuildable(d, v);
    }
    ShippedPasses(d);
    ghost var m := SelfMatches(d, Shipped(d));
    TallyIsPartition(m.states);
    TallyIsPartition(m.illegal);
    TallyIsPartition(m.viewBonds);
    report := run;
  }

  /** The vector named after a terminal CLOSED job continues a REJECTED one. */
  lemma TerminalVectorIsRejected()
    ensures Replay(Declined(1, "X")).Ok? && Replay(Declined(1, "X")).value.state == REJECTED
    ensures IllegalVectors()[2][..3] == Declined(1, "X")
    ensures PyReplay(IllegalVectors()[2]) == Err(JobIsTerminal)
  {
    Early(1, "X");
    Goes(Declined(1, "X"), J1(1, REJECTED, 0, 3), UnderwritingStarted("j1", 4));
    assert IllegalVectors()[2][..3] == Declined(1, "X");
  }
}
