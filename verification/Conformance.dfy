/** The conformance corpus, its report and the self-test (python/src/telaro_ars/conformance.py). */
module Conformance {
  import opened Events
  import opened StateMachine
  import opened Language
  import opened PythonState
  import opened Bytes
  import opened Binding

  datatype StateVector = StateVector(log: seq<ArsEvent>, expectedState: PrincipalState, expectedReleased: int)

  datatype ViewBondVector = ViewBondVector(minBond: int, minScore: int, expectedHex: string)

  /** Three lists of vectors; an illegal vector is its log. */
  datatype Suite = Suite(states: seq<StateVector>, illegal: seq<seq<ArsEvent>>, viewBonds: seq<ViewBondVector>)

  /** What should be, vector by vector: true where the implementation under test matches. */
  datatype Matches = Matches(states: seq<bool>, illegal: seq<bool>, viewBonds: seq<bool>) {
    ghost predicate All() {
      && (forall i :: 0 <= i < |states| ==> states[i])
      && (forall i :: 0 <= i < |illegal| ==> illegal[i])
      && (forall i :: 0 <= i < |viewBonds| ==> viewBonds[i])
    }
  }

  // ---------------------------------------------------------------- tallies

  function Count(matches: seq<bool>): nat {
    if matches == [] then 0 else Count(matches[..|matches| - 1]) + (if matches[|matches| - 1] then 1 else 0)
  }

  /** The positions that do not match, in order. */
  function Missed(matches: seq<bool>): seq<nat> {
    if matches == [] then []
    else
      var n := |matches| - 1;
      Missed(matches[..n]) + (if matches[n] then [] else [n])
  }

  lemma TallyStep(matches: seq<bool>, i: nat)
    requires i < |matches|
    ensures Count(matches[..i + 1]) == Count(matches[..i]) + (if matches[i] then 1 else 0)
    ensures Missed(matches[..i + 1]) == Missed(matches[..i]) + (if matches[i] then [] else [i])
  {
    assert matches[..i + 1][..i] == matches[..i];
  }

  lemma {:induction false} MissedExactly(matches: seq<bool>)
    ensures forall i :: i in Missed(matches) <==> 0 <= i < |matches| && !matches[i]
  {
    if matches != [] {
      var n := |matches| - 1;
      MissedExactly(matches[..n]);
      assert forall i :: i in Missed(matches) <==> i in Missed(matches[..n]) || (i == n && !matches[n]);
    }
  }

  lemma {:induction false} MissedInOrder(matches: seq<bool>)
    ensures forall a, b :: 0 <= a < b < |Missed(matches)| ==> Missed(matches)[a] < Missed(matches)[b]
  {
    if matches != [] {
      var n := |matches| - 1;
      MissedInOrder(matches[..n]);
      MissedExactly(matches[..n]);
      assert forall a :: 0 <= a < |Missed(matches[..n])| ==> Missed(matches[..n])[a] in Missed(matches[..n]);
    }
  }

  lemma {:induction false} CountedOnce(matches: seq<bool>)
    ensures Count(matches) + |Missed(matches)| == |matches|
  {
    if matches != [] {
      CountedOnce(matches[..|matches| - 1]);
    }
  }

  /** Every vector is tallied exactly once: as passed, or at its own position in the ordered list of failures. */
  lemma TallyIsPartition(matches: seq<bool>)
    ensures Count(matches) + |Missed(matches)| == |matches|
    ensures forall i :: i in Missed(matches) <==> 0 <= i < |matches| && !matches[i]
    ensures forall a, b :: 0 <= a < b < |Missed(matches)| ==> Missed(matches)[a] < Missed(matches)[b]
    ensures Missed(matches) == [] <==> forall i :: 0 <= i < |matches| ==> matches[i]
  {
    CountedOnce(matches);
    MissedExactly(matches);
    MissedInOrder(matches);
    if Missed(matches) != [] {
      assert Missed(matches)[0] in Missed(matches);
    }
  }

  /** The mutable report. A failure message is represented by the position of the vector it names. */
  class ConformanceReport {
    var statePassed: nat
    var stateFailed: seq<nat>
    var illegalPassed: nat
    var illegalFailed: seq<nat>
    var viewBondPassed: nat
    var viewBondFailed: seq<nat>

    constructor ()
      ensures Tallies(Matches([], [], []))
    {
      statePassed, illegalPassed, viewBondPassed := 0, 0, 0;
      stateFailed, illegalFailed, viewBondFailed := [], [], [];
    }

    predicate Ok()
      reads this
    {
      !(stateFailed != [] || illegalFailed != [] || viewBondFailed != [])
    }

    ghost predicate Tallies(m: Matches)
      reads this
    {
      && statePassed == Count(m.states) && stateFailed == Missed(m.states)
      && illegalPassed == Count(m.illegal) && illegalFailed == Missed(m.illegal)
      && viewBondPassed == Count(m.viewBonds) && viewBondFailed == Missed(m.viewBonds)
    }

    /** In numbers: nothing lost, nothing counted twice, and the failures are the positions that do not match. */
    lemma TalliesSay(m: Matches)
      requires Tallies(m)
      ensures statePassed == Count(m.states) && statePassed + |stateFailed| == |m.states|
      ensures illegalPassed == Count(m.illegal) && illegalPassed + |illegalFailed| == |m.illegal|
      ensures viewBondPassed == Count(m.viewBonds) && viewBondPassed + |viewBondFailed| == |m.viewBonds|
      ensures forall i :: i in stateFailed <==> 0 <= i < |m.states| && !m.states[i]
      ensures forall i :: i in illegalFailed <==> 0 <= i < |m.illegal| && !m.illegal[i]
      ensures forall i :: i in viewBondFailed <==> 0 <= i < |m.viewBonds| && !m.viewBonds[i]
    {
      TallyIsPartition(m.states);
      TallyIsPartition(m.illegal);
      TallyIsPartition(m.viewBonds);
    }

    /** A report that tallies all vectors is fine exactly when all of them match. */
    lemma OkIffAllMatch(m: Matches)
      requires Tallies(m)
      ensures Ok() <==> m.All()
    {
      TallyIsPartition(m.states);
      TallyIsPartition(m.illegal);
      TallyIsPartition(m.viewBonds);
    }
  }

  // ---------------------------------------------------------------- self-test

  predicate StateMatches(v: StateVector) {
    match PyReplay(v.log)
    case Ok(job) => job.state == v.expectedState && job.releasedAtomic == v.expectedReleased
    case Err(_) => false
  }

  predicate ViewBondMatches(d: Discriminators, v: ViewBondVector) {
    match BuildViewBond(d, v.minBond, v.minScore)
    case Ok(data) => Hex(data) == v.expectedHex
    case Err(_) => false
  }

  function SelfMatches(d: Discriminators, suite: Suite): Matches {
    Matches(seq(|suite.states|, i requires 0 <= i < |suite.states| => StateMatches(suite.states[i])),
            seq(|suite.illegal|, i requires 0 <= i < |suite.illegal| => PyReplay(suite.illegal[i]).Err?),
            seq(|suite.viewBonds|, i requires 0 <= i < |suite.viewBonds| => ViewBondMatches(d, suite.viewBonds[i])))
  }

  /** A vector whose arguments do not fit: the builder raises, and nothing in the loop catches it. */
  predicate Unbuildable(v: ViewBondVector) {
    !Fits(ViewBond(v.minBond, v.minScore))
  }

  method SelfTestStates(r: ConformanceReport, vectors: seq<StateVector>, ghost matches: seq<bool>)
    requires |matches| == |vectors| && forall i :: 0 <= i < |vectors| ==> matches[i] == StateMatches(vectors[i])
    requires r.statePassed == 0 && r.stateFailed == []
    modifies r`statePassed, r`stateFailed
    ensures r.statePassed == Count(matches) && r.stateFailed == Missed(matches)
  {
    for i := 0 to |vectors|
      invariant r.statePassed == Count(matches[..i]) && r.stateFailed == Missed(matches[..i])
    {
      TallyStep(matches, i);
      var job := PyReplayLoop(vectors[i].log);
      if job.Ok? && job.value.state == vectors[i].expectedState
         && job.value.releasedAtomic == vectors[i].expectedReleased {
        r.statePassed := r.statePassed + 1;
      } else {
        r.stateFailed := r.stateFailed + [i];
      }
    }
    assert matches[..|vectors|] == matches;
  }

  method SelfTestIllegal(r: ConformanceReport, vectors: seq<seq<ArsEvent>>, ghost matches: seq<bool>)
    requires |matches| == |vectors| && forall i :: 0 <= i < |vectors| ==> matches[i] == PyReplay(vectors[i]).Err?
    requires r.illegalPassed == 0 && r.illegalFailed == []
    modifies r`illegalPassed, r`illegalFailed
    ensures r.illegalPassed == Count(matches) && r.illegalFailed == Missed(matches)
  {
    for i := 0 to |vectors|
      invariant r.illegalPassed == Count(matches[..i]) && r.illegalFailed == Missed(matches[..i])
    {
      TallyStep(matches, i);
      var job := PyReplayLoop(vectors[i]);
      match job
      case Ok(_) => r.illegalFailed := r.illegalFailed + [i];
      case Err(_) => r.illegalPassed := r.illegalPassed + 1;
    }
    assert matches[..|vectors|] == matches;
  }

  /** The builder's bytes in hex, unless it raises. */
  method BuildHex(d: Discriminators, v: ViewBondVector) returns (hex: Option<string>)
    ensures hex.None? <==> Unbuildable(v)
    ensures ViewBondMatches(d, v) <==> hex == Some(v.expectedHex)
  {
    RefusedIffOutOfRange(d, ViewBond(v.minBond, v.minScore));
    var data := BuildViewBond(d, v.minBond, v.minScore);
    match data
    case Err(_) => return None;
    case Ok(bytes) => return Some(Hex(bytes));
  }

  /** The loop without a `try`: an error in a builder ends the run. */
  method SelfTestViewBonds(r: ConformanceReport, d: Discriminators, vectors: seq<ViewBondVector>,
                           ghost matches: seq<bool>)
    returns (raised: bool)
    requires |matches| == |vectors| && forall i :: 0 <= i < |vectors| ==> matches[i] == ViewBondMatches(d, vectors[i])
    requires r.viewBondPassed == 0 && r.viewBondFailed == []
    modifies r`viewBondPassed, r`viewBondFailed
    ensures raised <==> exists v :: v in vectors && Unbuildable(v)
    ensures !raised ==> r.viewBondPassed == Count(matches) && r.viewBondFailed == Missed(matches)
  {
    for i := 0 to |vectors|
      invariant r.viewBondPassed == Count(matches[..i]) && r.viewBondFailed == Missed(matches[..i])
      invariant forall j :: 0 <= j < i ==> !Unbuildable(vectors[j])
    {
      TallyStep(matches, i);
      var hex := BuildHex(d, vectors[i]);
      if hex.None? {
        assert vectors[i] in vectors;
        return true;
      }
      if hex.value == vectors[i].expectedHex {
        r.viewBondPassed := r.viewBondPassed + 1;
      } else {
        r.viewBondFailed := r.viewBondFailed + [i];
      }
    }
    assert matches[..|vectors|] == matches;
    return false;
  }

  /** `run_self_test`: no report at all when a builder raises. */
  method RunSelfTest(d: Discriminators, suite: Suite) returns (report: ConformanceReport?)
    ensures report == null <==> exists v :: v in suite.viewBonds && Unbuildable(v)
    ensures report != null ==> fresh(report) && report.Tallies(SelfMatches(d, suite))
    ensures report != null ==> (report.Ok() <==> SelfMatches(d, suite).All())
  {
    var r := new ConformanceReport();
    ghost var m := SelfMatches(d, suite);
    SelfTestStates(r, suite.states, m.states);
    SelfTestIllegal(r, suite.illegal, m.illegal);
    var raised := SelfTestViewBonds(r, d, suite.viewBonds, m.viewBonds);
    if raised {
      return null;
    }
    r.OkIffAllMatch(m);
    return r;
  }

  ghost predicate StateIsRight(v: StateVector) {
    && Lifecycle(v.log)
    && StateAfter(v.log[|v.log| - 1]) == v.expectedState
    && ReleasedSum(v.log) == v.expectedReleased
  }

  ghost predicate ViewBondIsRight(d: Discriminators, v: ViewBondVector) {
    IsHex(v.expectedHex) && Decode(d, Unhex(v.expectedHex)) == Some(ViewBond(v.minBond, v.minScore))
  }

  /**
   * What a clean self-test says about the corpus, with no implementation in sight: every state vector is
   * a lifecycle ending where it says, no illegal vector is one, every expected hex reads as its arguments.
   */
  ghost predicate Coherent(d: Discriminators, suite: Suite) {
    && (forall v :: v in suite.states ==> StateIsRight(v))
    && (forall log :: log in suite.illegal ==> !Lifecycle(log))
    && (forall v :: v in suite.viewBonds ==> ViewBondIsRight(d, v))
  }

  lemma StateMatchesIff(v: StateVector)
    ensures StateMatches(v) <==> StateIsRight(v)
  {
    ImplementationsAgree(v.log);
    if Lifecycle(v.log) {
      FoldHasClosedForm(v.log);
    }
  }

  lemma ViewBondMatchesIff(d: Discriminators, v: ViewBondVector)
    requires d.Valid()
    ensures ViewBondMatches(d, v) <==> ViewBondIsRight(d, v)
  {
    var call := ViewBond(v.minBond, v.minScore);
    RefusedIffOutOfRange(d, call);
    if ViewBondMatches(d, v) {
      var data := BuildViewBond(d, v.minBond, v.minScore).value;
      ViewBondRoundTrip(d, v.minBond, v.minScore);
      UnhexOfHex(data);
    }
    if ViewBondIsRight(d, v) {
      EncodeOfDecode(d, Unhex(v.expectedHex));
      HexOfUnhex(v.expectedHex);
    }
  }

  lemma MatchesAreRight(d: Discriminators, suite: Suite)
    requires d.Valid()
    ensures var m := SelfMatches(d, suite);
      && (forall i :: 0 <= i < |suite.states| ==> (m.states[i] <==> StateIsRight(suite.states[i])))
      && (forall i :: 0 <= i < |suite.illegal| ==> (m.illegal[i] <==> !Lifecycle(suite.illegal[i])))
      && (forall i :: 0 <= i < |suite.viewBonds| ==> (m.viewBonds[i] <==> ViewBondIsRight(d, suite.viewBonds[i])))
  {
    var m := SelfMatches(d, suite);
    forall i | 0 <= i < |suite.states|
      ensures m.states[i] <==> StateIsRight(suite.states[i])
    {
      StateMatchesIff(suite.states[i]);
    }
    forall i | 0 <= i < |suite.illegal|
      ensures m.illegal[i] <==> !Lifecycle(suite.illegal[i])
    {
      ImplementationsAgree(suite.illegal[i]);
    }
    forall i | 0 <= i < |suite.viewBonds|
      ensures m.viewBonds[i] <==> ViewBondIsRight(d, suite.viewBonds[i])
    {
      ViewBondMatchesIff(d, suite.viewBonds[i]);
    }
  }

  /** The self-test passes exactly on a coherent corpus. */
  lemma SelfTestPassesIff(d: Discriminators, suite: Suite)
    requires d.Valid()
    ensures SelfMatches(d, suite).All() <==> Coherent(d, suite)
  {
    var m := SelfMatches(d, suite);
    MatchesAreRight(d, suite);
    if Coherent(d, suite) {
      assert forall i :: 0 <= i < |m.states| ==> suite.states[i] in suite.states;
      assert forall i :: 0 <= i < |m.illegal| ==> suite.illegal[i] in suite.illegal;
      assert forall i :: 0 <= i < |m.viewBonds| ==> suite.viewBonds[i] in suite.viewBonds;
    }
    if m.All() {
      assert forall i :: 0 <= i < |suite.states| ==> m.states[i] && StateIsRight(suite.states[i]);
      assert forall i :: 0 <= i < |suite.illegal| ==> m.illegal[i] && !Lifecycle(suite.illegal[i]);
      assert forall i :: 0 <= i < |suite.viewBonds| ==> m.viewBonds[i] && ViewBondIsRight(d, suite.viewBonds[i]);
    }
  }
}
