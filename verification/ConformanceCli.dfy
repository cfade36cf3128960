/**
 * The harness against other implementations, and the certificate it issues
 * (python/src/telaro_ars/conformance_cli.py).
 */
module ConformanceCli {
  import opened Events
  import opened StateMachine
  import opened Language
  import opened PythonState
  import opened Bytes
  import opened Binding
  import opened Conformance
  import opened Corpus

  // ---------------------------------------------------------------- Python transport

  /**
   * What a call into a target module does. `state` is None for a value outside the eight names,
   * `released` is None when the job has no such attribute. Uncaught is whatever no clause of the loop
   * catches: an exception that is no `Exception`, and in the second loop any exception at all if the
   * target's `ARSTransitionError` is no exception class.
   */
  datatype Replayed =
    | Returned(state: Option<PrincipalState>, released: Option<int>)
    | RaisedTransitionError
    | RaisedOther
    | Uncaught

  /** Nothing is caught around the builder or around reading its data. */
  datatype Built = Data(bytes: seq<byte>) | BuilderRaised

  /** All a target module does during one run, call by call. */
  datatype Calls = Calls(states: seq<Replayed>, illegal: seq<Replayed>, viewBonds: seq<Built>)

  predicate Answers(calls: Calls, suite: Suite) {
    && |calls.states| == |suite.states| && |calls.illegal| == |suite.illegal|
    && |calls.viewBonds| == |suite.viewBonds|
  }

  /** A missing `released_atomic` reads as zero. */
  predicate StateAsExpected(reply: Replayed, v: StateVector) {
    reply.Returned? && reply.state == Some(v.expectedState) && OrZero(reply.released) == v.expectedReleased
  }

  predicate ViewBondAsExpected(built: Built, v: ViewBondVector) {
    built.Data? && Hex(built.bytes) == v.expectedHex
  }

  function CallMatches(calls: Calls, suite: Suite): Matches
    requires Answers(calls, suite)
  {
    Matches(
      seq(|suite.states|, i requires 0 <= i < |suite.states| => StateAsExpected(calls.states[i], suite.states[i])),
      seq(|suite.illegal|, i requires 0 <= i < |suite.illegal| => calls.illegal[i] == RaisedTransitionError),
      seq(|suite.viewBonds|, i requires 0 <= i < |suite.viewBonds| =>
        ViewBondAsExpected(calls.viewBonds[i], suite.viewBonds[i])))
  }

  /** When a call counts as a match, without the harness's helpers: a missing amount is 0. */
  lemma CallMatchesMean(calls: Calls, suite: Suite)
    requires Answers(calls, suite)
    ensures var m := CallMatches(calls, suite);
      && |m.states| == |suite.states| && |m.illegal| == |suite.illegal| && |m.viewBonds| == |suite.viewBonds|
      && (forall i :: 0 <= i < |suite.states| ==>
            (m.states[i] <==>
              || calls.states[i] ==
                 Returned(Some(suite.states[i].expectedState), Some(suite.states[i].expectedReleased))
              || (suite.states[i].expectedReleased == 0
                  && calls.states[i] == Returned(Some(suite.states[i].expectedState), None))))
      && (forall i :: 0 <= i < |suite.illegal| ==> (m.illegal[i] <==> calls.illegal[i] == RaisedTransitionError))
      && (forall i :: 0 <= i < |suite.viewBonds| ==>
            (m.viewBonds[i] <==> exists data :: calls.viewBonds[i] == Data(data)
                                              && Hex(data) == suite.viewBonds[i].expectedHex))
  {
    forall i | 0 <= i < |suite.viewBonds|
      ensures CallMatches(calls, suite).viewBonds[i] <==>
        exists data :: calls.viewBonds[i] == Data(data) && Hex(data) == suite.viewBonds[i].expectedHex
    {
      if calls.viewBonds[i].Data? {
        assert calls.viewBonds[i] == Data(calls.viewBonds[i].bytes);
      }
    }
  }

  method PythonStates(r: ConformanceReport, calls: seq<Replayed>, vectors: seq<StateVector>, ghost matches: seq<bool>)
    returns (raised: bool)
    requires |matches| == |vectors| == |calls|
    requires forall i :: 0 <= i < |vectors| ==> matches[i] == StateAsExpected(calls[i], vectors[i])
    requires r.statePassed == 0 && r.stateFailed == []
    modifies r`statePassed, r`stateFailed
    ensures raised <==> Uncaught in calls
    ensures !raised ==> r.statePassed == Count(matches) && r.stateFailed == Missed(matches)
  {
    for i := 0 to |vectors|
      invariant r.statePassed == Count(matches[..i]) && r.stateFailed == Missed(matches[..i])
      invariant Uncaught !in calls[..i]
    {
      TallyStep(matches, i);
      match calls[i]
      case Uncaught => return true;
      case Returned(state, released) =>
        if state == Some(vectors[i].expectedState) && OrZero(released) == vectors[i].expectedReleased {
          r.statePassed := r.statePassed + 1;
        } else {
          r.stateFailed := r.stateFailed + [i];
        }
      case _ => r.stateFailed := r.stateFailed + [i];
    }
    assert matches[..|vectors|] == matches && calls[..|vectors|] == calls;
    return false;
  }

  method PythonIllegal(r: ConformanceReport, calls: seq<Replayed>, ghost matches: seq<bool>) returns (raised: bool)
    requires |matches| == |calls|
    requires forall i :: 0 <= i < |calls| ==> matches[i] == (calls[i] == RaisedTransitionError)
    requires r.illegalPassed == 0 && r.illegalFailed == []
    modifies r`illegalPassed, r`illegalFailed
    ensures raised <==> Uncaught in calls
    ensures !raised ==> r.illegalPassed == Count(matches) && r.illegalFailed == Missed(matches)
  {
    for i := 0 to |calls|
      invariant r.illegalPassed == Count(matches[..i]) && r.illegalFailed == Missed(matches[..i])
      invariant Uncaught !in calls[..i]
    {
      TallyStep(matches, i);
      match calls[i]
      case Returned(_, _) => r.illegalFailed := r.illegalFailed + [i];
      case RaisedTransitionError => r.illegalPassed := r.illegalPassed + 1;
      case RaisedOther => r.illegalFailed := r.illegalFailed + [i];
      case Uncaught => return true;
    }
    assert matches[..|calls|] == matches && calls[..|calls|] == calls;
    return false;
  }

  method PythonViewBonds(r: ConformanceReport, calls: seq<Built>, vectors: seq<ViewBondVector>,
                         ghost matches: seq<bool>)
    returns (raised: bool)
    requires |matches| == |vectors| == |calls|
    requires forall i :: 0 <= i < |vectors| ==> matches[i] == ViewBondAsExpected(calls[i], vectors[i])
    requires r.viewBondPassed == 0 && r.viewBondFailed == []
    modifies r`viewBondPassed, r`viewBondFailed
    ensures raised <==> BuilderRaised in calls
    ensures !raised ==> r.viewBondPassed == Count(matches) && r.viewBondFailed == Missed(matches)
  {
    for i := 0 to |vectors|
      invariant r.viewBondPassed == Count(matches[..i]) && r.viewBondFailed == Missed(matches[..i])
      invariant forall j :: 0 <= j < i ==> calls[j] != BuilderRaised
    {
      TallyStep(matches, i);
      match calls[i]
      case BuilderRaised => return true;
      case Data(bytes) =>
        if Hex(bytes) == vectors[i].expectedHex {
          r.viewBondPassed := r.viewBondPassed + 1;
        } else {
          r.viewBondFailed := r.viewBondFailed + [i];
        }
    }
    assert matches[..|vectors|] == matches;
    return false;
  }

  /** `_run_python_transport`: a report unless something escapes a loop, and then a sound one. */
  method RunPythonTransport(calls: Calls, suite: Suite) returns (report: ConformanceReport?)
    requires Answers(calls, suite)
    ensures report == null <==>
      Uncaught in calls.states || Uncaught in calls.illegal || BuilderRaised in calls.viewBonds
    ensures report != null ==> fresh(report) && report.Tallies(CallMatches(calls, suite))
    ensures report != null ==> (report.Ok() <==> CallMatches(calls, suite).All())
  {
    var r := new ConformanceReport();
    ghost var m := CallMatches(calls, suite);
    var raised := PythonStates(r, calls.states, suite.states, m.states);
    if raised {
      return null;
    }
    raised := PythonIllegal(r, calls.illegal, m.illegal);
    if raised {
      return null;
    }
    raised := PythonViewBonds(r, calls.viewBonds, suite.viewBonds, m.viewBonds);
    if raised {
      return null;
    }
    r.OkIffAllMatch(m);
    return r;
  }

  // ---------------------------------------------------------------- what a pass binds

  /** A target that answers a vector the same way each time: any behaviour of its two functions. */
  datatype Target = Target(replay: seq<ArsEvent> -> Replayed, build: (int, int) -> Built)

  function CallsOn(t: Target, suite: Suite): (calls: Calls)
    ensures Answers(calls, suite)
  {
    Calls(seq(|suite.states|, i requires 0 <= i < |suite.states| => t.replay(suite.states[i].log)),
          seq(|suite.illegal|, i requires 0 <= i < |suite.illegal| => t.replay(suite.illegal[i])),
          seq(|suite.viewBonds|, i requires 0 <= i < |suite.viewBonds| =>
            t.build(suite.viewBonds[i].minBond, suite.viewBonds[i].minScore)))
  }

  ghost predicate Passes(t: Target, suite: Suite) {
    CallMatches(CallsOn(t, suite), suite).All()
  }

  /** The package itself, seen as a target. */
  function Reference(d: Discriminators): Target {
    Target(log =>
             match PyReplay(log)
             case Ok(job) => Returned(Some(job.state), Some(job.releasedAtomic))
             case Err(_) => RaisedTransitionError,
           (minBond, minScore) =>
             match BuildViewBond(d, minBond, minScore)
             case Ok(data) => Data(data)
             case Err(_) => BuilderRaised)
  }

  /** Run against the package, the transport tallies what the self-test tallies, and stops when it stops. */
  lemma TransportOnReference(d: Discriminators, suite: Suite)
    ensures CallMatches(CallsOn(Reference(d), suite), suite) == SelfMatches(d, suite)
    ensures Uncaught !in CallsOn(Reference(d), suite).states && Uncaught !in CallsOn(Reference(d), suite).illegal
    ensures BuilderRaised in CallsOn(Reference(d), suite).viewBonds
       <==> exists v :: v in suite.viewBonds && Unbuildable(v)
  {
    var calls := CallsOn(Reference(d), suite);
    var a, b := CallMatches(calls, suite), SelfMatches(d, suite);
    assert a.states == b.states && a.illegal == b.illegal && a.viewBonds == b.viewBonds;
    forall i | 0 <= i < |suite.viewBonds|
      ensures calls.viewBonds[i] == BuilderRaised <==> Unbuildable(suite.viewBonds[i])
    {
      RefusedIffOutOfRange(d, ViewBond(suite.viewBonds[i].minBond, suite.viewBonds[i].minScore));
    }
    if v :| v in suite.viewBonds && Unbuildable(v) {
      var i :| 0 <= i < |suite.viewBonds| && suite.viewBonds[i] == v;
      assert calls.viewBonds[i] == BuilderRaised;
    }
  }

  /** An answer as the harness reads it. */
  function Seen(reply: Replayed): Replayed {
    if reply.Returned? then Returned(reply.state, Some(OrZero(reply.released))) else reply
  }

  ghost predicate Occurs(log: seq<ArsEvent>, suite: Suite) {
    log in suite.illegal || exists i :: 0 <= i < |suite.states| && suite.states[i].log == log
  }

  ghost predicate BindsLog(d: Discriminators, suite: Suite, log: seq<ArsEvent>) {
    forall t: Target :: Passes(t, suite) ==> Seen(t.replay(log)) == Seen(Reference(d).replay(log))
  }

  ghost predicate BindsViewBond(d: Discriminators, suite: Suite, minBond: int, minScore: int) {
    forall t: Target :: Passes(t, suite) ==> t.build(minBond, minScore) == Reference(d).build(minBond, minScore)
  }

  /** The package with one log answered by an error of the wrong kind. */
  function FailsOn(d: Discriminators, log: seq<ArsEvent>): Target {
    Reference(d).(replay := l => if l == log then RaisedOther else Reference(d).replay(l))
  }

  /** The package with one pair of view-bond arguments answered with other bytes. */
  function MisencodesOn(d: Discriminators, minBond: int, minScore: int): Target {
    Reference(d).(build := (b, s) =>
      if b == minBond && s == minScore then
        if Reference(d).build(b, s) == BuilderRaised then Data([]) else BuilderRaised
      else Reference(d).build(b, s))
  }

  lemma PassesOffSuite(d: Discriminators, suite: Suite, t: Target)
    requires SelfMatches(d, suite).All()
    requires CallsOn(t, suite) == CallsOn(Reference(d), suite)
    ensures Passes(t, suite)
  {
    TransportOnReference(d, suite);
  }

  lemma FailsOffSuite(d: Discriminators, suite: Suite, log: seq<ArsEvent>)
    requires SelfMatches(d, suite).All() && !Occurs(log, suite)
    ensures Passes(FailsOn(d, log), suite)
    ensures FailsOn(d, log).replay(log) == RaisedOther
  {
    var a, b := CallsOn(FailsOn(d, log), suite), CallsOn(Reference(d), suite);
    assert a.states == b.states && a.viewBonds == b.viewBonds;
    assert a.illegal == b.illegal by {
      assert forall i :: 0 <= i < |suite.illegal| ==> suite.illegal[i] in suite.illegal;
    }
    PassesOffSuite(d, suite, FailsOn(d, log));
  }

  lemma OnSuite(d: Discriminators, suite: Suite, t: Target, log: seq<ArsEvent>)
    requires SelfMatches(d, suite).All() && Passes(t, suite) && Occurs(log, suite)
    ensures Seen(t.replay(log)) == Seen(Reference(d).replay(log))
  {
    TransportOnReference(d, suite);
    var mine, theirs := CallsOn(t, suite), CallsOn(Reference(d), suite);
    var m := CallMatches(mine, suite);
    if log in suite.illegal {
      var i :| 0 <= i < |suite.illegal| && suite.illegal[i] == log;
      assert m.illegal[i] && SelfMatches(d, suite).illegal[i];
    } else {
      var i :| 0 <= i < |suite.states| && suite.states[i].log == log;
      assert m.states[i] && SelfMatches(d, suite).states[i];
    }
  }

  /**
   * What passing a suite says about a log: for any suite the package passes and any log, every passing
   * target answers as the package does on that log if and only if the log occurs in the suite.
   */
  lemma PassBindsLogIff(d: Discriminators, suite: Suite, log: seq<ArsEvent>)
    requires SelfMatches(d, suite).All()
    ensures BindsLog(d, suite, log) <==> Occurs(log, suite)
  {
    if Occurs(log, suite) {
      forall t: Target | Passes(t, suite)
        ensures Seen(t.replay(log)) == Seen(Reference(d).replay(log))
      {
        OnSuite(d, suite, t, log);
      }
    } else {
      FailsOffSuite(d, suite, log);
      assert Seen(FailsOn(d, log).replay(log)) == RaisedOther;
      assert Seen(Reference(d).replay(log)) != RaisedOther;
    }
  }

  ghost predicate OccursViewBond(minBond: int, minScore: int, suite: Suite) {
    exists i :: 0 <= i < |suite.viewBonds|
                && suite.viewBonds[i].minBond == minBond && suite.viewBonds[i].minScore == minScore
  }

  lemma OnSuiteViewBond(d: Discriminators, suite: Suite, t: Target, i: nat)
    requires SelfMatches(d, suite).All() && Passes(t, suite) && i < |suite.viewBonds|
    ensures var v := suite.viewBonds[i];
            t.build(v.minBond, v.minScore) == Reference(d).build(v.minBond, v.minScore)
  {
    var v := suite.viewBonds[i];
    assert CallMatches(CallsOn(t, suite), suite).viewBonds[i] && SelfMatches(d, suite).viewBonds[i];
    HexIsInjective(t.build(v.minBond, v.minScore).bytes, BuildViewBond(d, v.minBond, v.minScore).value);
  }

  lemma MisencodesOffSuite(d: Discriminators, suite: Suite, minBond: int, minScore: int)
    requires SelfMatches(d, suite).All() && !OccursViewBond(minBond, minScore, suite)
    ensures Passes(MisencodesOn(d, minBond, minScore), suite)
  {
    var a, b := CallsOn(MisencodesOn(d, minBond, minScore), suite), CallsOn(Reference(d), suite);
    assert a.states == b.states && a.illegal == b.illegal && a.viewBonds == b.viewBonds;
    PassesOffSuite(d, suite, MisencodesOn(d, minBond, minScore));
  }

  /** And the same for the encoder: a pass fixes the bytes for the listed arguments and for no others. */
  lemma PassBindsViewBondIff(d: Discriminators, suite: Suite, minBond: int, minScore: int)
    requires SelfMatches(d, suite).All()
    ensures BindsViewBond(d, suite, minBond, minScore) <==> OccursViewBond(minBond, minScore, suite)
  {
    if OccursViewBond(minBond, minScore, suite) {
      var i :| 0 <= i < |suite.viewBonds|
               && suite.viewBonds[i].minBond == minBond && suite.viewBonds[i].minScore == minScore;
      forall t: Target | Passes(t, suite)
        ensures t.build(minBond, minScore) == Reference(d).build(minBond, minScore)
      {
        OnSuiteViewBond(d, suite, t, i);
      }
    } else {
      MisencodesOffSuite(d, suite, minBond, minScore);
      assert MisencodesOn(d, minBond, minScore).build(minBond, minScore) != Reference(d).build(minBond, minScore);
    }
  }

  /** The target answers every vector of the suite as the package does. */
  ghost predicate AgreesOn(d: Discriminators, suite: Suite, t: Target) {
    && (forall log :: Occurs(log, suite) ==> Seen(t.replay(log)) == Seen(Reference(d).replay(log)))
    && (forall v :: v in suite.viewBonds ==>
          t.build(v.minBond, v.minScore) == Reference(d).build(v.minBond, v.minScore))
  }

  lemma AgreementPasses(d: Discriminators, suite: Suite, t: Target)
    requires SelfMatches(d, suite).All() && AgreesOn(d, suite, t)
    ensures Passes(t, suite)
  {
    TransportOnReference(d, suite);
    var theirs, mine := CallMatches(CallsOn(Reference(d), suite), suite), CallMatches(CallsOn(t, suite), suite);
    forall i | 0 <= i < |suite.states|
      ensures mine.states[i]
    {
      assert theirs.states[i] && Occurs(suite.states[i].log, suite);
    }
    forall i | 0 <= i < |suite.illegal|
      ensures mine.illegal[i]
    {
      assert theirs.illegal[i] && Occurs(suite.illegal[i], suite);
    }
    forall i | 0 <= i < |suite.viewBonds|
      ensures mine.viewBonds[i]
    {
      assert theirs.viewBonds[i] && suite.viewBonds[i] in suite.viewBonds;
    }
  }

  /** For any suite the package passes: a target passes exactly if it answers every vector as the package does. */
  lemma PassIffAgrees(d: Discriminators, suite: Suite, t: Target)
    requires SelfMatches(d, suite).All()
    ensures Passes(t, suite) <==> AgreesOn(d, suite, t)
  {
    if Passes(t, suite) {
      forall log | Occurs(log, suite) {
        OnSuite(d, suite, t, log);
      }
      forall v | v in suite.viewBonds
        ensures t.build(v.minBond, v.minScore) == Reference(d).build(v.minBond, v.minScore)
      {
        var i :| 0 <= i < |suite.viewBonds| && suite.viewBonds[i] == v;
        OnSuiteViewBond(d, suite, t, i);
      }
    }
    if AgreesOn(d, suite, t) {
      AgreementPasses(d, suite, t);
    }
  }

  /** The shipped corpus: passing it binds a target on its own eight logs and four calls and nowhere else. */
  lemma ShippedBindsIff(d: Discriminators, log: seq<ArsEvent>, minBond: int, minScore: int)
    ensures BindsLog(d, Shipped(d), log) <==> Occurs(log, Shipped(d))
    ensures BindsViewBond(d, Shipped(d), minBond, minScore) <==> OccursViewBond(minBond, minScore, Shipped(d))
  {
    ShippedPasses(d);
    PassBindsLogIff(d, Shipped(d), log);
    PassBindsViewBondIff(d, Shipped(d), minBond, minScore);
  }

  // ---------------------------------------------------------------- HTTP transport

  /** `int(payload.get("released_atomic") or 0)`: a number, or a value that `int` refuses. */
  datatype Released = Number(n: int) | NotANumber

  datatype ReplayReply =
    | NoReply
    | Reply(status: int, body: Option<(Option<PrincipalState>, Released)>)

  /** `data_hex` with a missing one read as empty; the body is None when it is not JSON. */
  datatype ViewBondReply =
    | NoBondReply
    | BondReply(status: int, hex: Option<string>)

  /** All an endpoint answers during one run, vector by vector. */
  datatype Transcript = Transcript(states: seq<ReplayReply>, illegal: seq<ReplayReply>, viewBonds: seq<ViewBondReply>)

  predicate Covers(replies: Transcript, suite: Suite) {
    && |replies.states| == |suite.states| && |replies.illegal| == |suite.illegal|
    && |replies.viewBonds| == |suite.viewBonds|
  }

  predicate ReplyState(reply: ReplayReply, v: StateVector) {
    reply.Reply? && reply.status == 200 && reply.body == Some((Some(v.expectedState), Number(v.expectedReleased)))
  }

  predicate ReplyRefuses(reply: ReplayReply) {
    reply.Reply? && 400 <= reply.status < 500
  }

  predicate ReplyViewBond(reply: ViewBondReply, v: ViewBondVector) {
    reply == BondReply(200, Some(v.expectedHex))
  }

  function HttpMatches(replies: Transcript, suite: Suite): Matches
    requires Covers(replies, suite)
  {
    Matches(
      seq(|suite.states|, i requires 0 <= i < |suite.states| => ReplyState(replies.states[i], suite.states[i])),
      seq(|suite.illegal|, i requires 0 <= i < |suite.illegal| => ReplyRefuses(replies.illegal[i])),
      seq(|suite.viewBonds|, i requires 0 <= i < |suite.viewBonds| =>
        ReplyViewBond(replies.viewBonds[i], suite.viewBonds[i])))
  }

  /** When a reply counts as a match, without the harness's helpers: an illegal log may get any 4xx, any body. */
  lemma ReplyMatchesMean(replies: Transcript, suite: Suite)
    requires Covers(replies, suite)
    ensures var m := HttpMatches(replies, suite);
      && |m.states| == |suite.states| && |m.illegal| == |suite.illegal| && |m.viewBonds| == |suite.viewBonds|
      && (forall i :: 0 <= i < |suite.states| ==>
            var v := suite.states[i];
            m.states[i] == (replies.states[i] == Reply(200, Some((Some(v.expectedState), Number(v.expectedReleased))))))
      && (forall i :: 0 <= i < |suite.illegal| ==>
            (m.illegal[i] <==> exists status, body :: 400 <= status < 500 && replies.illegal[i] == Reply(status, body)))
      && (forall i :: 0 <= i < |suite.viewBonds| ==>
            (m.viewBonds[i] <==> replies.viewBonds[i] == BondReply(200, Some(suite.viewBonds[i].expectedHex))))
  {
    forall i | 0 <= i < |suite.illegal|
      ensures HttpMatches(replies, suite).illegal[i] <==>
        exists status, body :: 400 <= status < 500 && replies.illegal[i] == Reply(status, body)
    {
      if replies.illegal[i].Reply? {
        assert replies.illegal[i] == Reply(replies.illegal[i].status, replies.illegal[i].body);
      }
    }
  }

  method HttpStates(r: ConformanceReport, replies: seq<ReplayReply>, vectors: seq<StateVector>,
                    ghost matches: seq<bool>)
    requires |matches| == |vectors| == |replies|
    requires forall i :: 0 <= i < |vectors| ==> matches[i] == ReplyState(replies[i], vectors[i])
    requires r.statePassed == 0 && r.stateFailed == []
    modifies r`statePassed, r`stateFailed
    ensures r.statePassed == Count(matches) && r.stateFailed == Missed(matches)
  {
    for i := 0 to |vectors|
      invariant r.statePassed == Count(matches[..i]) && r.stateFailed == Missed(matches[..i])
    {
      TallyStep(matches, i);
      if replies[i].NoReply? {
        r.stateFailed := r.stateFailed + [i];
        continue;
      }
      if replies[i].status != 200 {
        r.stateFailed := r.stateFailed + [i];
        continue;
      }
      match replies[i].body
      case None => r.stateFailed := r.stateFailed + [i];
      case Some((state, released)) =>
        // `and` looks at the amount only when the state is right, so only then can `int` raise
        if state == Some(vectors[i].expectedState) && released.Number? && released.n == vectors[i].expectedReleased {
          r.statePassed := r.statePassed + 1;
        } else {
          r.stateFailed := r.stateFailed + [i];
        }
    }
    assert matches[..|vectors|] == matches;
  }

  method HttpIllegal(r: ConformanceReport, replies: seq<ReplayReply>, ghost matches: seq<bool>)
    requires |matches| == |replies| && forall i :: 0 <= i < |replies| ==> matches[i] == ReplyRefuses(replies[i])
    requires r.illegalPassed == 0 && r.illegalFailed == []
    modifies r`illegalPassed, r`illegalFailed
    ensures r.illegalPassed == Count(matches) && r.illegalFailed == Missed(matches)
  {
    for i := 0 to |replies|
      invariant r.illegalPassed == Count(matches[..i]) && r.illegalFailed == Missed(matches[..i])
    {
      TallyStep(matches, i);
      match replies[i]
      case NoReply => r.illegalFailed := r.illegalFailed + [i];
      case Reply(status, _) =>
        if 400 <= status < 500 {
          r.illegalPassed := r.illegalPassed + 1;
        } else {
          r.illegalFailed := r.illegalFailed + [i];
        }
    }
    assert matches[..|replies|] == matches;
  }

  method HttpViewBonds(r: ConformanceReport, replies: seq<ViewBondReply>, vectors: seq<ViewBondVector>,
                       ghost matches: seq<bool>)
    requires |matches| == |vectors| == |replies|
    requires forall i :: 0 <= i < |vectors| ==> matches[i] == ReplyViewBond(replies[i], vectors[i])
    requires r.viewBondPassed == 0 && r.viewBondFailed == []
    modifies r`viewBondPassed, r`viewBondFailed
    ensures r.viewBondPassed == Count(matches) && r.viewBondFailed == Missed(matches)
  {
    for i := 0 to |vectors|
      invariant r.viewBondPassed == Count(matches[..i]) && r.viewBondFailed == Missed(matches[..i])
    {
      TallyStep(matches, i);
      if replies[i].NoBondReply? {
        r.viewBondFailed := r.viewBondFailed + [i];
        continue;
      }
      if replies[i].status != 200 {
        r.viewBondFailed := r.viewBondFailed + [i];
        continue;
      }
      match replies[i].hex
      case None => r.viewBondFailed := r.viewBondFailed + [i];
      case Some(hex) =>
        if hex == vectors[i].expectedHex {
          r.viewBondPassed := r.viewBondPassed + 1;
        } else {
          r.viewBondFailed := r.viewBondFailed + [i];
        }
    }
    assert matches[..|vectors|] == matches;
  }

  /** `_run_http_transport`: always a report, whatever the network does. */
  method RunHttpTransport(replies: Transcript, suite: Suite) returns (r: ConformanceReport)
    requires Covers(replies, suite)
    ensures fresh(r) && r.Tallies(HttpMatches(replies, suite))
    ensures r.Ok() <==> HttpMatches(replies, suite).All()
  {
    r := new ConformanceReport();
    ghost var m := HttpMatches(replies, suite);
    HttpStates(r, replies.states, suite.states, m.states);
    HttpIllegal(r, replies.illegal, m.illegal);
    HttpViewBonds(r, replies.viewBonds, suite.viewBonds, m.viewBonds);
    r.OkIffAllMatch(m);
  }

  // ---------------------------------------------------------------- certificate

  datatype Certificate = Certificate(
    subject: string, transport: string, issuedAt: int,
    statePassed: nat, stateTotal: nat,
    illegalPassed: nat, illegalTotal: nat,
    viewBondPassed: nat, viewBondTotal: nat)
  {
    predicate Passed() {
      statePassed == stateTotal && illegalPassed == illegalTotal && viewBondPassed == viewBondTotal
    }
  }

  function CertificateFromReport(r: ConformanceReport, subject: string, transport: string, now: int): Certificate
    reads r
  {
    Certificate(subject, transport, now,
                r.statePassed, r.statePassed + |r.stateFailed|,
                r.illegalPassed, r.illegalPassed + |r.illegalFailed|,
                r.viewBondPassed, r.viewBondPassed + |r.viewBondFailed|)
  }

  /**
   * A certificate of a run names the subject, transport and time it was issued for and states how many
   * vectors of each list matched and how many there were. It passes exactly when the report is fine, that
   * is, when the implementation matched every vector.
   */
  lemma CertificateIsTruthful(r: ConformanceReport, m: Matches, subject: string, transport: string, now: int)
    requires r.Tallies(m)
    ensures var c := CertificateFromReport(r, subject, transport, now);
      && c.subject == subject && c.transport == transport && c.issuedAt == now
      && c.statePassed == Count(m.states) && c.illegalPassed == Count(m.illegal)
      && c.viewBondPassed == Count(m.viewBonds)
      && c.stateTotal == |m.states| && c.illegalTotal == |m.illegal| && c.viewBondTotal == |m.viewBonds|
      && (c.Passed() <==> r.Ok()) && (c.Passed() <==> m.All())
  {
    TallyIsPartition(m.states);
    TallyIsPartition(m.illegal);
    TallyIsPartition(m.viewBonds);
    r.OkIffAllMatch(m);
  }
}
