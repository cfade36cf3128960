/** What a pass over HTTP binds, and what it lets through (python/src/telaro_ars/conformance_cli.py:245-319). */
module HttpPass {
  import opened Events
  import opened StateMachine
  import opened PythonState
  import opened Bytes
  import opened Binding
  import opened Conformance
  import opened ConformanceCli

  /** An endpoint that answers a request the same way each time. */
  datatype Endpoint = Endpoint(replay: seq<ArsEvent> -> ReplayReply, viewBond: (int, int) -> ViewBondReply)

  function RepliesOf(t: Endpoint, suite: Suite): (replies: Transcript)
    ensures Covers(replies, suite)
  {
    Transcript(seq(|suite.states|, i requires 0 <= i < |suite.states| => t.replay(suite.states[i].log)),
               seq(|suite.illegal|, i requires 0 <= i < |suite.illegal| => t.replay(suite.illegal[i])),
               seq(|suite.viewBonds|, i requires 0 <= i < |suite.viewBonds| =>
                 t.viewBond(suite.viewBonds[i].minBond, suite.viewBonds[i].minScore)))
  }

  ghost predicate HttpPasses(t: Endpoint, suite: Suite) {
    HttpMatches(RepliesOf(t, suite), suite).All()
  }

  /** The package behind the documented protocol, with a chosen status for an illegal log. */
  function Served(d: Discriminators, refusal: int): Endpoint {
    Endpoint(log =>
               match PyReplay(log)
               case Ok(job) => Reply(200, Some((Some(job.state), Number(job.releasedAtomic))))
               case Err(_) => Reply(refusal, None),
             (minBond, minScore) =>
               match BuildViewBond(d, minBond, minScore)
               case Ok(data) => BondReply(200, Some(Hex(data)))
               case Err(_) => BondReply(400, None))
  }

  lemma ServedMatches(d: Discriminators, suite: Suite, refusal: int)
    requires 400 <= refusal < 500
    ensures HttpMatches(RepliesOf(Served(d, refusal), suite), suite) == SelfMatches(d, suite)
  {
    var a, b := HttpMatches(RepliesOf(Served(d, refusal), suite), suite), SelfMatches(d, suite);
    assert a.states == b.states && a.illegal == b.illegal && a.viewBonds == b.viewBonds;
  }

  /** An answer as the harness reads it. */
  datatype Heard = Derived(state: PrincipalState, released: int) | Refused | Unusable

  function Hear(reply: ReplayReply): Heard {
    match reply
    case NoReply => Unusable
    case Reply(status, body) =>
      if 400 <= status < 500 then Refused
      else if status == 200 && body.Some? && body.value.0.Some? && body.value.1.Number? then
        Derived(body.value.0.value, body.value.1.n)
      else Unusable
  }

  ghost predicate HttpBindsLog(d: Discriminators, suite: Suite, log: seq<ArsEvent>) {
    forall t: Endpoint :: HttpPasses(t, suite) ==> Hear(t.replay(log)) == Hear(Served(d, 400).replay(log))
  }

  /** The package with one log never answered. */
  function SilentOn(d: Discriminators, log: seq<ArsEvent>): Endpoint {
    Served(d, 400).(replay := l => if l == log then NoReply else Served(d, 400).replay(l))
  }

  lemma SilentOffSuite(d: Discriminators, suite: Suite, log: seq<ArsEvent>)
    requires SelfMatches(d, suite).All() && !Occurs(log, suite)
    ensures HttpPasses(SilentOn(d, log), suite)
  {
    var a, b := RepliesOf(SilentOn(d, log), suite), RepliesOf(Served(d, 400), suite);
    assert a.states == b.states && a.viewBonds == b.viewBonds;
    assert a.illegal == b.illegal by {
      assert forall i :: 0 <= i < |suite.illegal| ==> suite.illegal[i] in suite.illegal;
    }
    ServedMatches(d, suite, 400);
  }

  lemma HeardOnSuite(d: Discriminators, suite: Suite, t: Endpoint, log: seq<ArsEvent>)
    requires SelfMatches(d, suite).All() && HttpPasses(t, suite) && Occurs(log, suite)
    ensures Hear(t.replay(log)) == Hear(Served(d, 400).replay(log))
  {
    var m := HttpMatches(RepliesOf(t, suite), suite);
    if log in suite.illegal {
      var i :| 0 <= i < |suite.illegal| && suite.illegal[i] == log;
      assert m.illegal[i] && SelfMatches(d, suite).illegal[i];
    } else {
      var i :| 0 <= i < |suite.states| && suite.states[i].log == log;
      assert m.states[i] && SelfMatches(d, suite).states[i];
    }
  }

  /**
   * For any suite the package passes and any log: every passing endpoint is heard to answer as the package
   * does on that log if and only if the log occurs in the suite.
   */
  lemma HttpPassBindsLogIff(d: Discriminators, suite: Suite, log: seq<ArsEvent>)
    requires SelfMatches(d, suite).All()
    ensures HttpBindsLog(d, suite, log) <==> Occurs(log, suite)
  {
    if Occurs(log, suite) {
      forall t: Endpoint | HttpPasses(t, suite)
        ensures Hear(t.replay(log)) == Hear(Served(d, 400).replay(log))
      {
        HeardOnSuite(d, suite, t, log);
      }
    } else {
      SilentOffSuite(d, suite, log);
      assert Hear(SilentOn(d, log).replay(log)) == Unusable;
      assert Hear(Served(d, 400).replay(log)) != Unusable;
    }
  }

  ghost predicate HttpBindsViewBond(d: Discriminators, suite: Suite, minBond: int, minScore: int) {
    forall t: Endpoint :: HttpPasses(t, suite) ==>
      t.viewBond(minBond, minScore) == Served(d, 400).viewBond(minBond, minScore)
  }

  /** The package with one pair of view-bond arguments never answered. */
  function SilentOnViewBond(d: Discriminators, minBond: int, minScore: int): Endpoint {
    Served(d, 400).(viewBond := (b, s) =>
      if b == minBond && s == minScore then NoBondReply else Served(d, 400).viewBond(b, s))
  }

  lemma SilentViewBondOffSuite(d: Discriminators, suite: Suite, minBond: int, minScore: int)
    requires SelfMatches(d, suite).All() && !OccursViewBond(minBond, minScore, suite)
    ensures HttpPasses(SilentOnViewBond(d, minBond, minScore), suite)
  {
    var a, b := RepliesOf(SilentOnViewBond(d, minBond, minScore), suite), RepliesOf(Served(d, 400), suite);
    assert a.states == b.states && a.illegal == b.illegal && a.viewBonds == b.viewBonds;
    ServedMatches(d, suite, 400);
  }

  lemma BondReplyOnSuite(d: Discriminators, suite: Suite, t: Endpoint, i: nat)
    requires SelfMatches(d, suite).All() && HttpPasses(t, suite) && i < |suite.viewBonds|
    ensures var v := suite.viewBonds[i];
            t.viewBond(v.minBond, v.minScore) == Served(d, 400).viewBond(v.minBond, v.minScore)
  {
    ServedMatches(d, suite, 400);
    assert HttpMatches(RepliesOf(t, suite), suite).viewBonds[i];
    assert HttpMatches(RepliesOf(Served(d, 400), suite), suite).viewBonds[i];
  }

  /** And every passing endpoint encodes a pair of arguments as the package does exactly if the pair is listed. */
  lemma HttpPassBindsViewBondIff(d: Discriminators, suite: Suite, minBond: int, minScore: int)
    requires SelfMatches(d, suite).All()
    ensures HttpBindsViewBond(d, suite, minBond, minScore) <==> OccursViewBond(minBond, minScore, suite)
  {
    if OccursViewBond(minBond, minScore, suite) {
      var i :| 0 <= i < |suite.viewBonds|
               && suite.viewBonds[i].minBond == minBond && suite.viewBonds[i].minScore == minScore;
      forall t: Endpoint | HttpPasses(t, suite)
        ensures t.viewBond(minBond, minScore) == Served(d, 400).viewBond(minBond, minScore)
      {
        BondReplyOnSuite(d, suite, t, i);
      }
    } else {
      SilentViewBondOffSuite(d, suite, minBond, minScore);
      assert SilentOnViewBond(d, minBond, minScore).viewBond(minBond, minScore) == NoBondReply;
      assert Served(d, 400).viewBond(minBond, minScore) != NoBondReply;
    }
  }

  /** The endpoint is heard to answer every vector of the suite as the package does. */
  ghost predicate HttpAgreesOn(d: Discriminators, suite: Suite, t: Endpoint) {
    && (forall log :: Occurs(log, suite) ==> Hear(t.replay(log)) == Hear(Served(d, 400).replay(log)))
    && (forall v :: v in suite.viewBonds ==>
          t.viewBond(v.minBond, v.minScore) == Served(d, 400).viewBond(v.minBond, v.minScore))
  }

  lemma HttpAgreementPasses(d: Discriminators, suite: Suite, t: Endpoint)
    requires SelfMatches(d, suite).All() && HttpAgreesOn(d, suite, t)
    ensures HttpPasses(t, suite)
  {
    ServedMatches(d, suite, 400);
    var theirs := HttpMatches(RepliesOf(Served(d, 400), suite), suite);
    var mine := HttpMatches(RepliesOf(t, suite), suite);
    forall i | 0 <= i < |suite.states|
      ensures mine.states[i]
    {
      assert theirs.states[i] && Occurs(suite.states[i].log, suite);
    }
    forall i | 0 <= i < |suite.illegal|
      ensures mine.illegal[i]
    {
      assert theirs.illegal[i] && Occurs(suite.illegal[i], suite);
    }
    forall i | 0 <= i < |suite.viewBonds|
      ensures mine.viewBonds[i]
    {
      assert theirs.viewBonds[i] && suite.viewBonds[i] in suite.viewBonds;
    }
  }

  /** For any suite the package passes: an endpoint passes exactly if it is heard to answer as the package does. */
  lemma HttpPassIffAgrees(d: Discriminators, suite: Suite, t: Endpoint)
    requires SelfMatches(d, suite).All()
    ensures HttpPasses(t, suite) <==> HttpAgreesOn(d, suite, t)
  {
    if HttpPasses(t, suite) {
      forall log | Occurs(log, suite) {
        HeardOnSuite(d, suite, t, log);
      }
      forall v | v in suite.viewBonds
        ensures t.viewBond(v.minBond, v.minScore) == Served(d, 400).viewBond(v.minBond, v.minScore)
      {
        var i :| 0 <= i < |suite.viewBonds| && suite.viewBonds[i] == v;
        BondReplyOnSuite(d, suite, t, i);
      }
    }
    if HttpAgreesOn(d, suite, t) {
      HttpAgreementPasses(d, suite, t);
    }
  }

  // ---------------------------------------------------------------- the documented refusal

  /** The protocol of the docstring: an illegal log must be answered with 400, and nothing else. */
  function ProtocolMatches(replies: Transcript, suite: Suite): Matches
    requires Covers(replies, suite)
  {
    HttpMatches(replies, suite).(illegal := seq(|suite.illegal|, i requires 0 <= i < |suite.illegal| =>
      replies.illegal[i].Reply? && replies.illegal[i].status == 400))
  }

  /** An illegal log answered with a client error that is not the documented one. */
  ghost predicate OtherClientError(replies: Transcript) {
    exists i :: 0 <= i < |replies.illegal| && replies.illegal[i].Reply? && 400 < replies.illegal[i].status < 500
  }

  /** What follows the protocol passes; what passes follows it exactly if no refusal is another 4xx. */
  lemma PassVersusProtocol(replies: Transcript, suite: Suite)
    requires Covers(replies, suite)
    ensures ProtocolMatches(replies, suite).All() <==>
      HttpMatches(replies, suite).All() && !OtherClientError(replies)
  {
    var m, p := HttpMatches(replies, suite), ProtocolMatches(replies, suite);
    assert forall i :: 0 <= i < |suite.illegal| ==> m.illegal[i] == ReplyRefuses(replies.illegal[i]);
    assert forall i :: 0 <= i < |suite.illegal| ==>
      p.illegal[i] == (replies.illegal[i].Reply? && replies.illegal[i].status == 400);
    if p.All() {
      assert forall i :: 0 <= i < |m.illegal| ==> p.illegal[i] && m.illegal[i];
    }
    if m.All() && !OtherClientError(replies) {
      assert forall i :: 0 <= i < |p.illegal| ==> m.illegal[i] && p.illegal[i];
    }
  }

  /** An endpoint that knows no illegal log and says 404 passes wherever the package does, against the protocol. */
  lemma NotFoundPasses(d: Discriminators, suite: Suite)
    requires SelfMatches(d, suite).All() && suite.illegal != []
    ensures HttpPasses(Served(d, 404), suite)
    ensures !ProtocolMatches(RepliesOf(Served(d, 404), suite), suite).All()
  {
    var replies := RepliesOf(Served(d, 404), suite);
    ServedMatches(d, suite, 404);
    assert SelfMatches(d, suite).illegal[0];
    assert replies.illegal[0] == Reply(404, None);
    PassVersusProtocol(replies, suite);
  }
}
