/** Which of many claim outcomes decides a job: the first to arrive while the job awaits one (src/ingest.ts). */
module Rulings {
  import opened Events
  import opened StateMachine
  import opened Language
  import opened EventStore
  import opened StoreRuns
  import opened Ingest
  import opened IngestRuns

  /** A resolved claim or an arbiter's ruling, about the job. */
  predicate Rules(c: ChainEvent, id: string) {
    (c.payload.ClaimResolved? || c.payload.ArbiterRuled?) && id != "" && c.ctx.jobId == Some(id)
  }

  /** The outcomes in the agent's favour: rejected by the builder, arbitrated for the builder, ruled for the builder. */
  predicate Clears(payload: Payload) {
    payload in {ClaimResolved(3), ClaimResolved(7), ArbiterRuled(1)}
  }

  predicate AwaitsOutcome(s: Store, id: string) {
    StateOf(s, id) in {Some(EVIDENCE_SUBMITTED), Some(DISPUTED)}
  }

  predicate IsClosed(s: Store, id: string) {
    StateOf(s, id) == Some(CLOSED)
  }

  function RulingEvent(c: ChainEvent, id: string): ArsEvent {
    Closed(id, c.ctx.at, if Clears(c.payload) then DisputeRejected else DisputeUpheld)
  }

  lemma FeedSnoc(s: Store, feed: seq<ChainEvent>, c: ChainEvent)
    ensures IngestFeed(s, feed + [c]) ==
            match ToArsEvent(c.payload, c.ctx)
            case None => IngestFeed(s, feed)
            case Some(e) => Step(IngestFeed(s, feed), e)
  {
    TranslateSnoc(feed, c);
    if ToArsEvent(c.payload, c.ctx).Some? {
      RunSnoc(s, Translate(feed), ToArsEvent(c.payload, c.ctx).value);
    }
  }

  lemma RulingTranslates(c: ChainEvent, id: string)
    ensures Rules(c, id) ==> ToArsEvent(c.payload, c.ctx) == Some(RulingEvent(c, id))
    ensures forall e :: ToArsEvent(c.payload, c.ctx) == Some(e) && e.jobId == id && e.Closed? ==> Rules(c, id)
    ensures forall e :: ToArsEvent(c.payload, c.ctx) == Some(e) ==> !e.JobOpened?
  {
  }

  lemma StateAfterStep(s: Store, e: ArsEvent, id: string)
    requires s.Valid() && !e.JobOpened?
    ensures StateOf(Step(s, e), id) ==
            if e.jobId == id && Append(s, e).Ok? then Some(StateAfter(e)) else StateOf(s, id)
  {
    StepTouchesOneLog(s, e, id);
    if e.jobId == id {
      AcceptedByState(s, e);
    }
  }

  lemma ClosingIsTaken(s: Store, e: ArsEvent)
    requires s.Valid() && !e.JobOpened?
    ensures IsClosed(s, e.jobId) ==> Append(s, e).Err?
    ensures e.Closed? ==> (Append(s, e).Ok? <==> AwaitsOutcome(s, e.jobId))
  {
    AcceptedByState(s, e);
  }

  lemma StepOutcome(s: Store, e: ArsEvent, id: string)
    requires s.Valid() && !e.JobOpened?
    ensures IsClosed(s, id) ==> Step(s, e).LogOf(id) == s.LogOf(id)
    ensures !IsClosed(s, id) ==> (IsClosed(Step(s, e), id) <==> e.Closed? && e.jobId == id && AwaitsOutcome(s, id))
    ensures e.Closed? && e.jobId == id && AwaitsOutcome(s, id) ==> Step(s, e).LogOf(id) == s.LogOf(id) + [e]
  {
    StepTouchesOneLog(s, e, id);
    StateAfterStep(s, e, id);
    ClosingIsTaken(s, e);
  }

  /** One payload closes a job exactly if it rules on it while it awaits an outcome, and files its verdict. */
  lemma OutcomeStep(s: Store, feed: seq<ChainEvent>, c: ChainEvent, id: string)
    requires IngestFeed(s, feed).Valid()
    ensures var before, after := IngestFeed(s, feed), IngestFeed(s, feed + [c]);
      && (IsClosed(before, id) ==> after.LogOf(id) == before.LogOf(id))
      && (!IsClosed(before, id) ==> (IsClosed(after, id) <==> Rules(c, id) && AwaitsOutcome(before, id)))
      && (Rules(c, id) && AwaitsOutcome(before, id) ==> after.LogOf(id) == before.LogOf(id) + [RulingEvent(c, id)])
  {
    FeedSnoc(s, feed, c);
    RulingTranslates(c, id);
    if ToArsEvent(c.payload, c.ctx).Some? {
      StepOutcome(IngestFeed(s, feed), ToArsEvent(c.payload, c.ctx).value, id);
    }
  }

  /** Position i of a feed is a ruling that reaches the job while it awaits one. */
  predicate DecidesAt(s: Store, feed: seq<ChainEvent>, i: nat, id: string) {
    i < |feed| && Rules(feed[i], id) && AwaitsOutcome(IngestFeed(s, feed[..i]), id)
  }

  /** Such a ruling stands: the job stays closed with its verdict at the end of the log, whatever comes later. */
  lemma {:induction false} RulingStands(s: Store, feed: seq<ChainEvent>, i: nat, id: string)
    requires s.Valid() && DecidesAt(s, feed, i, id)
    ensures IngestFeed(s, feed).LogOf(id) == IngestFeed(s, feed[..i]).LogOf(id) + [RulingEvent(feed[i], id)]
    ensures IsClosed(IngestFeed(s, feed), id)
    decreases |feed|
  {
    var n := |feed| - 1;
    assert feed == feed[..n] + [feed[n]];
    RunIsValid(s, Translate(feed[..n]));
    OutcomeStep(s, feed[..n], feed[n], id);
    if i < n {
      assert feed[..n][..i] == feed[..i];
      RulingStands(s, feed[..n], i, id);
    }
  }

  /** At most one position decides. */
  lemma OnlyOneDecides(s: Store, feed: seq<ChainEvent>, i: nat, j: nat, id: string)
    requires s.Valid() && DecidesAt(s, feed, i, id) && DecidesAt(s, feed, j, id)
    ensures i == j
  {
    var low, high := if i < j then i else j, if i < j then j else i;
    if low < high {
      assert feed[..high][..low] == feed[..low];
      RulingStands(s, feed[..high], low, id);
      assert false;
    }
  }

  lemma DecidedEarlier(s: Store, feed: seq<ChainEvent>, n: nat, i: nat, id: string)
    requires n <= |feed| && DecidesAt(s, feed[..n], i, id)
    ensures DecidesAt(s, feed, i, id)
  {
    assert feed[..n][..i] == feed[..i];
  }

  lemma FeedIsValid(s: Store, feed: seq<ChainEvent>)
    requires s.Valid()
    ensures IngestFeed(s, feed).Valid()
  {
    RunIsValid(s, Translate(feed));
  }

  lemma LastOutcome(s: Store, earlier: seq<ChainEvent>, c: ChainEvent, id: string)
    requires IngestFeed(s, earlier).Valid()
    requires !IsClosed(IngestFeed(s, earlier), id) && IsClosed(IngestFeed(s, earlier + [c]), id)
    ensures Rules(c, id) && AwaitsOutcome(IngestFeed(s, earlier), id)
  {
    OutcomeStep(s, earlier, c, id);
  }

  lemma LastDecides(s: Store, earlier: seq<ChainEvent>, c: ChainEvent, id: string)
    requires Rules(c, id) && AwaitsOutcome(IngestFeed(s, earlier), id)
    ensures DecidesAt(s, earlier + [c], |earlier|, id)
  {
    assert (earlier + [c])[..|earlier|] == earlier && (earlier + [c])[|earlier|] == c;
  }

  lemma {:induction false} ClosedMeansDecided(s: Store, feed: seq<ChainEvent>, id: string) returns (i: nat)
    requires s.Valid() && !IsClosed(s, id) && IsClosed(IngestFeed(s, feed), id)
    ensures DecidesAt(s, feed, i, id)
    decreases |feed|
  {
    var n := |feed| - 1;
    var earlier, c := feed[..n], feed[n];
    assert feed == earlier + [c];
    if IsClosed(IngestFeed(s, earlier), id) {
      i := ClosedMeansDecided(s, earlier, id);
      DecidedEarlier(s, feed, n, i, id);
    } else {
      i := n;
      FeedIsValid(s, earlier);
      LastOutcome(s, earlier, c, id);
      LastDecides(s, earlier, c, id);
    }
  }

  /**
   * Any feed, any open job: the feed closes it exactly if some ruling reaches it while it awaits one; that
   * ruling is unique, and it alone decides the resolution. All others, before and after, have no say.
   */
  lemma FirstRulingDecides(s: Store, feed: seq<ChainEvent>, id: string)
    requires s.Valid() && !IsClosed(s, id)
    ensures IsClosed(IngestFeed(s, feed), id) <==> exists i: nat :: DecidesAt(s, feed, i, id)
    ensures forall i: nat :: DecidesAt(s, feed, i, id) ==>
      && IngestFeed(s, feed).LogOf(id) == IngestFeed(s, feed[..i]).LogOf(id) + [RulingEvent(feed[i], id)]
      && RulingEvent(feed[i], id) == Closed(id, feed[i].ctx.at, RulingEvent(feed[i], id).resolution)
      && (if feed[i].payload in {ClaimResolved(3), ClaimResolved(7), ArbiterRuled(1)} then
            RulingEvent(feed[i], id).resolution == DisputeRejected
          else RulingEvent(feed[i], id).resolution == DisputeUpheld)
      && forall j: nat :: DecidesAt(s, feed, j, id) ==> i == j
  {
    if IsClosed(IngestFeed(s, feed), id) {
      var i := ClosedMeansDecided(s, feed, id);
    }
    forall i: nat | DecidesAt(s, feed, i, id)
      ensures IsClosed(IngestFeed(s, feed), id)
      ensures IngestFeed(s, feed).LogOf(id) == IngestFeed(s, feed[..i]).LogOf(id) + [RulingEvent(feed[i], id)]
      ensures forall j: nat :: DecidesAt(s, feed, j, id) ==> i == j
    {
      RulingStands(s, feed, i, id);
      forall j: nat | DecidesAt(s, feed, j, id) {
        OnlyOneDecides(s, feed, i, j, id);
      }
    }
  }
}
