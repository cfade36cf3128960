/** What a feed of on-chain events, in any order and with any repetition, can and cannot do to a store. */
module IngestRuns {
  import opened Events
  import opened StateMachine
  import opened Language
  import opened Histories
  import opened EventStore
  import opened StoreRuns
  import opened InMemoryEventStores
  import opened Bytes
  import opened Ingest

  datatype ChainEvent = ChainEvent(payload: Payload, ctx: Context)

  /** The events an indexer appends for a feed: those that have a translation. */
  function Translate(feed: seq<ChainEvent>): seq<ArsEvent> {
    if feed == [] then []
    else
      var rest, c := Translate(feed[..|feed| - 1]), feed[|feed| - 1];
      match ToArsEvent(c.payload, c.ctx)
      case None => rest
      case Some(e) => rest + [e]
  }

  function IngestFeed(s: Store, feed: seq<ChainEvent>): Store {
    Run(s, Translate(feed))
  }

  /** The indexer's loop: translate, append, and go on after a refusal. */
  method IngestLoop(store: InMemoryEventStore, feed: seq<ChainEvent>)
    requires store.Valid()
    modifies store
    ensures store.Valid()
    ensures store.Value() == IngestFeed(old(store.Value()), feed)
  {
    for i := 0 to |feed|
      invariant store.Valid()
      invariant store.Value() == IngestFeed(old(store.Value()), feed[..i])
    {
      assert feed[..i + 1] == feed[..i] + [feed[i]];
      TranslateSnoc(feed[..i], feed[i]);
      var event := ToArsEvent(feed[i].payload, feed[i].ctx);
      if event.Some? {
        RunSnoc(old(store.Value()), Translate(feed[..i]), event.value);
        var _ := store.Append(event.value);
      }
    }
    assert feed[..|feed|] == feed;
  }

  predicate AllFromChain(chain: Chain, events: seq<ArsEvent>) {
    forall e :: e in events ==> FromChain(chain, e)
  }

  predicate Emitted(chain: Chain, feed: seq<ChainEvent>) {
    forall c :: c in feed ==> Emits(chain, c.payload)
  }

  lemma {:induction false} TranslateIsFromChain(chain: Chain, feed: seq<ChainEvent>)
    requires Emitted(chain, feed)
    ensures AllFromChain(chain, Translate(feed))
  {
    if feed != [] {
      var c := feed[|feed| - 1];
      TranslateIsFromChain(chain, feed[..|feed| - 1]);
      if ToArsEvent(c.payload, c.ctx).Some? {
        TranslationIsFromChain(chain, c.payload, c.ctx);
      }
    }
  }

  lemma TranslateSnoc(feed: seq<ChainEvent>, c: ChainEvent)
    ensures Translate(feed + [c]) ==
            match ToArsEvent(c.payload, c.ctx)
            case None => Translate(feed)
            case Some(e) => Translate(feed) + [e]
  {
    assert (feed + [c])[..|feed|] == feed;
  }

  /** Every list of such events is the translation of some feed. */
  function FeedFor(chain: Chain, events: seq<ArsEvent>): seq<ChainEvent>
    requires AllFromChain(chain, events)
  {
    if events == [] then []
    else
      var origin := Origin(chain, events[|events| - 1]);
      FeedFor(chain, events[..|events| - 1]) + [ChainEvent(origin.0, origin.1)]
  }

  lemma OriginExtends(chain: Chain, feed: seq<ChainEvent>, e: ArsEvent)
    requires Emitted(chain, feed) && FromChain(chain, e)
    ensures var longer := feed + [ChainEvent(Origin(chain, e).0, Origin(chain, e).1)];
            Emitted(chain, longer) && Translate(longer) == Translate(feed) + [e]
  {
    OriginTranslates(chain, e);
    TranslateSnoc(feed, ChainEvent(Origin(chain, e).0, Origin(chain, e).1));
  }

  lemma {:induction false} FeedForTranslates(chain: Chain, events: seq<ArsEvent>)
    requires AllFromChain(chain, events)
    ensures Emitted(chain, FeedFor(chain, events)) && Translate(FeedFor(chain, events)) == events
  {
    if events != [] {
      var rest, e := events[..|events| - 1], events[|events| - 1];
      FeedForTranslates(chain, rest);
      OriginExtends(chain, FeedFor(chain, rest), e);
    }
  }

  predicate OutOfReach(state: PrincipalState) {
    state in {AWAIT_UNDERWRITING, UNDERWRITING, REJECTED, CLOSED}
  }

  lemma ChainStep(chain: Chain, s: Store, e: ArsEvent, id: string)
    requires s.Valid() && FromChain(chain, e)
    ensures Step(s, e).ids == s.ids
    ensures StateOf(s, id).None? || OutOfReach(StateOf(s, id).value) ==> Step(s, e).LogOf(id) == s.LogOf(id)
  {
    StepTouchesOneLog(s, e, id);
    if Append(s, e).Ok? {
      AcceptedOpensUnknown(s, e);
      AcceptedByState(s, e);
    }
  }

  /** The chain opens no job, and cannot touch one that underwriting has not approved or that is over. */
  lemma {:induction false} ChainLeavesAlone(chain: Chain, s: Store, events: seq<ArsEvent>, id: string)
    requires s.Valid() && AllFromChain(chain, events)
    ensures Run(s, events).ids == s.ids
    ensures StateOf(s, id).None? || OutOfReach(StateOf(s, id).value) ==> Run(s, events).LogOf(id) == s.LogOf(id)
  {
    if events != [] {
      var earlier, e := events[..|events| - 1], events[|events| - 1];
      ChainLeavesAlone(chain, s, earlier, id);
      RunIsValid(s, earlier);
      ChainStep(chain, Run(s, earlier), e, id);
    }
  }

  function Closings(log: seq<ArsEvent>): nat {
    if log == [] then 0 else Closings(log[..|log| - 1]) + (if log[|log| - 1].Closed? then 1 else 0)
  }

  lemma {:induction false} NoClosedNoClosing(log: seq<ArsEvent>)
    requires forall i :: 0 <= i < |log| ==> !log[i].Closed?
    ensures Closings(log) == 0
  {
    if log != [] {
      NoClosedNoClosing(log[..|log| - 1]);
    }
  }

  lemma ClosesOnce(log: seq<ArsEvent>)
    requires Replay(log).Ok?
    ensures Closings(log) <= 1
  {
    var rest := log[..|log| - 1];
    AcceptedForm(log);
    forall i | 0 <= i < |rest|
      ensures !rest[i].Closed?
    {
      EventSlots(log, i);
    }
    NoClosedNoClosing(rest);
  }

  lemma ClosingsConcat(a: seq<ArsEvent>, b: seq<ArsEvent>)
    ensures Closings(a + b) == Closings(a) + Closings(b)
  {
    if b == [] {
      assert a + b == a;
    } else {
      assert (a + b)[..|a + b| - 1] == a + b[..|b| - 1];
      ClosingsConcat(a, b[..|b| - 1]);
    }
  }

  lemma {:induction false} AcceptedIsFromChain(chain: Chain, s: Store, events: seq<ArsEvent>)
    requires AllFromChain(chain, events)
    ensures AllFromChain(chain, Accepted(s, events))
  {
    if events != [] {
      AcceptedIsFromChain(chain, s, events[..|events| - 1]);
    }
  }

  lemma {:induction false} OnlyIsSubset(events: seq<ArsEvent>, id: string)
    ensures forall e :: e in Only(events, id) ==> e in events && e.jobId == id
  {
    if events != [] {
      OnlyIsSubset(events[..|events| - 1], id);
    }
  }

  /**
   * Any feed, from any valid store: the job ids stay as they are, jobs out of reach keep their logs,
   * and every other log is only continued, with events that the chain can carry and with at most one
   * `Closed`, however many claims are resolved or ruled on, and how often, and in which order.
   */
  lemma FeedsAreHarmless(chain: Chain, s: Store, feed: seq<ChainEvent>, id: string)
    requires s.Valid() && Emitted(chain, feed)
    ensures IngestFeed(s, feed).Valid()
    ensures IngestFeed(s, feed).ids == s.ids
    ensures StateOf(s, id).None? || OutOfReach(StateOf(s, id).value) ==>
      IngestFeed(s, feed).LogOf(id) == s.LogOf(id)
    ensures IngestFeed(s, feed).LogOf(id) == s.LogOf(id) + Only(Accepted(s, Translate(feed)), id)
    ensures AllFromChain(chain, Only(Accepted(s, Translate(feed)), id))
    ensures Closings(Only(Accepted(s, Translate(feed)), id)) <= 1
  {
    var events, t := Translate(feed), IngestFeed(s, feed);
    TranslateIsFromChain(chain, feed);
    RunIsValid(s, events);
    ChainLeavesAlone(chain, s, events, id);
    LogHoldsAccepted(s, events, id);
    AcceptedIsFromChain(chain, s, events);
    OnlyIsSubset(Accepted(s, events), id);
    ClosingsConcat(s.LogOf(id), Only(Accepted(s, events), id));
    if t.LogOf(id) != [] {
      assert ValidLog(t.LogOf(id), id);
      ClosesOnce(t.LogOf(id));
    }
  }

  /** The jobs a feed can close: those awaiting a claim, and those whose id some action can hash to. */
  ghost predicate Closable(chain: Chain, state: PrincipalState, id: string) {
    && id != ""
    && match state
       case EVIDENCE_SUBMITTED => true
       case DISPUTED => true
       case EXECUTING => SpellsHash(chain, id)
       case RELEASABLE => SpellsHash(chain, id) && exists amount :: chain.amount(amount)
       case _ => false
  }

  ghost predicate SomeFeedCloses(chain: Chain, s: Store, id: string) {
    exists feed :: Emitted(chain, feed) && StateOf(IngestFeed(s, feed), id) == Some(CLOSED)
  }

  lemma UnclosableStep(chain: Chain, s: Store, e: ArsEvent, id: string)
    requires s.Valid() && FromChain(chain, e)
    requires StateOf(s, id).Some? && StateOf(s, id).value != CLOSED && !Closable(chain, StateOf(s, id).value, id)
    ensures StateOf(Step(s, e), id).Some?
    ensures StateOf(Step(s, e), id).value != CLOSED && !Closable(chain, StateOf(Step(s, e), id).value, id)
  {
    StepTouchesOneLog(s, e, id);
    if e.jobId == id {
      AcceptedByState(s, e);
    }
  }

  lemma {:induction false} UnclosableRun(chain: Chain, s: Store, events: seq<ArsEvent>, id: string)
    requires s.Valid() && AllFromChain(chain, events)
    requires StateOf(s, id).Some? && StateOf(s, id).value != CLOSED && !Closable(chain, StateOf(s, id).value, id)
    ensures StateOf(Run(s, events), id).Some?
    ensures StateOf(Run(s, events), id).value != CLOSED && !Closable(chain, StateOf(Run(s, events), id).value, id)
  {
    if events != [] {
      var earlier, e := events[..|events| - 1], events[|events| - 1];
      UnclosableRun(chain, s, earlier, id);
      RunIsValid(s, earlier);
      UnclosableStep(chain, Run(s, earlier), e, id);
    }
  }

  /** The chain events that take a closable job to its end. */
  function ClosingEvents(state: PrincipalState, id: string, amount: int): seq<ArsEvent> {
    var close, evidence := Closed(id, 0, DisputeUpheld), EvidenceSubmitted(id, 0, id, Succeeded);
    match state
    case RELEASABLE => [PrincipalReleased(id, 0, amount), evidence, close]
    case EXECUTING => [evidence, close]
    case _ => [close]
  }

  lemma TakeFirst(s: Store, e: ArsEvent, rest: seq<ArsEvent>)
    requires s.Valid() && !e.JobOpened?
    requires StateOf(s, e.jobId).Some? && KindOf(e) in Next(StateOf(s, e.jobId).value)
    ensures Step(s, e).Valid() && StateOf(Step(s, e), e.jobId) == Some(StateAfter(e))
    ensures Run(s, [e] + rest) == Run(Step(s, e), rest)
  {
    AcceptedByState(s, e);
    StepIsValid(s, e);
    RunSnoc(s, [], e);
    assert [] + [e] == [e];
    RunConcat(s, [e], rest);
  }

  lemma ClosingEventsFit(chain: Chain, state: PrincipalState, id: string, amount: int)
    requires Closable(chain, state, id) && (state == RELEASABLE ==> chain.amount(amount))
    ensures var events := ClosingEvents(state, id, amount);
      && AllFromChain(chain, events) && events != []
      && events[0].jobId == id && KindOf(events[0]) in Next(state)
      && if |events| == 1 then StateAfter(events[0]) == CLOSED
         else
           && Closable(chain, StateAfter(events[0]), id)
           && events[1..] == ClosingEvents(StateAfter(events[0]), id, amount)
  {
  }

  lemma {:induction false} ClosingEventsClose(
    chain: Chain, s: Store, id: string, state: PrincipalState, amount: int, events: seq<ArsEvent>)
    requires s.Valid() && StateOf(s, id) == Some(state)
    requires Closable(chain, state, id) && (state == RELEASABLE ==> chain.amount(amount))
    requires events == ClosingEvents(state, id, amount)
    ensures StateOf(Run(s, events), id) == Some(CLOSED)
    decreases |events|
  {
    ClosingEventsFit(chain, state, id, amount);
    var e, rest := events[0], events[1..];
    assert events == [e] + rest;
    TakeFirst(s, e, rest);
    if rest != [] {
      ClosingEventsClose(chain, Step(s, e), id, StateAfter(e), amount, rest);
    }
  }

  /** Exactly which open jobs on-chain events can close. */
  lemma ChainClosesIff(chain: Chain, s: Store, id: string)
    requires s.Valid() && StateOf(s, id).Some? && StateOf(s, id).value != CLOSED
    ensures SomeFeedCloses(chain, s, id) <==> Closable(chain, StateOf(s, id).value, id)
  {
    if SomeFeedCloses(chain, s, id) && !Closable(chain, StateOf(s, id).value, id) {
      var feed :| Emitted(chain, feed) && StateOf(IngestFeed(s, feed), id) == Some(CLOSED);
      TranslateIsFromChain(chain, feed);
      UnclosableRun(chain, s, Translate(feed), id);
      assert false;
    }
    if Closable(chain, StateOf(s, id).value, id) {
      var state := StateOf(s, id).value;
      var amount := 0;
      if state == RELEASABLE {
        amount :| chain.amount(amount);
      }
      var events := ClosingEvents(state, id, amount);
      ClosingEventsFit(chain, state, id, amount);
      ClosingEventsClose(chain, s, id, state, amount, events);
      var feed := FeedFor(chain, events);
      FeedForTranslates(chain, events);
      assert StateOf(IngestFeed(s, feed), id) == Some(CLOSED);
    }
  }

  /** For the telaro program: the id must be the text of 32 bytes unless a claim is already awaited. */
  lemma ClosableOnSolana(claim: string -> bool, state: PrincipalState, id: string)
    ensures Closable(Solana(claim), state, id) <==>
      || (state in {EVIDENCE_SUBMITTED, DISPUTED} && id != "")
      || (state in {RELEASABLE, EXECUTING} && IsHex(id) && |id| == 64)
  {
    assert Solana(claim).amount(0);
    if IsHex(id) {
      UnhexLength(id);
    }
  }

  lemma {:induction false} DrawsAddUp(chain: Chain, events: seq<ArsEvent>)
    requires AllFromChain(chain, events) && forall amount :: chain.amount(amount) ==> amount >= 0
    ensures ReleasedSum(events) >= 0
  {
    if events != [] {
      DrawsAddUp(chain, events[..|events| - 1]);
      assert FromChain(chain, events[|events| - 1]) && Amount(events[|events| - 1]) >= 0;
    }
  }

  /** If the chain draws no negative amounts, no feed lowers what a job has released. */
  lemma ReleasedNeverFalls(chain: Chain, s: Store, feed: seq<ChainEvent>, id: string)
    requires s.Valid() && Emitted(chain, feed) && id in s.logs
    requires forall amount :: chain.amount(amount) ==> amount >= 0
    ensures id in s.Jobs() && id in IngestFeed(s, feed).Jobs()
    ensures s.Jobs()[id].releasedAtomic <= IngestFeed(s, feed).Jobs()[id].releasedAtomic
  {
    var events := Translate(feed);
    FeedsAreHarmless(chain, s, feed, id);
    JobOfLog(s, id);
    KeptKeys(s, events, id);
    PrincipalPerJob(s, events, id);
    DrawsAddUp(chain, Only(Accepted(s, events), id));
  }

  lemma KeptKeys(s: Store, events: seq<ArsEvent>, id: string)
    requires s.Valid() && id in s.logs
    ensures id in Run(s, events).logs
  {
    LogsGrow(s, events, id);
    assert ValidLog(s.logs[id], id);
  }
}
