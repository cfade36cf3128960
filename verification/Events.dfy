/** The principal-track events: the letters every job log is written in. */
module Events {

  datatype Option<+T> = None | Some(value: T)

  datatype Result<+T, +E> = Ok(value: T) | Err(error: E)

  function OrZero(n: Option<int>): int {
    if n.Some? then n.value else 0
  }

  datatype ActionOutcome = Succeeded | Failed

  datatype Resolution = NoDispute | DisputeUpheld | DisputeRejected

  datatype ArsEvent =
    | JobOpened(jobId: string, at: int, agent: string, requestor: string, exposureAtomic: int)
    | UnderwritingStarted(jobId: string, at: int)
    | UnderwritingDecided(jobId: string, at: int, passed: bool, failureCode: Option<string>)
    | PrincipalReleased(jobId: string, at: int, amountAtomic: int)
    | EvidenceSubmitted(jobId: string, at: int, actionHash: string, outcome: ActionOutcome)
    | Disputed(jobId: string, at: int, claim: string)
    | Closed(jobId: string, at: int, resolution: Resolution)

  /** The events share their `type` field. */
  predicate SameType(a: ArsEvent, b: ArsEvent) {
    match a
    case JobOpened(_, _, _, _, _) => b.JobOpened?
    case UnderwritingStarted(_, _) => b.UnderwritingStarted?
    case UnderwritingDecided(_, _, _, _) => b.UnderwritingDecided?
    case PrincipalReleased(_, _, _) => b.PrincipalReleased?
    case EvidenceSubmitted(_, _, _, _) => b.EvidenceSubmitted?
    case Disputed(_, _, _) => b.Disputed?
    case Closed(_, _, _) => b.Closed?
  }

  /** What one event draws: only a release moves principal. */
  function Amount(e: ArsEvent): int {
    if e.PrincipalReleased? then e.amountAtomic else 0
  }

  function One(e: ArsEvent): int {
    if e.PrincipalReleased? then 1 else 0
  }

  /** Adds up a weight over a log. */
  function Total(log: seq<ArsEvent>, weight: ArsEvent -> int): int {
    if log == [] then 0 else Total(log[..|log| - 1], weight) + weight(log[|log| - 1])
  }

  lemma TotalSnoc(log: seq<ArsEvent>, e: ArsEvent, weight: ArsEvent -> int)
    ensures Total(log + [e], weight) == Total(log, weight) + weight(e)
  {
    assert (log + [e])[..|log|] == log;
  }

  lemma {:induction false} TotalConcat(a: seq<ArsEvent>, b: seq<ArsEvent>, weight: ArsEvent -> int)
    ensures Total(a + b, weight) == Total(a, weight) + Total(b, weight)
  {
    if b == [] {
      assert a + b == a;
    } else {
      var rest := b[..|b| - 1];
      assert a + b == (a + rest) + [b[|b| - 1]];
      TotalSnoc(a + rest, b[|b| - 1], weight);
      TotalConcat(a, rest, weight);
    }
  }

  /** Total does not depend on the order of the log. */
  lemma {:induction false} TotalOfPermutation(a: seq<ArsEvent>, b: seq<ArsEvent>, weight: ArsEvent -> int)
    requires multiset(a) == multiset(b)
    ensures Total(a, weight) == Total(b, weight)
    decreases |a|
  {
    assert |a| == |multiset(a)| == |multiset(b)| == |b|;
    if a != [] {
      var e := a[|a| - 1];
      assert e in multiset(b);
      var j :| 0 <= j < |b| && b[j] == e;
      var a', b' := a[..|a| - 1], b[..j] + b[j + 1..];
      assert a == a' + [e];
      assert b == (b[..j] + [e]) + b[j + 1..];
      assert multiset(a') == multiset(a) - multiset{e};
      assert multiset(b') == multiset(b) - multiset{e};
      TotalOfPermutation(a', b', weight);
      TotalConcat(b[..j] + [e], b[j + 1..], weight);
      TotalSnoc(b[..j], e, weight);
      TotalConcat(b[..j], b[j + 1..], weight);
    }
  }

  /** The events of one job, in their order. */
  function Only(events: seq<ArsEvent>, id: string): seq<ArsEvent> {
    if events == [] then []
    else
      var rest := Only(events[..|events| - 1], id);
      if events[|events| - 1].jobId == id then rest + [events[|events| - 1]] else rest
  }

  lemma OnlySnoc(events: seq<ArsEvent>, e: ArsEvent, id: string)
    ensures Only(events + [e], id) == if e.jobId == id then Only(events, id) + [e] else Only(events, id)
  {
    assert (events + [e])[..|events|] == events;
  }
}
