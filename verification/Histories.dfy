/** What every accepted history has in common, and how far its order is forced. */
module Histories {
  import opened Events
  import opened StateMachine
  import opened Language

  /** Where the one event of a kind stands in a log of the given length with n releases. */
  function Slot(k: Kind, n: nat, length: nat): int
    requires k != Released
  {
    match k
    case Opened => 0
    case Started => 1
    case Declined => 2
    case Approved => 2
    case Evidence => 3 + n
    case Dispute => 4 + n
    case Closing => length - 1
  }

  lemma ShapeSlots(ks: seq<Kind>, state: PrincipalState, n: nat, i: nat)
    requires Shape(ks, state, n) && i < |ks|
    ensures if ks[i] == Released then 3 <= i < 3 + n else i == Slot(ks[i], n, |ks|)
  {
    if state == CLOSED {
      FundedWordAt(n, false);
      FundedWordAt(n, true);
    }
  }

  /** Every event of an accepted log other than a release has its place fixed by its kind. */
  lemma EventSlots(log: seq<ArsEvent>, i: nat)
    requires Replay(log).Ok? && i < |log|
    ensures if log[i].PrincipalReleased? then 3 <= i < 3 + Releases(log)
            else i == Slot(KindOf(log[i]), Releases(log), |log|)
  {
    AcceptedShape(log);
    ShapeSlots(Kinds(log), Replay(log).value.state, Releases(log), i);
  }

  /** No type of event but a release occurs twice: in particular a verdict is never followed by its opposite. */
  lemma NoSecondOfAType(log: seq<ArsEvent>, i: nat, j: nat)
    requires Replay(log).Ok? && i < |log| && j < |log|
    requires !log[i].PrincipalReleased? && SameType(log[i], log[j])
    ensures i == j
  {
    EventSlots(log, i);
    EventSlots(log, j);
  }

  lemma PermutationHolds(a: seq<ArsEvent>, b: seq<ArsEvent>, e: ArsEvent)
    requires multiset(a) == multiset(b) && e in a
    ensures e in b
  {
    assert e in multiset(a);
  }

  /** A permutation that is accepted too moves nothing but releases, and those only among themselves. */
  lemma OrderIsForced(a: seq<ArsEvent>, b: seq<ArsEvent>)
    requires Replay(a).Ok? && Replay(b).Ok?
    requires multiset(a) == multiset(b)
    ensures |a| == |b| && Releases(a) == Releases(b)
    ensures forall i :: 0 <= i < |a| ==>
      a[i] == b[i] || (3 <= i < 3 + Releases(a) && a[i].PrincipalReleased? && b[i].PrincipalReleased?)
  {
    assert |a| == |multiset(a)| == |multiset(b)| == |b|;
    TotalOfPermutation(a, b, One);
    forall i | 0 <= i < |a|
      ensures a[i] == b[i] || (3 <= i < 3 + Releases(a) && a[i].PrincipalReleased? && b[i].PrincipalReleased?)
    {
      if !a[i].PrincipalReleased? {
        PlaceIsShared(a, b, i);
      } else if !b[i].PrincipalReleased? {
        PlaceIsShared(b, a, i);
      } else {
        EventSlots(a, i);
      }
    }
  }

  lemma PlaceIsShared(a: seq<ArsEvent>, b: seq<ArsEvent>, i: nat)
    requires Replay(a).Ok? && Replay(b).Ok?
    requires multiset(a) == multiset(b) && |a| == |b| && Releases(a) == Releases(b)
    requires i < |a| && !a[i].PrincipalReleased?
    ensures a[i] == b[i]
  {
    PermutationHolds(a, b, a[i]);
    var j :| 0 <= j < |b| && b[j] == a[i];
    EventSlots(a, i);
    EventSlots(b, j);
  }

  /**
   * Two accepted permutations derive the same job, except for `lastEventAt` while the job is
   * executing, where it is the time of whichever release comes last.
   */
  lemma OrderInsensitive(a: seq<ArsEvent>, b: seq<ArsEvent>)
    requires Replay(a).Ok? && Replay(b).Ok?
    requires multiset(a) == multiset(b)
    ensures Replay(b).value == Replay(a).value.(lastEventAt := Replay(b).value.lastEventAt)
    ensures Replay(a).value == Replay(b).value
            <==> Replay(a).value.state != EXECUTING || a[|a| - 1].at == b[|b| - 1].at
  {
    OrderIsForced(a, b);
    TotalOfPermutation(a, b, Amount);
    AcceptedForm(a);
    AcceptedForm(b);
  }

  /** No principal leaves before the verdict: it is the third event of the log, and it approves. */
  lemma ReleaseSafety(log: seq<ArsEvent>, i: nat)
    requires Replay(log).Ok? && i < |log| && log[i].PrincipalReleased?
    ensures i >= 3 && log[2].UnderwritingDecided? && log[2].passed
  {
    AcceptedShape(log);
    EventSlots(log, i);
    assert Kinds(log)[2] == Approved;
  }

  /** A rejected job has released nothing, and only the approved path leaves the first four states. */
  lemma NothingReleasedBefore(log: seq<ArsEvent>)
    requires Replay(log).Ok?
    requires Replay(log).value.state in {AWAIT_UNDERWRITING, UNDERWRITING, REJECTED, RELEASABLE}
    ensures Replay(log).value.releasedAtomic == 0
    ensures forall e :: e in log ==> !e.PrincipalReleased?
  {
    AcceptedShape(log);
    forall i | 0 <= i < |log|
      ensures !log[i].PrincipalReleased?
    {
      EventSlots(log, i);
    }
    AcceptedForm(log);
    NoReleaseNoPrincipal(log);
  }

  lemma NoReleaseNoPrincipal(log: seq<ArsEvent>)
    requires forall e :: e in log ==> !e.PrincipalReleased?
    ensures ReleasedSum(log) == 0 && Releases(log) == 0
  {
    if log != [] {
      NoReleaseNoPrincipal(log[..|log| - 1]);
    }
  }

  predicate HasDispute(log: seq<ArsEvent>) {
    exists i :: 0 <= i < |log| && log[i].Disputed?
  }

  /**
   * A closed job: releases at 3 .. 3 + n - 1 with n >= 1, one piece of evidence right after them, and
   * a length that tells whether it was disputed.
   */
  lemma ClosedHistory(log: seq<ArsEvent>)
    requires Replay(log).Ok? && Replay(log).value.state == CLOSED
    ensures Releases(log) >= 1
    ensures |log| == 5 + Releases(log) + (if HasDispute(log) then 1 else 0)
    ensures log[3 + Releases(log)].EvidenceSubmitted? && log[|log| - 1].Closed?
    ensures forall i :: 0 <= i < |log| && log[i].EvidenceSubmitted? ==> i == 3 + Releases(log)
    ensures forall i :: 0 <= i < |log| ==> (log[i].PrincipalReleased? <==> 3 <= i < 3 + Releases(log))
  {
    var n, ks := Releases(log), Kinds(log);
    AcceptedShape(log);
    FundedWordAt(n, false);
    FundedWordAt(n, true);
    assert forall i :: 0 <= i < |log| ==> ks[i] == KindOf(log[i]);
    if ks == FundedWord(n, true) {
      assert ks[4 + n] == Dispute;
      assert log[4 + n].Disputed?;
    }
    forall i | 0 <= i < |log|
      ensures log[i].EvidenceSubmitted? ==> i == 3 + n
      ensures log[i].PrincipalReleased? <==> 3 <= i < 3 + n
      ensures log[i].Disputed? ==> ks == FundedWord(n, true)
    {
      EventSlots(log, i);
    }
    assert ks[3 + n] == Evidence;
  }

  /** Every accepted log has at most six events that are not releases. */
  lemma AtMostSixOthers(log: seq<ArsEvent>)
    requires Replay(log).Ok?
    ensures |log| - Releases(log) <= 6
  {
    AcceptedShape(log);
    if Replay(log).value.state == CLOSED {
      FundedWordAt(Releases(log), false);
      FundedWordAt(Releases(log), true);
    }
  }
}
