/** The store as the object it is: a map of log lists that `append` replaces and `log` copies (src/store.ts). */
module InMemoryEventStores {
  import opened Events
  import opened StateMachine
  import opened Language
  import opened EventStore

  /** A JavaScript array: an object whose holder can overwrite, lengthen and shorten it. */
  class List<T> {
    var items: seq<T>

    constructor (items: seq<T>)
      ensures this.items == items
    {
      this.items := items;
    }
  }

  class InMemoryEventStore {
    /** The keys of the map, in the order they were first set. */
    var keys: seq<string>
    var logs: map<string, List<ArsEvent>>

    /** The store as a value. */
    ghost function Value(): Store
      reads this, logs.Values
    {
      Store(keys, map id | id in logs :: logs[id].items)
    }

    ghost predicate Valid()
      reads this, logs.Values
    {
      Value().Valid()
    }

    /** No list handed to anyone becomes one of the store's: each is one it had, or a new one. */
    twostate predicate OldOrFresh()
      reads this
    {
      forall id :: id in logs ==> (id in old(logs) && logs[id] == old(logs[id])) || fresh(logs[id])
    }

    constructor ()
      ensures Valid() && Value() == EMPTY
    {
      keys, logs := [], map[];
    }

    /** `Map.get`, with an empty list for a missing key. */
    method Get(jobId: string) returns (existing: List<ArsEvent>)
      ensures existing.items == Value().LogOf(jobId)
    {
      if jobId in logs {
        existing := logs[jobId];
      } else {
        existing := new List([]);
      }
    }

    /** `Map.set` with the old events and one more, in a list of its own. */
    method Set(jobId: string, existing: List<ArsEvent>, event: ArsEvent)
      modifies this
      ensures Value() == Put(old(Value()), jobId, old(existing.items) + [event])
      ensures OldOrFresh()
    {
      var longer := new List(existing.items + [event]);
      keys := if jobId in logs then keys else keys + [jobId];
      logs := logs[jobId := longer];
      assert Value().logs == old(Value()).logs[jobId := existing.items + [event]];
    }

    method CurrentJob(existing: List<ArsEvent>) returns (r: Result<Option<Job>, TransitionError>)
      ensures r == Current(existing.items)
    {
      if |existing.items| > 0 {
        var replayed := ReplayLoop(existing.items);
        match replayed
        case Err(error) => return Err(error);
        case Ok(job) => return Ok(Some(job));
      }
      return Ok(None);
    }

    /** Replays the log, tries the event on the job it derives, and stores the longer log if it fits. */
    method ValidateAndStore(event: ArsEvent) returns (r: Result<(), TransitionError>)
      modifies this
      ensures Value() == Step(old(Value()), event)
      ensures r == match EventStore.Append(old(Value()), event)
                   case Ok(_) => Ok(())
                   case Err(error) => Err(error)
      ensures r.Err? ==> keys == old(keys) && logs == old(logs)
      ensures OldOrFresh()
    {
      var existing := Get(event.jobId);
      var current := CurrentJob(existing);
      match current
      case Err(error) => return Err(error);
      case Ok(job) =>
        match ApplyEvent(job, event) {
          case Err(error) => return Err(error);
          case Ok(_) =>
            Set(event.jobId, existing, event);
            return Ok(());
        }
    }

    /** The public call: on a valid store it is refused exactly when the longer log is not a lifecycle. */
    method Append(event: ArsEvent) returns (r: Result<(), TransitionError>)
      requires Valid()
      modifies this
      ensures Valid()
      ensures Value() == Step(old(Value()), event)
      ensures r.Ok? <==> Lifecycle(old(Value()).LogOf(event.jobId) + [event])
      ensures r.Ok? ==> Value().LogOf(event.jobId) == old(Value()).LogOf(event.jobId) + [event]
      ensures r.Err? ==> r.error == Diagnosis(old(Value()).LogOf(event.jobId), event)
      ensures r.Err? ==> keys == old(keys) && logs == old(logs)
      ensures OldOrFresh()
    {
      ghost var before := Value();
      AppendOutcome(before, event);
      r := ValidateAndStore(event);
    }

    /** A copy: the list handed out is none of those the store keeps. */
    method Log(jobId: string) returns (copy: List<ArsEvent>)
      ensures fresh(copy)
      ensures copy.items == Value().LogOf(jobId)
    {
      var events := Get(jobId);
      copy := new List(events.items);
    }

    method Job(jobId: string) returns (job: Option<Job>)
      requires Valid()
      ensures job == JobIn(Value().Jobs(), jobId)
      ensures job.None? <==> Value().LogOf(jobId) == []
      ensures job.Some? ==>
        var log := Value().LogOf(jobId);
        log[0].JobOpened? && job.value == ClosedForm(log)
    {
      CurrentIsJob(Value(), jobId);
      if jobId in logs {
        assert ValidLog(Value().logs[jobId], jobId);
        AcceptedForm(Value().logs[jobId]);
      }
      var events := Get(jobId);
      var current := CurrentJob(events);
      job := current.value;
    }

    method JobIds() returns (ids: List<string>)
      ensures fresh(ids)
      ensures ids.items == Value().ids
    {
      ids := new List(keys);
    }
  }

  lemma AppendOutcome(s: Store, e: ArsEvent)
    requires s.Valid()
    ensures Step(s, e).Valid()
    ensures EventStore.Append(s, e).Ok? <==> Lifecycle(s.LogOf(e.jobId) + [e])
    ensures EventStore.Append(s, e).Ok? ==> Step(s, e).LogOf(e.jobId) == s.LogOf(e.jobId) + [e]
    ensures EventStore.Append(s, e).Err? ==>
      EventStore.Append(s, e).error == Diagnosis(s.LogOf(e.jobId), e)
  {
    StepIsValid(s, e);
    AppendIffReplay(s, e);
    if EventStore.Append(s, e).Err? {
      RefusalInStore(s, e);
    }
  }

  /** A run of calls on the object ends in the value the run of the specification ends in. */
  method AppendAll(store: InMemoryEventStore, events: seq<ArsEvent>)
    requires store.Valid()
    modifies store
    ensures store.Valid()
    ensures store.Value() == Run(old(store.Value()), events)
    ensures store.OldOrFresh()
  {
    ghost var before := store.Value();
    for i := 0 to |events|
      invariant store.Valid()
      invariant store.Value() == Run(before, events[..i])
      invariant store.OldOrFresh()
    {
      assert events[..i + 1] == events[..i] + [events[i]];
      RunSnoc(before, events[..i], events[i]);
      var _ := store.Append(events[i]);
    }
    assert events[..|events|] == events;
  }
}
