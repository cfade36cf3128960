/** Who holds what: clients that append, take copies of logs and change them, in any order (src/store.ts). */
module Clients {
  import opened Events
  import opened EventStore
  import opened InMemoryEventStores

  /**
   * What a client can do: append, take a copy of a log, and leave any copy it took earlier with any
   * contents, be it by overwriting, pushing or cutting.
   */
  datatype Action =
    | Send(event: ArsEvent)
    | Take(jobId: string)
    | Edit(copy: nat, contents: seq<ArsEvent>)

  /** The events a client appends, in order. */
  function Appended(actions: seq<Action>): seq<ArsEvent> {
    if actions == [] then []
    else
      var rest, last := Appended(actions[..|actions| - 1]), actions[|actions| - 1];
      if last.Send? then rest + [last.event] else rest
  }

  /** One action on the client's copies, of a store in state s. */
  function Touch(s: Store, copies: seq<seq<ArsEvent>>, action: Action): seq<seq<ArsEvent>> {
    match action
    case Send(_) => copies
    case Take(id) => copies + [s.LogOf(id)]
    case Edit(k, contents) => if k < |copies| then copies[k := contents] else copies
  }

  /** The client's copies: each what the log was when it was taken, or what the client itself made of it since. */
  function Copies(s: Store, actions: seq<Action>): seq<seq<ArsEvent>> {
    if actions == [] then []
    else
      var earlier := actions[..|actions| - 1];
      Touch(Run(s, Appended(earlier)), Copies(s, earlier), actions[|actions| - 1])
  }

  lemma ActionsSnoc(s: Store, actions: seq<Action>, action: Action)
    ensures Appended(actions + [action]) ==
            if action.Send? then Appended(actions) + [action.event] else Appended(actions)
    ensures Copies(s, actions + [action]) == Touch(Run(s, Appended(actions)), Copies(s, actions), action)
  {
    assert (actions + [action])[..|actions|] == actions;
  }

  ghost function Contents(lists: seq<List<ArsEvent>>): (contents: seq<seq<ArsEvent>>)
    reads lists
    ensures |contents| == |lists|
    ensures forall k :: 0 <= k < |lists| ==> contents[k] == lists[k].items
  {
    seq(|lists|, k requires 0 <= k < |lists| reads lists => lists[k].items)
  }

  /** The copies are lists of their own: pairwise distinct, and none of them the store's. */
  ghost predicate Apart(store: InMemoryEventStore, copies: seq<List<ArsEvent>>)
    reads store
  {
    && (forall k :: 0 <= k < |copies| ==> copies[k] !in store.logs.Values)
    && (forall k, l :: 0 <= k < l < |copies| ==> copies[k] != copies[l])
  }

  /** Copies that were none of the store's are none of those that stayed or came new. */
  lemma StillApart(before: map<string, List<ArsEvent>>, after: map<string, List<ArsEvent>>,
                   copies: seq<List<ArsEvent>>, k: nat)
    requires k < |copies| && copies[k] !in before.Values
    requires forall id :: id in after ==> (id in before && after[id] == before[id]) || after[id] !in copies
    ensures copies[k] !in after.Values
  {
  }

  method Send(store: InMemoryEventStore, event: ArsEvent, ghost copies: seq<List<ArsEvent>>)
    requires store.Valid() && Apart(store, copies)
    modifies store
    ensures store.Valid() && Apart(store, copies)
    ensures store.Value() == Step(old(store.Value()), event)
  {
    ghost var before := store.logs;
    var _ := store.Append(event);
    forall k | 0 <= k < |copies| {
      StillApart(before, store.logs, copies, k);
    }
  }

  /** The store does not see what a client does to a copy, whenever it was taken. */
  method Edit(store: InMemoryEventStore, copies: seq<List<ArsEvent>>, k: nat, contents: seq<ArsEvent>)
    requires Apart(store, copies) && k < |copies|
    modifies copies[k]
    ensures store.Value() == old(store.Value())
    ensures Contents(copies) == old(Contents(copies))[k := contents]
  {
    copies[k].items := contents;
    forall id | id in store.logs
      ensures store.logs[id].items == old(store.logs[id].items)
    {
      assert store.logs[id] in store.logs.Values;
    }
    assert store.Value().logs == old(store.Value()).logs;
  }

  /** One action keeps store and copies apart and does to each what the specification says. */
  method Act(store: InMemoryEventStore, copies: seq<List<ArsEvent>>, action: Action)
    returns (after: seq<List<ArsEvent>>)
    requires store.Valid() && Apart(store, copies)
    modifies store, copies
    ensures store.Valid() && Apart(store, after)
    ensures store.Value() == if action.Send? then Step(old(store.Value()), action.event) else old(store.Value())
    ensures forall k :: 0 <= k < |after| ==> fresh(after[k]) || after[k] in copies
    ensures Contents(after) == Touch(old(store.Value()), old(Contents(copies)), action)
  {
    after := copies;
    match action
    case Send(event) =>
      Send(store, event, copies);
    case Take(id) =>
      var copy := store.Log(id);
      after := copies + [copy];
    case Edit(k, contents) =>
      if k < |copies| {
        Edit(store, copies, k, contents);
      }
  }

  /**
   * Any client, any interleaving: the store ends where the appended events alone take it, and every copy
   * holds what was returned or what the client last made of it.
   */
  method RunClient(store: InMemoryEventStore, actions: seq<Action>) returns (copies: seq<List<ArsEvent>>)
    requires store.Valid()
    modifies store
    ensures store.Valid() && Apart(store, copies)
    ensures store.Value() == Run(old(store.Value()), Appended(actions))
    ensures Contents(copies) == Copies(old(store.Value()), actions)
  {
    ghost var before := store.Value();
    copies := [];
    for n := 0 to |actions|
      invariant store.Valid() && Apart(store, copies)
      invariant forall k :: 0 <= k < |copies| ==> fresh(copies[k])
      invariant store.Value() == Run(before, Appended(actions[..n]))
      invariant Contents(copies) == Copies(before, actions[..n])
    {
      assert actions[..n + 1] == actions[..n] + [actions[n]];
      ActionsSnoc(before, actions[..n], actions[n]);
      if actions[n].Send? {
        RunSnoc(before, Appended(actions[..n]), actions[n].event);
      }
      copies := Act(store, copies, actions[n]);
    }
    assert actions[..|actions|] == actions;
  }

  function Taken(actions: seq<Action>): nat {
    if actions == [] then 0
    else Taken(actions[..|actions| - 1]) + (if actions[|actions| - 1].Take? then 1 else 0)
  }

  lemma {:induction false} OneCopyPerTake(s: Store, actions: seq<Action>)
    ensures |Copies(s, actions)| == Taken(actions)
  {
    if actions != [] {
      OneCopyPerTake(s, actions[..|actions| - 1]);
    }
  }

  lemma TouchKeeps(s: Store, copies: seq<seq<ArsEvent>>, action: Action, k: nat)
    requires k < |copies| && !(action.Edit? && action.copy == k)
    ensures k < |Touch(s, copies, action)| && Touch(s, copies, action)[k] == copies[k]
  {
  }

  lemma {:induction false} UntouchedCopyStays(s: Store, before: seq<Action>, k: nat, after: seq<Action>)
    requires k < |Copies(s, before)|
    requires forall i :: 0 <= i < |after| ==> !(after[i].Edit? && after[i].copy == k)
    ensures k < |Copies(s, before + after)| && Copies(s, before + after)[k] == Copies(s, before)[k]
    decreases |after|
  {
    if after == [] {
      assert before + after == before;
    } else {
      var n := |after| - 1;
      assert before + after == before + after[..n] + [after[n]];
      UntouchedCopyStays(s, before, k, after[..n]);
      ActionsSnoc(s, before + after[..n], after[n]);
      TouchKeeps(Run(s, Appended(before + after[..n])), Copies(s, before + after[..n]), after[n], k);
    }
  }

  /** A copy the client never changes stays what `log` returned, whatever is appended or changed elsewhere. */
  lemma UnwrittenCopyStays(s: Store, before: seq<Action>, id: string, after: seq<Action>)
    requires forall i :: 0 <= i < |after| ==> !(after[i].Edit? && after[i].copy == Taken(before))
    ensures var copies := Copies(s, before + [Take(id)] + after);
            Taken(before) < |copies| && copies[Taken(before)] == Run(s, Appended(before)).LogOf(id)
  {
    ActionsSnoc(s, before, Take(id));
    OneCopyPerTake(s, before);
    UntouchedCopyStays(s, before + [Take(id)], Taken(before), after);
  }

  /** And a copy it changes is what it made of it. */
  lemma EditedCopyIsTheClients(s: Store, before: seq<Action>, k: nat, contents: seq<ArsEvent>, after: seq<Action>)
    requires k < Taken(before)
    requires forall i :: 0 <= i < |after| ==> !(after[i].Edit? && after[i].copy == k)
    ensures var copies := Copies(s, before + [Action.Edit(k, contents)] + after);
            k < |copies| && copies[k] == contents
  {
    ActionsSnoc(s, before, Action.Edit(k, contents));
    OneCopyPerTake(s, before);
    UntouchedCopyStays(s, before + [Action.Edit(k, contents)], k, after);
  }
}
