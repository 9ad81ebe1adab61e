/**
 The stateful mixin: every composed instance keeps its state in a private
 table keyed by the instance's identity, reads it through a getter, and
 changes it only through `SetState`, which merges a partial update into the
 stored state, writes the result back and then emits one `"state:changed"`
 event. Emitting is modelled by appending to a log; each entry also records
 the table as a listener would observe it while the event is delivered.
 */
module StatefulMixin {
  import opened StateTree

  /** The type of the event `SetState` emits. */
  const StateChangedEventType: string := "state:changed"

  /** An object composed with the mixin. Its state is kept in the table, not in a field of its own. */
  class Instance {
    constructor () {}
  }

  /** The event object `SetState` builds: `{type, state, target}`. */
  datatype ChangeEvent = ChangeEvent(eventType: string, state: State, target: Instance)

  /** One call of `emit`: the event, and the private table at the moment of delivery. */
  datatype Emission = Emission(event: ChangeEvent, tableAtEmit: map<Instance, State>)

  /**
   What a listener of an emission observes: a `"state:changed"` event whose
   target's stored state is already the event's state.
   */
  predicate DeliveredAfterWrite(e: Emission)
  {
    && e.event.eventType == StateChangedEventType
    && e.event.target in e.tableAtEmit
    && e.tableAtEmit[e.event.target] == e.event.state
  }

  /**
   The private table of instance states together with the log of every
   event emitted through it.
   */
  class StateStore {
    var table: map<Instance, State>
    var log: seq<Emission>

    /** Every event in the log was emitted after its state had been stored. */
    ghost predicate Valid()
      reads this
    {
      forall i :: 0 <= i < |log| ==> DeliveredAfterWrite(log[i])
    }

    constructor ()
      ensures Valid()
      ensures table == map[] && log == []
    {
      table := map[];
      log := [];
    }

    /** The init hook: seeds a fresh, empty state for a new instance. */
    method Init(o: Instance)
      requires Valid()
      modifies this
      ensures Valid()
      ensures table == old(table)[o := EmptyState]
      ensures log == old(log)
    {
      table := table[o := EmptyState];
    }

    /** The `state` getter: the stored state of `o`, absent for an instance never initialised. */
    method GetState(o: Instance) returns (s: Option<State>)
      ensures s.Some? <==> o in table
      ensures s.Some? ==> s.value == table[o]
    {
      s := if o in table then Some(table[o]) else None;
    }

    /**
     `emit`: delivers `e`, recorded here with the table as it stands now. Only
     an event whose state is already stored for its target may be emitted.
     */
    method Emit(e: ChangeEvent)
      requires Valid()
      requires DeliveredAfterWrite(Emission(e, table))
      modifies this
      ensures Valid()
      ensures table == old(table)
      ensures log == old(log) + [Emission(e, table)]
    {
      log := log + [Emission(e, table)];
    }

    /**
     `setState`: reads the old state (an instance with no entry counts as
     empty), merges `partial` into it, stores the result and then emits one
     event carrying it.
     */
    method SetState(o: Instance, partial: State)
      requires Valid()
      modifies this
      ensures Valid()
      ensures o in table
      ensures table[o] == Merge(if o in old(table) then old(table)[o] else EmptyState, partial)
      ensures forall other :: other in old(table) && other != o ==> other in table && table[other] == old(table)[other]
      ensures table.Keys == old(table).Keys + {o}
      ensures log == old(log) + [Emission(ChangeEvent(StateChangedEventType, table[o], o), table)]
      ensures partial == EmptyState && o in old(table) ==> table == old(table)
    {
      var oldState := GetState(o);
      var base := if oldState.Some? then oldState.value else EmptyState;
      var state := Merge(base, partial);
      var eventObject := ChangeEvent(StateChangedEventType, state, o);
      table := table[o := state];
      Emit(eventObject);
      if partial == EmptyState && o in old(table) {
        MergeEmptyPartial(base);
      }
    }
  }
}

/**
 A client of the mixin, using only the contracts above: a fresh instance
 starts empty, an update is both stored and announced, another instance is
 unaffected, a state read earlier is not changed by a later update, and an
 empty update keeps the state but is still announced.
 */
module StatefulClient {
  import opened StateTree
  import opened StatefulMixin

  method UseTwoInstances()
  {
    var store := new StateStore();
    var a := new Instance();
    var b := new Instance();
    store.Init(a);
    store.Init(b);
    var initial := store.GetState(a);
    assert initial == Some(EmptyState);

    var update := map["x" := Leaf(Num(5))];
    store.SetState(a, update);
    MergeIntoEmpty(update);
    assert |store.log| == 1;
    assert store.log[0].event == ChangeEvent(StateChangedEventType, update, a);
    var fromA := store.GetState(a);
    var fromB := store.GetState(b);
    assert fromA == Some(update);
    assert fromB == Some(EmptyState);
    assert initial == Some(EmptyState);

    store.SetState(a, EmptyState);
    assert |store.log| == 2 && store.log[1].event.state == update;
  }
}
