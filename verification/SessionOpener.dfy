/** `openSession` in place: its stretches of code between awaits, working on the shared lease store. */
module SessionOpeners {
  import opened Options
  import opened SlotLeases
  import opened LeaseStores
  import opened OpenSession
  import NodePicking

  class SessionOpener {
    const store: LeaseStore
    ghost const capacity: string -> nat
    var mutex: seq<nat>
    var opens: map<nat, Open>

    ghost function Value(): State
      reads this, store
    {
      State(store.Ix(), store.pendingByNode, mutex, opens)
    }

    /** Every node is within its capacity and every reservation is accounted for. */
    ghost predicate Valid()
      reads this, store
    {
      Inv(Value(), capacity)
    }

    constructor (capacity: string -> nat)
      ensures Valid() && Value() == Start && fresh(store) && this.capacity == capacity
    {
      this.capacity := capacity;
      store := new LeaseStore();
      mutex, opens := [], map[];
      new;
      StartIsFine(capacity);
    }

    /** A call of `openSession`: it queues on the lease mutex. */
    method Begin(op: nat, sessionId: string, trajectoryId: Option<int>, request: NodePicking.Request)
      requires Valid() && op !in opens
      modifies `mutex, `opens
      ensures Steps(old(Value()), Call(op, sessionId, trajectoryId, request), Value(), capacity) && Valid()
    {
      StepKeepsInv(Value(), Call(op, sessionId, trajectoryId, request), capacity);
      mutex, opens := mutex + [op], opens[op := Open(sessionId, trajectoryId, request, Queued)];
    }

    /** The use counts a pick reads. */
    method CountAll(nodes: seq<string>) returns (inUse: map<string, nat>)
      ensures forall n :: n in inUse <==> n in nodes
      ensures forall n <- nodes :: inUse[n] == InUse(Value(), n)
    {
      inUse := map[];
      for i := 0 to |nodes|
        invariant forall n :: n in inUse <==> n in nodes[..i]
        invariant forall n <- inUse :: inUse[n] == InUse(Value(), n)
      {
        var n := store.CountInUse(nodes[i]);
        inUse := inUse[nodes[i] := n];
      }
    }

    /** Inside the mutex: choose a node, or fail and leave the mutex. */
    method PickNode(op: nat, rows: map<string, NodePicking.NodeRow>, connected: seq<string>, idleChrome: set<string>,
                    collate: string -> int) returns (picked: NodePicking.Picked, ghost view: NodePicking.View)
      requires Valid() && Holds(Value(), op) && opens[op].phase.Queued?
      requires forall n <- connected :: n in rows ==> rows[n].capacity <= capacity(n)
      requires forall n <- connected :: 1 <= capacity(n)
      modifies `mutex, `opens
      ensures Steps(old(Value()), Pick(op, view), Value(), capacity) && Valid()
      ensures view.rows == rows && view.connected == connected && view.idleChrome == idleChrome
      ensures picked == NodePicking.Pick(view, opens[op].request)
      ensures picked.Ok? ==> InUse(Value(), picked.nodeUuid) < capacity(picked.nodeUuid)
    {
      var inUse := CountAll(connected);
      var v := NodePicking.View(rows, connected, inUse, idleChrome, collate);
      view := v;
      assert SeesState(view, Value(), capacity);
      StepKeepsInv(Value(), Pick(op, view), capacity);
      picked := NodePicking.Pick(v, opens[op].request);
      match picked
      case Ok(n, _) => opens := opens[op := opens[op].(phase := Picked(n))];
      case Err(_) => opens, mutex := opens[op := opens[op].(phase := Failed)], mutex[1..];
    }

    /** The end of the critical section. */
    method ReserveNode(op: nat)
      requires Valid() && Holds(Value(), op) && opens[op].phase.Picked?
      modifies `mutex, `opens, store`pendingByNode
      ensures Steps(old(Value()), Reserve(op), Value(), capacity) && Valid()
    {
      StepKeepsInv(Value(), Reserve(op), capacity);
      var n := opens[op].phase.nodeUuid;
      store.ReservePending(n);
      opens, mutex := opens[op := opens[op].(phase := Waiting(n))], mutex[1..];
    }

    /** The executor reported `session.ready`. */
    method OnReady(op: nat, slotIndex: int)
      requires Valid() && op in opens && opens[op].phase.Waiting?
      modifies `opens, store
      ensures Steps(old(Value()), Ready(op, slotIndex), Value(), capacity) && Valid()
      ensures old(Named(Value())) ==> Named(Value()) && LeaseFor(old(opens)[op], slotIndex) in Leases(store.Ix())
    {
      if Named(Value()) {
        StepOnLeases(Value(), Ready(op, slotIndex), capacity);
        StepKeepsNamed(Value(), Ready(op, slotIndex), capacity);
      }
      StepKeepsInv(Value(), Ready(op, slotIndex), capacity);
      var o := opens[op];
      var _ := store.ConfirmLease(o.sessionId, o.phase.nodeUuid, slotIndex, o.trajectoryId);
      store.ReleasePending(o.phase.nodeUuid);
      opens := opens[op := o.(phase := Opened)];
    }

    /** The executor could not be reached, refused, or did not answer in time. */
    method OnFailure(op: nat)
      requires Valid() && op in opens && opens[op].phase.Waiting?
      modifies `opens, store`pendingByNode
      ensures Steps(old(Value()), Fail(op), Value(), capacity) && Valid()
      ensures store.Ix() == old(store.Ix()) && opens[op].phase.Failed?
    {
      StepKeepsInv(Value(), Fail(op), capacity);
      store.ReleasePending(opens[op].phase.nodeUuid);
      opens := opens[op := opens[op].(phase := Failed)];
    }

    /** The `finally` block of `closeSession`. */
    method CloseSession(sessionId: string)
      requires Valid()
      modifies store
      ensures Steps(old(Value()), Close(sessionId), Value(), capacity) && Valid()
      ensures Coherent(old(store.Ix())) && sessionId != "" ==>
                Coherent(store.Ix()) && Leases(store.Ix()) == set l <- old(Leases(store.Ix())) | l.sessionId != sessionId
    {
      StepKeepsInv(Value(), Close(sessionId), capacity);
      var _ := store.ReleaseBySession(sessionId);
    }
  }
}
