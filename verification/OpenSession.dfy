/**
 * The reserve / wait / confirm protocol of `openSession`, interleaved with every other user of the lease module.
 *
 * JavaScript code runs without preemption between two `await`s, so each such stretch is one event here and any
 * order of enabled events is a run. An open first queues on the lease mutex, picks a node at the head of the
 * queue, reserves it, leaves the mutex, waits for the executor, and then either confirms or gives up.
 */
module OpenSession {
  import opened Options
  import opened SlotLeases
  import NodePicking

  datatype Phase =
    | Queued                   // waiting for the mutex, or about to pick
    | Picked(nodeUuid: string) // holds the mutex, node chosen, probe still awaited
    | Waiting(nodeUuid: string) // reservation held, session.ready awaited
    | Opened
    | Failed

  datatype Open = Open(sessionId: string, trajectoryId: Option<int>, request: NodePicking.Request, phase: Phase)

  datatype State = State(
    ix: Index,
    pending: map<string, nat>,
    mutex: seq<nat>,
    opens: map<nat, Open>)

  datatype Event =
    | Call(op: nat, sessionId: string, trajectoryId: Option<int>, request: NodePicking.Request)
    | Pick(op: nat, view: NodePicking.View)
    | Reserve(op: nat)
    | Ready(op: nat, slotIndex: int)
    | Fail(op: nat)
    | Close(sessionId: string)
    | DropTrajectory(trajectoryId: Option<int>)
    | Reconcile(dropped: seq<string>)
    | PurgeNode(nodeUuid: string, dropped: seq<string>)

  const Start := State(EmptyIndex, map[], [], map[])

  function InUse(s: State, nodeUuid: string): nat {
    HardCount(s.ix, nodeUuid) + PendingOf(s.pending, nodeUuid)
  }

  predicate Holds(s: State, op: nat) {
    s.mutex != [] && s.mutex[0] == op && op in s.opens
  }

  /** A pick counts the connected nodes in the current state; stored capacities never exceed the real ones. */
  ghost predicate SeesState(view: NodePicking.View, s: State, capacity: string -> nat) {
    forall n <- view.connected ::
      NodePicking.InUse(view, n) == InUse(s, n) && NodePicking.CapacityOf(view, n) <= capacity(n)
  }

  ghost predicate Enabled(s: State, e: Event, capacity: string -> nat) {
    match e
    case Call(op, _, _, _) => op !in s.opens
    case Pick(op, view) => Holds(s, op) && s.opens[op].phase.Queued? && SeesState(view, s, capacity)
    case Reserve(op) => Holds(s, op) && s.opens[op].phase.Picked?
    case Ready(op, _) => op in s.opens && s.opens[op].phase.Waiting?
    case Fail(op) => op in s.opens && s.opens[op].phase.Waiting?
    case Close(_) => true
    case DropTrajectory(_) => true
    case Reconcile(_) => true
    case PurgeNode(_, _) => true
  }

  function Moved(s: State, op: nat, phase: Phase): map<nat, Open>
    requires op in s.opens
  {
    s.opens[op := s.opens[op].(phase := phase)]
  }

  ghost function Do(s: State, e: Event, capacity: string -> nat): State
    requires Enabled(s, e, capacity)
  {
    match e
    case Call(op, sessionId, trajectoryId, request) =>
      s.(mutex := s.mutex + [op], opens := s.opens[op := Open(sessionId, trajectoryId, request, Queued)])
    case Pick(op, view) =>
      (match NodePicking.Pick(view, s.opens[op].request)
       case Ok(n, _) => s.(opens := Moved(s, op, Picked(n)))
       case Err(_) => s.(opens := Moved(s, op, Failed), mutex := s.mutex[1..]))
    case Reserve(op) =>
      var n := s.opens[op].phase.nodeUuid;
      s.(pending := Reserved(s.pending, n), opens := Moved(s, op, Waiting(n)), mutex := s.mutex[1..])
    case Ready(op, slotIndex) =>
      var o := s.opens[op];
      var n := o.phase.nodeUuid;
      s.(ix := Confirm(s.ix, Lease(o.trajectoryId, o.sessionId, n, slotIndex)),
         pending := Unreserved(s.pending, n),
         opens := Moved(s, op, Opened))
    case Fail(op) =>
      s.(pending := Unreserved(s.pending, s.opens[op].phase.nodeUuid), opens := Moved(s, op, Failed))
    case Close(sessionId) => s.(ix := ReleaseSession(s.ix, sessionId))
    case DropTrajectory(t) => s.(ix := ReleaseTrajectory(s.ix, t))
    case Reconcile(dropped) => s.(ix := ReleaseAll(s.ix, dropped))
    case PurgeNode(n, dropped) => s.(ix := ReleaseAll(s.ix, dropped), pending := s.pending - {n})
  }

  ghost predicate Steps(s: State, e: Event, t: State, capacity: string -> nat) {
    Enabled(s, e, capacity) && t == Do(s, e, capacity)
  }

  /** Consecutive states of one interleaving. */
  ghost predicate IsRun(states: seq<State>, events: seq<Event>, capacity: string -> nat) {
    && |states| == |events| + 1
    && states[0] == Start
    && forall i | 0 <= i < |events| :: Steps(states[i], events[i], states[i + 1], capacity)
  }

  // ---------------------------------------------------------------- what every run keeps

  function Waiters(s: State, nodeUuid: string): set<nat> {
    set op <- s.opens | s.opens[op].phase == Waiting(nodeUuid)
  }

  /** Each node's counter is exactly the number of opens whose reservation there is unsettled. */
  ghost predicate Conserved(s: State) {
    && (forall n :: PendingOf(s.pending, n) == |Waiters(s, n)|)
    && (forall n <- s.pending :: s.pending[n] > 0)
  }

  ghost predicate WithinCapacity(s: State, capacity: string -> nat) {
    forall n :: InUse(s, n) <= capacity(n)
  }

  /** The mutex queue holds exactly the opens that have not reserved yet, and only its head may have picked. */
  ghost predicate MutexOrderly(s: State) {
    && (forall i, j | 0 <= i < j < |s.mutex| :: s.mutex[i] != s.mutex[j])
    && (forall op <- s.mutex :: op in s.opens)
    && (forall op <- s.opens :: op in s.mutex <==> s.opens[op].phase.Queued? || s.opens[op].phase.Picked?)
    && (forall op <- s.opens :: s.opens[op].phase.Picked? ==> s.mutex != [] && s.mutex[0] == op)
  }

  /** The rely-guarantee link: once picked, the node keeps a free place until the reservation is made. */
  ghost predicate PickStillHolds(s: State, capacity: string -> nat) {
    forall op <- s.opens :: s.opens[op].phase.Picked? ==>
                              InUse(s, s.opens[op].phase.nodeUuid) < capacity(s.opens[op].phase.nodeUuid)
  }

  ghost predicate Inv(s: State, capacity: string -> nat) {
    Conserved(s) && WithinCapacity(s, capacity) && MutexOrderly(s) && PickStillHolds(s, capacity)
  }

  /** A purge is harmless when no open holds a reservation on the purged node. */
  predicate Harmless(s: State, e: Event) {
    e.PurgeNode? ==> Waiters(s, e.nodeUuid) == {}
  }

  lemma CountOne(a: set<nat>, b: set<nat>, op: nat)
    requires forall x | x != op :: x in b <==> x in a
    ensures |b| == |a| + (if op in b then 1 else 0) - (if op in a then 1 else 0)
  {
    if op in b {
      assert b == a + {op};
    } else {
      assert b == a - {op};
    }
  }

  lemma CountWaiters(s: State, t: State, op: nat, n: string)
    requires op in s.opens && op in t.opens && t.opens == s.opens[op := t.opens[op]]
    ensures |Waiters(t, n)| == |Waiters(s, n)|
              + (if t.opens[op].phase == Waiting(n) then 1 else 0)
              - (if s.opens[op].phase == Waiting(n) then 1 else 0)
  {
    var a, b := Waiters(s, n), Waiters(t, n);
    forall x | x != op ensures x in b <==> x in a {}
    CountOne(a, b, op);
  }

  /** Every reserve is undone exactly once, on the success and on the error path. */
  lemma StepConserves(s: State, e: Event, capacity: string -> nat)
    requires Enabled(s, e, capacity) && Conserved(s) && Harmless(s, e)
    ensures Conserved(Do(s, e, capacity))
  {
    var t := Do(s, e, capacity);
    forall n ensures PendingOf(t.pending, n) == |Waiters(t, n)| {
      match e
      case Call(op, _, _, _) => assert Waiters(t, n) == Waiters(s, n);
      case Pick(op, _) => CountWaiters(s, t, op, n);
      case Reserve(op) => CountWaiters(s, t, op, n);
      case Ready(op, _) => CountWaiters(s, t, op, n);
        assert op in Waiters(s, s.opens[op].phase.nodeUuid);
      case Fail(op) => CountWaiters(s, t, op, n);
        assert op in Waiters(s, s.opens[op].phase.nodeUuid);
      case PurgeNode(_, _) => assert Waiters(t, n) == Waiters(s, n);
      case Close(_) =>
      case DropTrajectory(_) =>
      case Reconcile(_) =>
    }
  }

  /** Only a reservation raises a node's use count. */
  lemma OnlyReserveRaises(s: State, e: Event, capacity: string -> nat, n: string)
    requires Enabled(s, e, capacity) && Conserved(s)
    ensures InUse(Do(s, e, capacity), n)
            <= InUse(s, n) + if e.Reserve? && s.opens[e.op].phase.nodeUuid == n then 1 else 0
  {
    match e
    case Ready(op, slotIndex) =>
      var o := s.opens[op];
      ConfirmCounts(s.ix, Lease(o.trajectoryId, o.sessionId, o.phase.nodeUuid, slotIndex), n);
      assert op in Waiters(s, o.phase.nodeUuid);
    case Close(sessionId) => SubIndexCounts(ReleaseSession(s.ix, sessionId), s.ix, n);
    case DropTrajectory(t) => SubIndexCounts(ReleaseTrajectory(s.ix, t), s.ix, n);
    case Reconcile(dropped) =>
      ReleaseAllShrinks(s.ix, dropped);
      SubIndexCounts(ReleaseAll(s.ix, dropped), s.ix, n);
    case PurgeNode(_, dropped) =>
      ReleaseAllShrinks(s.ix, dropped);
      SubIndexCounts(ReleaseAll(s.ix, dropped), s.ix, n);
    case _ =>
  }

  lemma LeavingKeepsMutex(s: State, op: nat, t: State)
    requires MutexOrderly(s) && Holds(s, op) && t.mutex == s.mutex[1..]
    requires t.opens.Keys == s.opens.Keys && !t.opens[op].phase.Queued? && !t.opens[op].phase.Picked?
    requires forall o <- s.opens :: o != op ==> t.opens[o] == s.opens[o]
    ensures MutexOrderly(t)
  {
    assert s.mutex == [op] + t.mutex;
  }

  lemma StepKeepsMutex(s: State, e: Event, capacity: string -> nat)
    requires Enabled(s, e, capacity) && MutexOrderly(s)
    ensures MutexOrderly(Do(s, e, capacity))
  {
    var t := Do(s, e, capacity);
    match e
    case Pick(op, view) => if t.opens[op].phase.Failed? { LeavingKeepsMutex(s, op, t); }
    case Reserve(op) => LeavingKeepsMutex(s, op, t);
    case _ =>
  }

  lemma StepKeepsInv(s: State, e: Event, capacity: string -> nat)
    requires Enabled(s, e, capacity) && Inv(s, capacity) && Harmless(s, e)
    ensures Inv(Do(s, e, capacity), capacity)
  {
    var t := Do(s, e, capacity);
    StepConserves(s, e, capacity);
    StepKeepsMutex(s, e, capacity);
    forall n ensures InUse(t, n) <= capacity(n) { OnlyReserveRaises(s, e, capacity, n); }
    forall op | op in t.opens && t.opens[op].phase.Picked?
      ensures InUse(t, t.opens[op].phase.nodeUuid) < capacity(t.opens[op].phase.nodeUuid)
    {
      var n := t.opens[op].phase.nodeUuid;
      OnlyReserveRaises(s, e, capacity, n);
      if e.Pick? && e.op == op {
        NodePicking.PickIsSoundAndComplete(e.view, s.opens[op].request);
      }
    }
  }

  lemma StartIsFine(capacity: string -> nat)
    ensures Inv(Start, capacity)
  {
    forall n ensures Waiters(Start, n) == {} && SlotKeysOn(EmptyIndex, n) == {} {}
  }

  // ---------------------------------------------------------------- main results

  /**
   * Over every interleaving in which no purge hits an open in flight, confirmed leases plus reservations stay
   * within capacity on every node, and every counter equals the number of unsettled reservations.
   */
  lemma {:induction false} RunsStayWithinCapacity(states: seq<State>, events: seq<Event>, capacity: string -> nat, i: nat)
    requires IsRun(states, events, capacity) && i < |states|
    requires forall j | 0 <= j < |events| :: Harmless(states[j], events[j])
    ensures Inv(states[i], capacity)
  {
    if i == 0 {
      StartIsFine(capacity);
    } else {
      RunsStayWithinCapacity(states, events, capacity, i - 1);
      assert Steps(states[i - 1], events[i - 1], states[i - 1 + 1], capacity);
      StepKeepsInv(states[i - 1], events[i - 1], capacity);
    }
  }

  lemma EmptyOrInhabited<T>(s: seq<T>)
    ensures s == [] || exists x :: x in s
  {
    if s != [] { assert s[0] in s; }
  }

  /** When every open has settled, no reservation is left behind on any node. */
  lemma NothingLeaks(states: seq<State>, events: seq<Event>, capacity: string -> nat, i: nat)
    requires IsRun(states, events, capacity) && i < |states|
    requires forall j | 0 <= j < |events| :: Harmless(states[j], events[j])
    requires forall op <- states[i].opens :: states[i].opens[op].phase.Opened? || states[i].opens[op].phase.Failed?
    ensures states[i].pending == map[] && states[i].mutex == []
  {
    var s := states[i];
    RunsStayWithinCapacity(states, events, capacity, i);
    forall n ensures n !in s.pending {
      assert PendingOf(s.pending, n) == |Waiters(s, n)| && Waiters(s, n) == {};
    }
    EmptyOrInhabited(s.mutex);
  }

  /**
   * The same read off the maps: on every node, the slots held and the opens waiting for one never outnumber its
   * capacity.
   */
  lemma SlotsAndWaitersFit(states: seq<State>, events: seq<Event>, capacity: string -> nat, i: nat, n: string)
    requires IsRun(states, events, capacity) && i < |states|
    requires forall j | 0 <= j < |events| :: Harmless(states[j], events[j])
    ensures var s := states[i];
            |set k <- s.ix.bySlotKey | s.ix.bySlotKey[k].nodeUuid == n| + |set op <- s.opens | s.opens[op].phase == Waiting(n)|
            <= capacity(n)
  {
    var s := states[i];
    RunsStayWithinCapacity(states, events, capacity, i);
    assert InUse(s, n) <= capacity(n) && PendingOf(s.pending, n) == |Waiters(s, n)|;
    assert SlotKeysOn(s.ix, n) == set k <- s.ix.bySlotKey | s.ix.bySlotKey[k].nodeUuid == n;
    assert Waiters(s, n) == set op <- s.opens | s.opens[op].phase == Waiting(n);
  }

  /** With named sessions: on every node, its leases and the opens waiting there never outnumber its capacity. */
  lemma LeasesStayWithinCapacity(states: seq<State>, events: seq<Event>, capacity: string -> nat, i: nat, n: string)
    requires IsRun(states, events, capacity) && i < |states|
    requires forall j | 0 <= j < |events| :: Harmless(states[j], events[j])
    requires forall j | 0 <= j < |events| :: events[j].Call? ==> events[j].sessionId != ""
    ensures var s := states[i];
            |set l <- Leases(s.ix) | l.nodeUuid == n| + |set op <- s.opens | s.opens[op].phase == Waiting(n)| <= capacity(n)
  {
    RunsStayNamed(states, events, capacity, i);
    CountIsLeases(states[i].ix, n);
    SlotsAndWaitersFit(states, events, capacity, i, n);
    assert SlotKeysOn(states[i].ix, n) == set k <- states[i].ix.bySlotKey | states[i].ix.bySlotKey[k].nodeUuid == n;
  }

  /** The lease that a confirmed open holds. */
  function LeaseFor(o: Open, slotIndex: int): Lease
    requires o.phase.Waiting?
  {
    Lease(o.trajectoryId, o.sessionId, o.phase.nodeUuid, slotIndex)
  }

  lemma AllNamed(ix: Index)
    requires Coherent(ix) && "" !in ix.bySessionId
    ensures forall l <- Leases(ix) :: l.sessionId != ""
  {
    forall l | l in Leases(ix) ensures l.sessionId != "" { MemberKeys(ix, l); }
  }

  lemma CloseOnLeases(ix: Index, sessionId: string)
    requires Coherent(ix) && "" !in ix.bySessionId
    ensures Leases(ReleaseSession(ix, sessionId)) == set l <- Leases(ix) | l.sessionId != sessionId
  {
    AllNamed(ix);
    ReleaseSessionRefines(ix, sessionId);
  }

  lemma DropOnLeases(ix: Index, t: Option<int>)
    requires Coherent(ix) && "" !in ix.bySessionId
    ensures Leases(ReleaseTrajectory(ix, t)) == set l <- Leases(ix) | t.None? || l.trajectoryId != t
  {
    AllNamed(ix);
    ReleaseTrajectoryRefines(ix, Lease(t, "", "", 0));
  }

  lemma BatchOnLeases(ix: Index, dropped: seq<string>)
    requires Coherent(ix) && "" !in ix.bySessionId
    ensures Leases(ReleaseAll(ix, dropped)) == set l <- Leases(ix) | l.sessionId !in dropped
  {
    AllNamed(ix);
    ReleaseAllRefines(ix, dropped);
  }

  lemma ConfirmOnLeases(ix: Index, added: Lease)
    requires Coherent(ix) && "" !in ix.bySessionId && added.sessionId != ""
    ensures Leases(Confirm(ix, added)) == {added} + set l <- Leases(ix) |
              l.sessionId != added.sessionId && (l.nodeUuid != added.nodeUuid || l.slotIndex != added.slotIndex)
              && (added.trajectoryId.None? || l.trajectoryId != added.trajectoryId)
  {
    ConfirmRefines(ix, added);
  }

  /**
   * What each step does to the lease set: a close takes the session's lease, a trajectory release the trajectory's,
   * a reconcile or purge those of the dropped sessions; a confirm adds the open's lease in place of whatever shares
   * its session, slot or trajectory; nothing else touches it.
   */
  lemma StepOnLeases(s: State, e: Event, capacity: string -> nat)
    requires Enabled(s, e, capacity) && Named(s)
    ensures var now, was := Leases(Do(s, e, capacity).ix), Leases(s.ix);
            match e
            case Close(sessionId) => now == set l <- was | l.sessionId != sessionId
            case DropTrajectory(t) => now == set l <- was | t.None? || l.trajectoryId != t
            case Reconcile(dropped) => now == set l <- was | l.sessionId !in dropped
            case PurgeNode(_, dropped) => now == set l <- was | l.sessionId !in dropped
            case Ready(op, slotIndex) =>
              var added := LeaseFor(s.opens[op], slotIndex);
              now == {added} + set l <- was |
                l.sessionId != added.sessionId && (l.nodeUuid != added.nodeUuid || l.slotIndex != added.slotIndex)
                && (added.trajectoryId.None? || l.trajectoryId != added.trajectoryId)
            case _ => now == was
  {
    match e
    case Ready(op, slotIndex) => ConfirmOnLeases(s.ix, LeaseFor(s.opens[op], slotIndex));
    case Close(sessionId) => CloseOnLeases(s.ix, sessionId);
    case DropTrajectory(t) => DropOnLeases(s.ix, t);
    case Reconcile(dropped) => BatchOnLeases(s.ix, dropped);
    case PurgeNode(_, dropped) => BatchOnLeases(s.ix, dropped);
    case _ =>
  }

  /** What each step does to the opens: a call adds its own, and later steps change nothing but the phase, in order. */
  lemma StepOnOpens(s: State, e: Event, capacity: string -> nat)
    requires Enabled(s, e, capacity)
    ensures var t := Do(s, e, capacity);
            match e
            case Call(op, sessionId, trajectoryId, request) =>
              t.opens == s.opens[op := Open(sessionId, trajectoryId, request, Queued)] && t.mutex == s.mutex + [op]
            case Pick(op, _) => OnlyPhase(s, t, op) && (t.opens[op].phase.Picked? || t.opens[op].phase.Failed?)
            case Reserve(op) => OnlyPhase(s, t, op) && t.opens[op].phase == Waiting(s.opens[op].phase.nodeUuid)
            case Ready(op, _) => OnlyPhase(s, t, op) && t.opens[op].phase.Opened?
            case Fail(op) => OnlyPhase(s, t, op) && t.opens[op].phase.Failed?
            case _ => t.opens == s.opens && t.mutex == s.mutex
  {
  }

  predicate OnlyPhase(s: State, t: State, op: nat) {
    op in s.opens && op in t.opens && t.opens == s.opens[op := s.opens[op].(phase := t.opens[op].phase)]
  }

  /** The lease maps are inverse, and no session id in use is empty. */
  ghost predicate Named(s: State) {
    Coherent(s.ix) && "" !in s.ix.bySessionId && forall op <- s.opens :: s.opens[op].sessionId != ""
  }

  lemma ReleasesKeepNamed(ix: Index, r: Index)
    requires Coherent(ix) && "" !in ix.bySessionId && Coherent(r) && Leases(r) <= Leases(ix)
    ensures "" !in r.bySessionId
  {
    if "" in r.bySessionId {
      StrayIsMember(r);
      MemberKeys(ix, r.bySessionId[""]);
    }
  }

  lemma ReleaseTrajectoryKeepsNamed(ix: Index, t: Option<int>)
    requires Coherent(ix) && "" !in ix.bySessionId
    ensures Coherent(ReleaseTrajectory(ix, t)) && "" !in ReleaseTrajectory(ix, t).bySessionId
  {
    ReleaseTrajectoryRefines(ix, Lease(t, "", "", 0));
    ReleasesKeepNamed(ix, ReleaseTrajectory(ix, t));
  }

  lemma StepKeepsNamed(s: State, e: Event, capacity: string -> nat)
    requires Enabled(s, e, capacity) && Named(s) && (e.Call? ==> e.sessionId != "")
    ensures Named(Do(s, e, capacity))
  {
    match e
    case Ready(op, slotIndex) =>
      var o := s.opens[op];
      ConfirmRefines(s.ix, Lease(o.trajectoryId, o.sessionId, o.phase.nodeUuid, slotIndex));
    case Close(sessionId) =>
      ReleaseSessionRefines(s.ix, sessionId);
      ReleasesKeepNamed(s.ix, ReleaseSession(s.ix, sessionId));
    case DropTrajectory(t) => ReleaseTrajectoryKeepsNamed(s.ix, t);
    case Reconcile(dropped) =>
      ReleaseAllRefines(s.ix, dropped);
      ReleasesKeepNamed(s.ix, ReleaseAll(s.ix, dropped));
    case PurgeNode(_, dropped) =>
      ReleaseAllRefines(s.ix, dropped);
      ReleasesKeepNamed(s.ix, ReleaseAll(s.ix, dropped));
    case _ =>
  }

  lemma {:induction false} RunsStayNamed(states: seq<State>, events: seq<Event>, capacity: string -> nat, i: nat)
    requires IsRun(states, events, capacity) && i < |states|
    requires forall j | 0 <= j < |events| :: events[j].Call? ==> events[j].sessionId != ""
    ensures Named(states[i])
  {
    if i > 0 {
      RunsStayNamed(states, events, capacity, i - 1);
      assert Steps(states[i - 1], events[i - 1], states[i - 1 + 1], capacity);
      StepKeepsNamed(states[i - 1], events[i - 1], capacity);
    }
  }

  /**
   * Over every interleaving of opens with non-empty session ids, purges in flight included, the three maps stay
   * mutually inverse, and no two leases share a session, a slot or a trajectory.
   */
  lemma LeasesNeverClash(states: seq<State>, events: seq<Event>, capacity: string -> nat, i: nat, x: Lease, y: Lease)
    requires IsRun(states, events, capacity) && i < |states|
    requires forall j | 0 <= j < |events| :: events[j].Call? ==> events[j].sessionId != ""
    requires x in Leases(states[i].ix) && y in Leases(states[i].ix)
    ensures Coherent(states[i].ix) && (Clash(x, y) ==> x == y)
  {
    RunsStayNamed(states, events, capacity, i);
    UniqueKeys(states[i].ix, x, y);
  }

  /** A purge keeps the counters honest exactly when no open is waiting on the purged node. */
  lemma PurgeConservesExactly(s: State, n: string, dropped: seq<string>, capacity: string -> nat)
    requires Conserved(s)
    ensures Conserved(Do(s, PurgeNode(n, dropped), capacity)) <==> Waiters(s, n) == {}
  {
    var t := Do(s, PurgeNode(n, dropped), capacity);
    assert PendingOf(t.pending, n) == 0;
    forall m ensures Waiters(t, m) == Waiters(s, m) {}
  }

  // The condition is needed: the purge below hits the first of two opens and lets a one-slot node take two leases.

  const ToNode := NodePicking.Request(Some("n"), false)
  const A := Open("a", None, ToNode, Queued)
  const B := Open("b", None, ToNode, Queued)
  const LeaseA := Lease(None, "a", "n", 0)
  const LeaseB := Lease(None, "b", "n", 1)
  const View := NodePicking.View(map[], ["n"], map[], {}, n => |n|)

  function OneSlot(n: string): nat { 1 }

  function OverbookingEvent(i: int): Event {
    match i
    case 0 => Call(0, "a", None, ToNode)
    case 1 => Pick(0, View)
    case 2 => Reserve(0)
    case 3 => PurgeNode("n", [])
    case 4 => Call(1, "b", None, ToNode)
    case 5 => Pick(1, View)
    case 6 => Reserve(1)
    case 7 => Ready(0, 0)
    case _ => Ready(1, 1)
  }

  function OverbookingState(i: int): State {
    var a2, a3 := A.(phase := Waiting("n")), A.(phase := Opened);
    var ix := Confirm(EmptyIndex, LeaseA);
    match i
    case 0 => Start
    case 1 => State(EmptyIndex, map[], [0], map[0 := A])
    case 2 => State(EmptyIndex, map[], [0], map[0 := A.(phase := Picked("n"))])
    case 3 => State(EmptyIndex, map["n" := 1], [], map[0 := a2])
    case 4 => State(EmptyIndex, map[], [], map[0 := a2])
    case 5 => State(EmptyIndex, map[], [1], map[0 := a2, 1 := B])
    case 6 => State(EmptyIndex, map[], [1], map[0 := a2, 1 := B.(phase := Picked("n"))])
    case 7 => State(EmptyIndex, map["n" := 1], [], map[0 := a2, 1 := B.(phase := Waiting("n"))])
    case 8 => State(ix, map[], [], map[0 := a3, 1 := B.(phase := Waiting("n"))])
    case _ => State(Confirm(ix, LeaseB), map[], [], map[0 := a3, 1 := B.(phase := Opened)])
  }

  lemma OverbookingPick(i: int)
    requires i == 1 || i == 5
    ensures Steps(OverbookingState(i), OverbookingEvent(i), OverbookingState(i + 1), OneSlot)
  {
    forall n ensures SlotKeysOn(EmptyIndex, n) == {} {}
    assert SeesState(View, OverbookingState(i), OneSlot);
  }

  lemma OverbookingBefore(i: int)
    requires i == 0 || 2 <= i <= 4
    ensures Steps(OverbookingState(i), OverbookingEvent(i), OverbookingState(i + 1), OneSlot)
  {
  }

  lemma OverbookingAfter(i: int)
    requires 6 <= i <= 8
    ensures Steps(OverbookingState(i), OverbookingEvent(i), OverbookingState(i + 1), OneSlot)
  {
  }

  lemma OverbookingEnd()
    ensures InUse(OverbookingState(9), "n") == 2
  {
    SlotKeyInjective("n", 0, "n", 1);
    assert SlotKeysOn(OverbookingState(9).ix, "n") == {KeyOf(LeaseA), KeyOf(LeaseB)};
  }

  /** Nine steps, one purge in flight: two leases on a node with one slot. */
  lemma PurgeInFlightOverbooks() returns (states: seq<State>, events: seq<Event>)
    ensures IsRun(states, events, OneSlot)
    ensures !WithinCapacity(states[|states| - 1], OneSlot)
  {
    states, events := seq(10, i => OverbookingState(i)), seq(9, i => OverbookingEvent(i));
    forall i | 0 <= i < 9 ensures Steps(states[i], events[i], states[i + 1], OneSlot) {
      if i == 1 || i == 5 { OverbookingPick(i); } else if i < 5 { OverbookingBefore(i); } else { OverbookingAfter(i); }
    }
    OverbookingEnd();
  }
}
