/**
 * Which connection owns an executor node: `src/executor-registry.js` together with the register and close
 * handlers of `src/executor-ws.js`.
 *
 * Entries are objects in the source: a grace timer's callback keeps the entry it was armed for and reads that
 * entry's field again when it fires. Objects are modelled by references into `entries`, so that a replaced
 * entry and the one that replaced it stay distinct. Timers are tokens that are live from arming until they
 * fire or are cancelled.
 */
module Registry {
  import opened Options

  datatype ReadyState = Open | Closing | Closed

  datatype Conn = Conn(ready: ReadyState, nodeUuid: Option<string>, nodeId: int)

  datatype Entry = Entry(ws: Option<nat>, nodeId: int, pid: Option<int>, graceTimer: Option<nat>)

  datatype Timer = Timer(nodeUuid: string, entry: nat)

  datatype State = State(
    nodes: map<string, nat>,         // node uuid -> entry reference
    entries: map<nat, Entry>,        // entry objects, including replaced ones
    timers: map<nat, Timer>,         // live timers
    conns: map<nat, Conn>,
    nextEntry: nat,
    nextTimer: nat,
    // history only, read by no operation:
    lastAttached: map<string, nat>,  // node uuid -> connection of its latest accepted registration
    late: set<string>,               // nodes whose latest registration came from a closed connection
    reported: map<nat, string>)      // closed connection -> node its close event was for

  const Start := State(map[], map[], map[], map[], 0, 0, map[], {}, map[])

  // ---------------------------------------------------------------- operations

  function Cancel(timers: map<nat, Timer>, t: Option<nat>): map<nat, Timer> {
    if t.Some? then timers - {t.value} else timers
  }

  /** `ws.close(...)`: only an open socket changes state; its close event comes later. */
  function StartClosing(conns: map<nat, Conn>, c: nat): map<nat, Conn> {
    if c in conns && conns[c].ready.Open? then conns[c := conns[c].(ready := Closing)] else conns
  }

  function EntryOf(s: State, n: string): Option<Entry> {
    if n in s.nodes && s.nodes[n] in s.entries then Some(s.entries[s.nodes[n]]) else None
  }

  predicate IsOpen(s: State, c: nat) {
    c in s.conns && s.conns[c].ready.Open?
  }

  /** Another live process already serves this node. */
  predicate Duplicate(s: State, n: string, c: nat, pid: Option<int>) {
    match EntryOf(s, n)
    case Some(e) =>
      e.ws.Some? && e.ws.value != c && IsOpen(s, e.ws.value) && e.pid.Some? && pid.Some? && pid != e.pid
    case None => false
  }

  function TimerOf(e: Option<Entry>): Option<nat> {
    if e.Some? then e.value.graceTimer else None
  }

  /** Closes the socket of a replaced entry, unless it is the registering one. */
  function CloseOther(conns: map<nat, Conn>, e: Option<Entry>, c: nat): map<nat, Conn> {
    if e.Some? && e.value.ws.Some? && e.value.ws.value != c then StartClosing(conns, e.value.ws.value) else conns
  }

  /** `attach`; with `cancel` off, a grace timer of the replaced entry is left running. */
  function AttachWith(s: State, n: string, c: nat, nodeId: int, pid: Option<int>, cancel: bool): State
    requires c in s.conns
  {
    if Duplicate(s, n, c, pid) then s.(conns := StartClosing(s.conns, c))
    else
      var timers := if cancel then Cancel(s.timers, TimerOf(EntryOf(s, n))) else s.timers;
      var conns := CloseOther(s.conns, EntryOf(s, n), c);
      s.(nodes := s.nodes[n := s.nextEntry],
         entries := s.entries[s.nextEntry := Entry(Some(c), nodeId, pid, None)],
         timers := timers,
         conns := conns[c := conns[c].(nodeUuid := Some(n), nodeId := nodeId)],
         nextEntry := s.nextEntry + 1,
         lastAttached := s.lastAttached[n := c],
         late := if s.conns[c].ready.Closed? then s.late + {n} else s.late - {n})
  }

  function Attach(s: State, n: string, c: nat, nodeId: int, pid: Option<int>): State
    requires c in s.conns
  {
    AttachWith(s, n, c, nodeId, pid, true)
  }

  /**
   * `detach` with a grace callback: the entry loses its socket and a fresh timer replaces the old one; with
   * `cancel` off, the old timer is left running.
   */
  function DetachArming(s: State, n: string, cancel: bool): State {
    match EntryOf(s, n)
    case Some(e) =>
      var timers := if cancel then Cancel(s.timers, e.graceTimer) else s.timers;
      s.(entries := s.entries[s.nodes[n] := e.(ws := None, graceTimer := Some(s.nextTimer))],
         timers := timers[s.nextTimer := Timer(n, s.nodes[n])],
         nextTimer := s.nextTimer + 1)
    case None => s
  }

  function DetachWithGrace(s: State, n: string): State {
    DetachArming(s, n, true)
  }

  /** `detach` without a grace callback. */
  function DetachNow(s: State, n: string): State {
    match EntryOf(s, n)
    case Some(e) => s.(nodes := s.nodes - {n}, timers := Cancel(s.timers, e.graceTimer))
    case None => s
  }

  /** A grace timer fires: the current entry goes only if it still carries the captured entry's timer. */
  function Fire(s: State, t: nat): State
    requires t in s.timers && s.timers[t].entry in s.entries
  {
    var n := s.timers[t].nodeUuid;
    var rest := s.(timers := s.timers - {t});
    match EntryOf(s, n)
    case Some(e) =>
      if e.graceTimer == s.entries[s.timers[t].entry].graceTimer then rest.(nodes := s.nodes - {n}) else rest
    case None => rest
  }

  /** The node a connection's close event is for: the one it last registered for, unless its id is zero. */
  function ClosesFor(conn: Conn): Option<string> {
    if conn.nodeUuid.None? || conn.nodeUuid.value == "" || conn.nodeId == 0 then None else conn.nodeUuid
  }

  function MarkClosed(s: State, c: nat): State
    requires c in s.conns
  {
    var n := ClosesFor(s.conns[c]);
    s.(conns := s.conns[c := s.conns[c].(ready := Closed)],
       reported := if n.Some? then s.reported[c := n.value] else s.reported)
  }

  /** The socket's `close` event with its identity check. */
  function SocketClosed(s: State, c: nat): State
    requires c in s.conns
  {
    var s1 := MarkClosed(s, c);
    match ClosesFor(s.conns[c])
    case Some(n) =>
      (match EntryOf(s1, n)
       case Some(e) => if e.ws.Some? && e.ws.value != c then s1 else DetachWithGrace(s1, n)
       case None => s1)
    case None => s1
  }

  // ---------------------------------------------------------------- runs

  datatype Event =
    | Connect(c: nat)
    | Register(c: nat, nodeUuid: string, nodeId: int, pid: Option<int>)
    | SocketClose(c: nat)
    | GraceExpiry(t: nat)
    | Drop(nodeUuid: string) // unregister and the stale sweep: an immediate detach

  predicate Enabled(s: State, e: Event) {
    match e
    case Connect(c) => c !in s.conns
    case Register(c, _, _, _) => c in s.conns // the connection may have closed while registration awaited
    case SocketClose(c) => c in s.conns && !s.conns[c].ready.Closed?
    case GraceExpiry(t) => t in s.timers && s.timers[t].entry in s.entries
    case Drop(_) => true
  }

  function Do(s: State, e: Event): State
    requires Enabled(s, e)
  {
    match e
    case Connect(c) => s.(conns := s.conns[c := Conn(Open, None, 0)])
    case Register(c, n, nodeId, pid) => if n == "" then s else Attach(s, n, c, nodeId, pid)
    case SocketClose(c) => SocketClosed(s, c)
    case GraceExpiry(t) => Fire(s, t)
    case Drop(n) => DetachNow(s, n)
  }

  predicate IsRun(states: seq<State>, events: seq<Event>) {
    && |states| == |events| + 1
    && states[0] == Start
    && forall i | 0 <= i < |events| :: Enabled(states[i], events[i]) && states[i + 1] == Do(states[i], events[i])
  }

  // ---------------------------------------------------------------- what every run keeps

  predicate Kept(s: State, n: string) {
    n in s.lastAttached ==>
      var c := s.lastAttached[n];
      c in s.conns && (s.conns[c].ready.Closed? || (EntryOf(s, n).Some? && EntryOf(s, n).value.ws == Some(c)))
  }

  /** A live grace timer is armed for the node's current entry. */
  predicate GraceArmed(s: State, n: string) {
    match EntryOf(s, n)
    case Some(e) => e.graceTimer.Some? && e.graceTimer.value in s.timers
                    && s.timers[e.graceTimer.value] == Timer(n, s.nodes[n])
    case None => false
  }

  /** An entry has no socket exactly when its grace timer runs, and its socket attached last. */
  predicate NodeOk(s: State, n: string) {
    && (n in s.nodes ==> s.nodes[n] in s.entries)
    && (match EntryOf(s, n)
        case Some(e) =>
          && (e.ws.None? <==> GraceArmed(s, n))
          && (e.ws.Some? ==> n in s.lastAttached && s.lastAttached[n] == e.ws.value && e.graceTimer.None?)
        case None => true)
    && Kept(s, n)
  }

  /** A live timer was armed for an entry that still carries it, current or replaced. */
  predicate TimerCarried(s: State, t: nat) {
    t in s.timers ==>
      t < s.nextTimer && s.timers[t].entry in s.entries && s.entries[s.timers[t].entry].graceTimer == Some(t)
  }

  /** The timer's entry is its node's current one. */
  predicate TimerCurrent(s: State, t: nat) {
    t in s.timers ==> EntryOf(s, s.timers[t].nodeUuid).Some? && s.nodes[s.timers[t].nodeUuid] == s.timers[t].entry
  }

  ghost predicate References(s: State) {
    && (forall n <- s.nodes :: s.nodes[n] in s.entries)
    && (forall r <- s.entries :: r < s.nextEntry)
    && (forall m, n | m in s.nodes && n in s.nodes && m != n :: s.nodes[m] != s.nodes[n])
  }

  /** What holds even if a re-attach cancels nothing. */
  ghost predicate Sound(s: State) {
    References(s) && (forall n :: NodeOk(s, n)) && (forall t :: TimerCarried(s, t))
  }

  /** Whether a node whose latest connection has closed has lost its socket: the close was for it and came later. */
  predicate CloseSeen(s: State, n: string) {
    EntryOf(s, n).Some? && n in s.lastAttached && LastClosed(s, n) ==>
      (EntryOf(s, n).value.ws.None? <==> ReportedFor(s, s.lastAttached[n], n) && n !in s.late)
  }

  predicate LastClosed(s: State, n: string)
    requires n in s.lastAttached
  {
    s.lastAttached[n] in s.conns && s.conns[s.lastAttached[n]].ready.Closed?
  }

  predicate ReportedFor(s: State, c: nat, n: string) {
    c in s.reported && s.reported[c] == n
  }

  ghost predicate HistoryOk(s: State) {
    && (forall n :: CloseSeen(s, n))
    && (forall c <- s.reported :: c in s.conns && s.conns[c].ready.Closed?)
    && (forall n <- s.late :: n in s.lastAttached && LastClosed(s, n))
  }

  /** Every live timer belongs to the current entry of its node, so a node has at most one. */
  ghost predicate Inv(s: State) {
    Sound(s) && (forall t :: TimerCurrent(s, t)) && HistoryOk(s)
  }

  /** An immediate detach is harmless when it finds no entry, or one whose socket is gone or has closed. */
  predicate Harmless(s: State, e: Event) {
    e.Drop? ==>
      match EntryOf(s, e.nodeUuid)
      case Some(en) => en.ws.None? || (en.ws.value in s.conns && s.conns[en.ws.value].ready.Closed?)
      case None => true
  }

  // ---------------------------------------------------------------- attach

  lemma RejectKeepsNode(s: State, c: nat, m: string)
    requires NodeOk(s, m)
    ensures NodeOk(s.(conns := StartClosing(s.conns, c)), m)
  {
  }

  lemma AttachMakesNodeOk(s: State, n: string, c: nat, nodeId: int, pid: Option<int>, cancel: bool)
    requires c in s.conns && !Duplicate(s, n, c, pid)
    ensures NodeOk(AttachWith(s, n, c, nodeId, pid, cancel), n)
  {
  }

  lemma AttachKeepsOtherNode(s: State, n: string, c: nat, nodeId: int, pid: Option<int>, cancel: bool, m: string)
    requires Sound(s) && c in s.conns && m != n && !Duplicate(s, n, c, pid)
    ensures NodeOk(AttachWith(s, n, c, nodeId, pid, cancel), m)
  {
    assert NodeOk(s, n) && NodeOk(s, m);
  }

  lemma AttachKeepsNode(s: State, n: string, c: nat, nodeId: int, pid: Option<int>, cancel: bool, m: string)
    requires Sound(s) && c in s.conns
    ensures NodeOk(AttachWith(s, n, c, nodeId, pid, cancel), m)
  {
    assert NodeOk(s, m);
    if Duplicate(s, n, c, pid) {
      RejectKeepsNode(s, c, m);
    } else if m == n {
      AttachMakesNodeOk(s, n, c, nodeId, pid, cancel);
    } else {
      AttachKeepsOtherNode(s, n, c, nodeId, pid, cancel, m);
    }
  }

  lemma AttachKeepsSound(s: State, n: string, c: nat, nodeId: int, pid: Option<int>, cancel: bool)
    requires Sound(s) && c in s.conns
    ensures Sound(AttachWith(s, n, c, nodeId, pid, cancel))
  {
    var r := AttachWith(s, n, c, nodeId, pid, cancel);
    forall m ensures NodeOk(r, m) { AttachKeepsNode(s, n, c, nodeId, pid, cancel, m); }
    forall t ensures TimerCarried(r, t) { assert TimerCarried(s, t); }
  }

  lemma AttachKeepsTimer(s: State, n: string, c: nat, nodeId: int, pid: Option<int>, t: nat)
    requires Inv(s) && c in s.conns
    ensures TimerCurrent(Attach(s, n, c, nodeId, pid), t)
  {
    assert NodeOk(s, n) && TimerCarried(s, t) && TimerCurrent(s, t);
  }

  lemma AttachKeepsSeen(s: State, n: string, c: nat, nodeId: int, pid: Option<int>, m: string)
    requires Sound(s) && HistoryOk(s) && c in s.conns
    ensures CloseSeen(Attach(s, n, c, nodeId, pid), m)
  {
    assert NodeOk(s, n) && CloseSeen(s, m) && NodeOk(s, m);
  }

  lemma AttachKeepsHistory(s: State, n: string, c: nat, nodeId: int, pid: Option<int>)
    requires Sound(s) && HistoryOk(s) && c in s.conns
    ensures HistoryOk(Attach(s, n, c, nodeId, pid))
  {
    var r := Attach(s, n, c, nodeId, pid);
    assert NodeOk(s, n);
    forall d | d in s.conns ensures d in r.conns && (r.conns[d].ready.Closed? <==> s.conns[d].ready.Closed?) {}
    forall m ensures CloseSeen(r, m) { AttachKeepsSeen(s, n, c, nodeId, pid, m); }
  }

  lemma AttachKeeps(s: State, n: string, c: nat, nodeId: int, pid: Option<int>)
    requires Inv(s) && c in s.conns
    ensures Inv(Attach(s, n, c, nodeId, pid))
  {
    var r := Attach(s, n, c, nodeId, pid);
    AttachKeepsSound(s, n, c, nodeId, pid, true);
    AttachKeepsHistory(s, n, c, nodeId, pid);
    forall t ensures TimerCurrent(r, t) { AttachKeepsTimer(s, n, c, nodeId, pid, t); }
  }

  // ---------------------------------------------------------------- close

  lemma DetachKeepsSound(s: State, n: string)
    requires Sound(s) && (n in s.lastAttached ==> LastClosed(s, n))
    ensures Sound(DetachWithGrace(s, n))
  {
    var r := DetachWithGrace(s, n);
    assert NodeOk(s, n);
    forall m ensures NodeOk(r, m) {
      assert NodeOk(s, m);
      if EntryOf(s, m).Some? && EntryOf(s, m).value.graceTimer.Some? {
        assert TimerCarried(s, EntryOf(s, m).value.graceTimer.value);
      }
    }
    forall t ensures TimerCarried(r, t) {
      assert TimerCarried(s, t);
    }
  }

  lemma DetachKeepsTimers(s: State, n: string)
    requires Sound(s) && forall t :: TimerCurrent(s, t)
    ensures forall t :: TimerCurrent(DetachWithGrace(s, n), t)
  {
    forall t ensures TimerCurrent(DetachWithGrace(s, n), t) { assert TimerCurrent(s, t); }
  }

  lemma MarkClosedKeepsSound(s: State, c: nat)
    requires Sound(s) && c in s.conns
    ensures Sound(MarkClosed(s, c))
    ensures (forall t :: TimerCurrent(s, t)) ==> forall t :: TimerCurrent(MarkClosed(s, c), t)
  {
    var r := MarkClosed(s, c);
    forall m ensures NodeOk(r, m) { assert NodeOk(s, m); }
    forall t ensures TimerCarried(r, t) { assert TimerCarried(s, t); }
    if forall t :: TimerCurrent(s, t) {
      forall t ensures TimerCurrent(r, t) { assert TimerCurrent(s, t); }
    }
  }

  lemma SocketClosedKeepsSound(s: State, c: nat)
    requires Sound(s) && c in s.conns
    ensures Sound(SocketClosed(s, c))
    ensures (forall t :: TimerCurrent(s, t)) ==> forall t :: TimerCurrent(SocketClosed(s, c), t)
  {
    var s1 := MarkClosed(s, c);
    MarkClosedKeepsSound(s, c);
    if SocketClosed(s, c) != s1 {
      var n := ClosesFor(s.conns[c]).value;
      assert NodeOk(s1, n);
      DetachKeepsSound(s1, n);
      if forall t :: TimerCurrent(s, t) { DetachKeepsTimers(s1, n); }
    }
  }

  lemma CloseKeepsSeen(s: State, c: nat, m: string)
    requires Sound(s) && HistoryOk(s) && c in s.conns && !s.conns[c].ready.Closed?
    ensures CloseSeen(SocketClosed(s, c), m)
  {
    assert NodeOk(s, m) && CloseSeen(s, m);
    assert c !in s.reported;
  }

  lemma SocketClosedKeeps(s: State, c: nat)
    requires Inv(s) && c in s.conns && !s.conns[c].ready.Closed?
    ensures Inv(SocketClosed(s, c))
  {
    SocketClosedKeepsSound(s, c);
    forall m ensures CloseSeen(SocketClosed(s, c), m) { CloseKeepsSeen(s, c, m); }
  }

  // ---------------------------------------------------------------- grace timers and immediate detach

  lemma FireKeepsSound(s: State, t: nat)
    requires Sound(s) && t in s.timers
    ensures s.timers[t].entry in s.entries && Sound(Fire(s, t))
  {
    assert TimerCarried(s, t);
    var r := Fire(s, t);
    assert NodeOk(s, s.timers[t].nodeUuid);
    forall m ensures NodeOk(r, m) { assert NodeOk(s, m); }
    forall u ensures TimerCarried(r, u) { assert TimerCarried(s, u); }
  }

  lemma FireKeeps(s: State, t: nat)
    requires Inv(s) && t in s.timers
    ensures s.timers[t].entry in s.entries && Inv(Fire(s, t))
  {
    FireKeepsSound(s, t);
    var r := Fire(s, t);
    assert TimerCarried(s, t) && TimerCurrent(s, t);
    forall u ensures TimerCurrent(r, u) { assert TimerCurrent(s, u) && TimerCarried(s, u); }
    forall m ensures CloseSeen(r, m) { assert CloseSeen(s, m); }
  }

  lemma DetachNowKeepsSound(s: State, n: string)
    requires Sound(s) && Harmless(s, Drop(n))
    ensures Sound(DetachNow(s, n))
  {
    var r := DetachNow(s, n);
    assert NodeOk(s, n);
    forall m ensures NodeOk(r, m) { assert NodeOk(s, m); }
    forall u ensures TimerCarried(r, u) { assert TimerCarried(s, u); }
  }

  lemma DetachNowKeeps(s: State, n: string)
    requires Inv(s) && Harmless(s, Drop(n))
    ensures Inv(DetachNow(s, n))
  {
    DetachNowKeepsSound(s, n);
    var r := DetachNow(s, n);
    assert NodeOk(s, n);
    forall u ensures TimerCurrent(r, u) { assert TimerCurrent(s, u) && TimerCarried(s, u); }
    forall m ensures CloseSeen(r, m) { assert CloseSeen(s, m); }
  }

  // ---------------------------------------------------------------- steps and runs

  lemma ConnectKeepsSound(s: State, c: nat)
    requires Sound(s) && c !in s.conns
    ensures Sound(Do(s, Connect(c)))
  {
    forall m ensures NodeOk(Do(s, Connect(c)), m) { assert NodeOk(s, m); }
    forall t ensures TimerCarried(Do(s, Connect(c)), t) { assert TimerCarried(s, t); }
  }

  lemma ConnectKeeps(s: State, c: nat)
    requires Inv(s) && c !in s.conns
    ensures Inv(Do(s, Connect(c)))
  {
    ConnectKeepsSound(s, c);
    forall t ensures TimerCurrent(Do(s, Connect(c)), t) { assert TimerCurrent(s, t); }
    forall m ensures CloseSeen(Do(s, Connect(c)), m) { assert CloseSeen(s, m) && NodeOk(s, m); }
  }

  lemma StepKeepsInv(s: State, e: Event)
    requires Enabled(s, e) && Inv(s) && Harmless(s, e)
    ensures Inv(Do(s, e))
  {
    match e
    case Connect(c) => ConnectKeeps(s, c);
    case Register(c, n, nodeId, pid) => if n != "" { AttachKeeps(s, n, c, nodeId, pid); }
    case SocketClose(c) => SocketClosedKeeps(s, c);
    case GraceExpiry(t) => FireKeeps(s, t);
    case Drop(n) => DetachNowKeeps(s, n);
  }

  lemma {:induction false} RunsKeepInv(states: seq<State>, events: seq<Event>, i: nat)
    requires IsRun(states, events) && i < |states|
    requires forall j | 0 <= j < |events| :: Harmless(states[j], events[j])
    ensures Inv(states[i])
  {
    if i > 0 {
      RunsKeepInv(states, events, i - 1);
      assert Enabled(states[i - 1], events[i - 1]) && states[i - 1 + 1] == Do(states[i - 1], events[i - 1]);
      StepKeepsInv(states[i - 1], events[i - 1]);
    }
  }

  // ---------------------------------------------------------------- main results

  /**
   * In every run, the connection that attached last and is still open owns its node's entry: no stale close,
   * rejected duplicate or old grace timer takes it away, and commands sent to the node reach it.
   */
  lemma LatestOpenConnectionOwnsNode(states: seq<State>, events: seq<Event>, i: nat, n: string)
    requires IsRun(states, events) && i < |states|
    requires forall j | 0 <= j < |events| :: Harmless(states[j], events[j])
    requires n in states[i].lastAttached && IsOpen(states[i], states[i].lastAttached[n])
    ensures EntryOf(states[i], n).Some? && EntryOf(states[i], n).value.ws == Some(states[i].lastAttached[n])
  {
    RunsKeepInv(states, events, i);
    assert NodeOk(states[i], n);
  }

  /** In every run, an entry has no socket exactly when a live grace timer is armed for it; a node has one at most. */
  lemma SocketOrGrace(states: seq<State>, events: seq<Event>, i: nat, n: string)
    requires IsRun(states, events) && i < |states|
    requires forall j | 0 <= j < |events| :: Harmless(states[j], events[j])
    ensures EntryOf(states[i], n).Some? ==> (EntryOf(states[i], n).value.ws.None? <==> GraceArmed(states[i], n))
    ensures forall t, u | t in states[i].timers && u in states[i].timers ::
              states[i].timers[t].nodeUuid == states[i].timers[u].nodeUuid ==> t == u
  {
    var s := states[i];
    RunsKeepInv(states, events, i);
    assert NodeOk(s, n);
    forall t, u | t in s.timers && u in s.timers && s.timers[t].nodeUuid == s.timers[u].nodeUuid ensures t == u {
      assert TimerCarried(s, t) && TimerCarried(s, u) && TimerCurrent(s, t) && TimerCurrent(s, u);
    }
  }

  /**
   * In every run, an entry whose latest connection has closed is on its way out, a grace timer being armed for it,
   * if and only if the close was for this node and came after the registration: a connection that registered after
   * its close, with node id zero, or for another node in between leaves its dead socket behind.
   */
  lemma ClosedNodeExpiresExactly(states: seq<State>, events: seq<Event>, i: nat, n: string)
    requires IsRun(states, events) && i < |states|
    requires forall j | 0 <= j < |events| :: Harmless(states[j], events[j])
    requires EntryOf(states[i], n).Some? && n in states[i].lastAttached && LastClosed(states[i], n)
    ensures GraceArmed(states[i], n)
            <==> ReportedFor(states[i], states[i].lastAttached[n], n) && n !in states[i].late
  {
    RunsKeepInv(states, events, i);
    assert NodeOk(states[i], n) && CloseSeen(states[i], n);
  }

  /** Such a run: the connection closes while its registration is still awaited. */
  lemma LateRegistrationStrands(n: string) returns (states: seq<State>, events: seq<Event>)
    requires n != ""
    ensures IsRun(states, events) && |events| == 3
    ensures var s := states[3];
            && EntryOf(s, n).Some? && EntryOf(s, n).value.ws == Some(0) && 0 in s.conns && s.conns[0].ready.Closed?
            && s.timers == map[]
  {
    events := [Connect(0), SocketClose(0), Register(0, n, 1, None)];
    var s1 := Do(Start, events[0]);
    var s2 := Do(s1, events[1]);
    states := [Start, s1, s2, Do(s2, events[2])];
  }

  /**
   * An immediate detach leaves the last attached connection its entry, or finds it closed, if and only if the
   * node has no entry, or its entry has no socket, or that socket has closed.
   */
  lemma DropKeepsExactly(s: State, n: string)
    requires Inv(s)
    ensures Kept(DetachNow(s, n), n) <==> Harmless(s, Drop(n))
  {
    assert NodeOk(s, n);
  }

  // ---------------------------------------------------------------- what attach and detach leave

  /** The node is served over another open connection by a process known to be different. */
  predicate ServedElsewhere(s: State, n: string, c: nat, pid: Option<int>) {
    && n in s.nodes && s.nodes[n] in s.entries
    && var e := s.entries[s.nodes[n]];
       && e.ws.Some? && e.ws.value != c && e.ws.value in s.conns && s.conns[e.ws.value].ready == Open
       && e.pid.Some? && pid.Some? && e.pid.value != pid.value
  }

  lemma DuplicateMeans(s: State, n: string, c: nat, pid: Option<int>)
    ensures Duplicate(s, n, c, pid) <==> ServedElsewhere(s, n, c, pid)
  {
  }

  /** A registration that comes while another process serves the node changes nothing but to close its own socket. */
  lemma RejectedLeavesOwner(s: State, n: string, c: nat, nodeId: int, pid: Option<int>)
    requires c in s.conns && ServedElsewhere(s, n, c, pid)
    ensures var r := Attach(s, n, c, nodeId, pid);
            && r.nodes == s.nodes && r.entries == s.entries && r.timers == s.timers && r.lastAttached == s.lastAttached
            && c in r.conns && r.conns[c].ready != Open && r.conns[c].nodeUuid == s.conns[c].nodeUuid
            && forall d <- s.conns :: d != c ==> d in r.conns && r.conns[d] == s.conns[d]
  {
    DuplicateMeans(s, n, c, pid);
  }

  /**
   * Any other registration leaves the node with this connection, id and process, without a live timer, and with no
   * other open socket; all other nodes keep theirs.
   */
  lemma AcceptedTakesOver(s: State, n: string, c: nat, nodeId: int, pid: Option<int>)
    requires Inv(s) && c in s.conns && !ServedElsewhere(s, n, c, pid)
    ensures var r := Attach(s, n, c, nodeId, pid);
            && EntryOf(r, n) == Some(Entry(Some(c), nodeId, pid, None)) && r.lastAttached == s.lastAttached[n := c]
            && c in r.conns && r.conns[c].nodeUuid == Some(n) && r.conns[c].nodeId == nodeId
            && (forall t <- r.timers :: r.timers[t].nodeUuid != n)
            && (n in s.nodes && s.entries[s.nodes[n]].ws.Some? ==>
                  var d := s.entries[s.nodes[n]].ws.value; d != c && d in s.conns ==> d in r.conns && r.conns[d].ready != Open)
            && forall m | m != n :: EntryOf(r, m) == EntryOf(s, m)
  {
    DuplicateMeans(s, n, c, pid);
    var r := Attach(s, n, c, nodeId, pid);
    assert NodeOk(s, n);
    forall t | t in r.timers ensures r.timers[t].nodeUuid != n { assert TimerCarried(s, t) && TimerCurrent(s, t); }
  }

  /** A registration without a node uuid changes nothing; any other one is an attach. */
  lemma RegisterAttaches(s: State, n: string, c: nat, nodeId: int, pid: Option<int>)
    requires c in s.conns
    ensures Do(s, Register(c, n, nodeId, pid)) == if |n| == 0 then s else Attach(s, n, c, nodeId, pid)
  {
  }

  /** A detach into the grace period takes the socket and arms a timer; id and process stay, and so do all other nodes. */
  lemma DetachKeepsRecord(s: State, n: string)
    requires References(s)
    ensures var r := DetachWithGrace(s, n);
            && r.nodes == s.nodes && r.conns == s.conns
            && (n !in s.nodes ==> r == s)
            && (n in s.nodes ==>
                  var e := s.entries[s.nodes[n]];
                  EntryOf(r, n) == Some(Entry(None, e.nodeId, e.pid, Some(s.nextTimer))) && s.nextTimer in r.timers)
            && forall m | m != n :: EntryOf(r, m) == EntryOf(s, m)
  {
  }

  /** The close event of `c` concerns node `n`: `c` last registered for it, with an id, and no other socket serves it. */
  predicate ClosesNode(s: State, c: nat, n: string) {
    && c in s.conns && s.conns[c].nodeUuid == Some(n) && n != "" && s.conns[c].nodeId != 0
    && n in s.nodes && s.nodes[n] in s.entries
    && (s.entries[s.nodes[n]].ws == None || s.entries[s.nodes[n]].ws == Some(c))
  }

  /** A close event takes the socket of exactly the node it concerns, if any, and starts its grace period. */
  lemma CloseOutcome(s: State, c: nat, n: string)
    requires References(s) && c in s.conns
    ensures var r := SocketClosed(s, c);
            && r.conns == s.conns[c := s.conns[c].(ready := Closed)] && r.nodes == s.nodes
            && (!ClosesNode(s, c, n) ==> EntryOf(r, n) == EntryOf(s, n))
            && (ClosesNode(s, c, n) ==>
                  var e := s.entries[s.nodes[n]];
                  && EntryOf(r, n) == Some(Entry(None, e.nodeId, e.pid, Some(s.nextTimer)))
                  && s.nextTimer in r.timers && r.timers[s.nextTimer] == Timer(n, s.nodes[n]))
  {
    var s1 := MarkClosed(s, c);
    if ClosesFor(s.conns[c]).Some? { DetachKeepsRecord(s1, ClosesFor(s.conns[c]).value); }
  }

  // ---------------------------------------------------------------- what cancelling is needed for

  /** A step of a registry whose re-attach leaves the old grace timer running. */
  function DoUncancelled(s: State, e: Event): State
    requires Enabled(s, e)
  {
    match e
    case Register(c, n, nodeId, pid) => if n == "" then s else AttachWith(s, n, c, nodeId, pid, false)
    case _ => Do(s, e)
  }

  predicate IsUncancelledRun(states: seq<State>, events: seq<Event>) {
    && |states| == |events| + 1
    && states[0] == Start
    && forall i | 0 <= i < |events| ::
         Enabled(states[i], events[i]) && states[i + 1] == DoUncancelled(states[i], events[i])
  }

  lemma {:induction false} UncancelledRunsStaySound(states: seq<State>, events: seq<Event>, i: nat)
    requires IsUncancelledRun(states, events) && i < |states|
    requires forall j | 0 <= j < |events| :: Harmless(states[j], events[j])
    ensures Sound(states[i])
  {
    if i > 0 {
      var s, e := states[i - 1], events[i - 1];
      UncancelledRunsStaySound(states, events, i - 1);
      assert Enabled(s, e) && states[i - 1 + 1] == DoUncancelled(s, e);
      match e
      case Connect(c) => ConnectKeepsSound(s, c);
      case Register(c, n, nodeId, pid) => if n != "" { AttachKeepsSound(s, n, c, nodeId, pid, false); }
      case SocketClose(c) => SocketClosedKeepsSound(s, c);
      case GraceExpiry(t) => FireKeepsSound(s, t);
      case Drop(n) => DetachNowKeepsSound(s, n);
    }
  }

  /**
   * For a re-attach the comparison in the timer callback is enough: even in runs where no re-attach ever cancels,
   * whatever left-over timers fire, the last attached open connection keeps its entry, and an entry has no socket
   * exactly when a live timer is armed for it.
   */
  lemma ComparisonProtectsReattach(states: seq<State>, events: seq<Event>, i: nat, n: string)
    requires IsUncancelledRun(states, events) && i < |states|
    requires forall j | 0 <= j < |events| :: Harmless(states[j], events[j])
    ensures n in states[i].lastAttached && IsOpen(states[i], states[i].lastAttached[n]) ==>
              EntryOf(states[i], n).Some? && EntryOf(states[i], n).value.ws == Some(states[i].lastAttached[n])
    ensures EntryOf(states[i], n).Some? ==> (EntryOf(states[i], n).value.ws.None? <==> GraceArmed(states[i], n))
  {
    UncancelledRunsStaySound(states, events, i);
    assert NodeOk(states[i], n);
  }

  function TwiceEvent(n: string, i: int): Event {
    match i
    case 0 => Connect(0)
    case 1 => Register(0, n, 1, None)
    case 2 => Connect(1)
    case 3 => Register(1, n, 1, None)
    case 4 => SocketClose(1)
    case _ => SocketClose(0)
  }

  function TwiceState(n: string, i: int): State {
    var unregistered, live, replaced, gone := Conn(Open, None, 0), Conn(Open, Some(n), 1), Conn(Closing, Some(n), 1), Conn(Closed, Some(n), 1);
    var e0, e1 := Entry(Some(0), 1, None, None), Entry(Some(1), 1, None, None);
    match i
    case 0 => Start
    case 1 => State(map[], map[], map[], map[0 := unregistered], 0, 0, map[], {}, map[])
    case 2 => State(map[n := 0], map[0 := e0], map[], map[0 := live], 1, 0, map[n := 0], {}, map[])
    case 3 => State(map[n := 0], map[0 := e0], map[], map[0 := live, 1 := unregistered], 1, 0, map[n := 0], {}, map[])
    case 4 => State(map[n := 1], map[0 := e0, 1 := e1], map[], map[0 := replaced, 1 := live], 2, 0, map[n := 1], {}, map[])
    case 5 => State(map[n := 1], map[0 := e0, 1 := Entry(None, 1, None, Some(0))], map[0 := Timer(n, 1)],
                    map[0 := replaced, 1 := gone], 2, 1, map[n := 1], {}, map[1 := n])
    case _ => State(map[n := 1], map[0 := e0, 1 := Entry(None, 1, None, Some(1))], map[1 := Timer(n, 1)],
                    map[0 := gone, 1 := gone], 2, 2, map[n := 1], {}, map[0 := n, 1 := n])
  }

  predicate Takes(s: State, e: Event, t: State) {
    Enabled(s, e) && t == Do(s, e)
  }

  lemma TwiceOpens(n: string, i: int)
    requires n != "" && 0 <= i < 4
    ensures Takes(TwiceState(n, i), TwiceEvent(n, i), TwiceState(n, i + 1))
  {
  }

  lemma FirstClose(n: string)
    requires n != ""
    ensures Takes(TwiceState(n, 4), TwiceEvent(n, 4), TwiceState(n, 5))
  {
  }

  lemma SecondClose(n: string)
    requires n != ""
    ensures Takes(TwiceState(n, 5), TwiceEvent(n, 5), TwiceState(n, 6))
  {
  }

  /** A node is detached twice in one grace period when its replaced connection closes after the one that replaced it. */
  lemma RepeatedDetachHappens(n: string) returns (states: seq<State>, events: seq<Event>)
    requires n != ""
    ensures IsRun(states, events) && |events| == 6 && events[5].SocketClose?
    ensures GraceArmed(states[5], n) && states[5].timers.Keys == {0}
    ensures GraceArmed(states[6], n) && states[6].timers.Keys == {1}
  {
    states, events := seq(7, i => TwiceState(n, i)), seq(6, i => TwiceEvent(n, i));
    forall i | 0 <= i < 6 ensures Takes(states[i], events[i], states[i + 1]) {
      if i < 4 { TwiceOpens(n, i); } else if i == 4 { FirstClose(n); } else { SecondClose(n); }
    }
  }

  /**
   * For a repeated detach it is not: from any reachable state whose node is in its grace period, detaching again
   * without cancelling lets the older timer delete the node while the newer one runs; with the cancellation only
   * the newer timer can end the grace period.
   */
  lemma RepeatedDetachNeedsCancel(s: State, n: string)
    requires Inv(s) && GraceArmed(s, n)
    ensures var older, newer := EntryOf(s, n).value.graceTimer.value, s.nextTimer;
            var r := DetachArming(s, n, false);
            && older != newer && newer in r.timers && Enabled(r, GraceExpiry(older))
            && n !in Do(r, GraceExpiry(older)).nodes && newer in Do(r, GraceExpiry(older)).timers
    ensures var newer, r := s.nextTimer, DetachArming(s, n, true);
            forall t | Enabled(r, GraceExpiry(t)) :: n !in Do(r, GraceExpiry(t)).nodes <==> t == newer
  {
    var older := EntryOf(s, n).value.graceTimer.value;
    assert NodeOk(s, n) && TimerCarried(s, older);
    var r := DetachArming(s, n, true);
    forall t | Enabled(r, GraceExpiry(t)) ensures n !in Do(r, GraceExpiry(t)).nodes <==> t == s.nextTimer {
      assert TimerCarried(s, t) && TimerCurrent(s, t);
    }
  }
}
