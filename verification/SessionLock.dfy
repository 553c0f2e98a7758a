/**
 * The per-session lock of `executor/session-manager.js` and what it protects.
 *
 * `attachBib` and `close` queue on a promise chain: each call remembers the tail it found, stores its own tail,
 * and runs its body once the remembered tail has resolved. A call's tail resolves when the call has released its
 * gate and the tail before it has resolved. Bodies are split at their `await`s; every stretch between two awaits
 * is one event, and any order of enabled events is a run. Calls are numbered in order of arrival.
 */
module SessionLock {
  import opened Options

  /** `complete`: the attach names its remote session and the manager can send binary frames. */
  datatype Kind = Attach(complete: bool) | Close

  datatype Phase =
    | Waiting
    | DetachingOld  // attach: the replaced bridge is being detached
    | Attaching     // attach: the new bridge is connecting
    | Listing       // attach: the bridge is registered, tabs are being listed
    | Aborting      // attach: the new bridge failed and is being detached
    | ClosingBridge // close: the bridge is being detached
    | ClosingSlot   // close: the slot is shutting down
    | Done

  datatype Call = Call(sessionId: string, kind: Kind, prev: Option<nat>, phase: Phase)

  datatype State = State(
    locks: map<string, nat>, // session id -> call whose tail is stored
    calls: map<nat, Call>,
    next: nat,
    sessions: set<string>,
    bibs: set<string>)

  const Start := State(map[], map[], 0, {}, {})

  /** Every call's predecessor arrived before it. */
  predicate Chained(s: State) {
    forall c <- s.calls :: c < s.next && (s.calls[c].prev.Some? ==> s.calls[c].prev.value in s.calls && s.calls[c].prev.value < c)
  }

  predicate Resolved(s: State, c: nat)
    requires Chained(s) && c in s.calls
    decreases c
  {
    s.calls[c].phase.Done? && (s.calls[c].prev.Some? ==> Resolved(s, s.calls[c].prev.value))
  }

  predicate MayEnter(s: State, c: nat)
    requires Chained(s) && c in s.calls
  {
    s.calls[c].phase.Waiting? && (s.calls[c].prev.Some? ==> Resolved(s, s.calls[c].prev.value))
  }

  predicate Running(call: Call) {
    !call.phase.Waiting? && !call.phase.Done?
  }

  datatype Event =
    | Arrive(sessionId: string, kind: Kind)
    | Enter(call: nat)
    | Resume(call: nat, ok: bool) // the awaited operation settled
    | OpenSession(sessionId: string)
    | DetachBib(sessionId: string)
    | ProcessExit(sessionId: string)
    | GhostReclaim(sessionId: string)

  predicate Enabled(s: State, e: Event)
    requires Chained(s)
  {
    match e
    case Enter(c) => c in s.calls && MayEnter(s, c)
    case Resume(c, _) => c in s.calls && Running(s.calls[c])
    case _ => true
  }

  function Move(s: State, c: nat, phase: Phase): State
    requires c in s.calls
  {
    s.(calls := s.calls[c := s.calls[c].(phase := phase)])
  }

  /** The `finally` block: release the gate, and drop the lock entry if no later call has queued. */
  function Exit(s: State, c: nat): State
    requires c in s.calls
  {
    var id := s.calls[c].sessionId;
    var locks := if id in s.locks && s.locks[id] == c then s.locks - {id} else s.locks;
    Move(s, c, Done).(locks := locks)
  }

  /** A body up to its first await; both bodies give up at once on an unknown session, an incomplete attach too. */
  function EnterBody(s: State, c: nat): State
    requires c in s.calls
  {
    var id := s.calls[c].sessionId;
    if id !in s.sessions || s.calls[c].kind == Attach(false) then Exit(s, c)
    else
      var s1 := s.(bibs := s.bibs - {id});
      match s.calls[c].kind
      case Attach(_) => Move(s1, c, if id in s.bibs then DetachingOld else Attaching)
      case Close => Move(s1, c, ClosingBridge)
  }

  /** A body from one await to the next. */
  function ResumeBody(s: State, c: nat, ok: bool): State
    requires c in s.calls
  {
    var id := s.calls[c].sessionId;
    match s.calls[c].phase
    case DetachingOld => Move(s, c, Attaching)
    case Attaching => if ok then Move(s.(bibs := s.bibs + {id}), c, Listing) else Move(s, c, Aborting)
    case ClosingBridge => Move(s, c, ClosingSlot)
    case ClosingSlot => Exit(if ok then s.(sessions := s.sessions - {id}) else s, c)
    case _ => Exit(s, c)
  }

  function Do(s: State, e: Event): State
    requires Chained(s) && Enabled(s, e)
  {
    match e
    case Arrive(id, kind) =>
      var prev := if id in s.locks then Some(s.locks[id]) else None;
      s.(locks := s.locks[id := s.next], calls := s.calls[s.next := Call(id, kind, prev, Waiting)], next := s.next + 1)
    case Enter(c) => EnterBody(s, c)
    case Resume(c, ok) => ResumeBody(s, c, ok)
    case OpenSession(id) => s.(sessions := s.sessions + {id})
    case DetachBib(id) => s.(bibs := s.bibs - {id})
    case ProcessExit(id) => s.(bibs := s.bibs - {id}, sessions := s.sessions - {id})
    case GhostReclaim(id) => s.(sessions := s.sessions - {id})
  }

  predicate Steps(s: State, e: Event, t: State) {
    Chained(s) && Enabled(s, e) && t == Do(s, e)
  }

  predicate IsRun(states: seq<State>, events: seq<Event>) {
    && |states| == |events| + 1
    && states[0] == Start
    && forall i | 0 <= i < |events| :: Steps(states[i], events[i], states[i + 1])
  }

  // ---------------------------------------------------------------- the lock

  /** Arrival order within a session: a call that has left the queue has everything before it finished. */
  predicate InOrder(s: State, a: nat, b: nat) {
    a in s.calls && b in s.calls && a < b && s.calls[a].sessionId == s.calls[b].sessionId ==>
      && (s.calls[a].phase.Done? || s.calls[b].phase.Waiting?)
      && (match s.calls[b].prev
          case Some(p) => a <= p
          case None => s.calls[a].phase.Done?)
  }

  predicate PrevSameSession(s: State, c: nat) {
    c in s.calls && s.calls[c].prev.Some? ==>
      s.calls[c].prev.value in s.calls && s.calls[s.calls[c].prev.value].sessionId == s.calls[c].sessionId
  }

  /** The stored tail is the newest unfinished call of its session; without one, nobody holds or waits. */
  predicate LockOk(s: State, c: nat) {
    c in s.calls ==>
      var id := s.calls[c].sessionId;
      if id in s.locks then c <= s.locks[id] else s.calls[c].phase.Done?
  }

  predicate EntryOk(s: State, id: string) {
    id in s.locks ==> s.locks[id] in s.calls && s.calls[s.locks[id]].sessionId == id && !s.calls[s.locks[id]].phase.Done?
  }

  ghost predicate LockInv(s: State) {
    && Chained(s)
    && (forall a, b :: InOrder(s, a, b))
    && (forall c :: PrevSameSession(s, c) && LockOk(s, c))
    && (forall id :: EntryOk(s, id))
  }

  lemma {:induction false} ResolvedMeansDone(s: State, c: nat)
    requires LockInv(s) && c in s.calls
    ensures Resolved(s, c) <==> s.calls[c].phase.Done?
  {
    if s.calls[c].phase.Done? && s.calls[c].prev.Some? {
      var p := s.calls[c].prev.value;
      assert PrevSameSession(s, c) && InOrder(s, p, c);
      ResolvedMeansDone(s, p);
    }
  }

  lemma EveryoneBeforeIsDone(s: State, a: nat, c: nat)
    requires LockInv(s) && a in s.calls && c in s.calls && a < c && s.calls[a].sessionId == s.calls[c].sessionId
    requires MayEnter(s, c)
    ensures s.calls[a].phase.Done?
  {
    assert InOrder(s, a, c) && PrevSameSession(s, c);
    if s.calls[c].prev.Some? {
      var p := s.calls[c].prev.value;
      ResolvedMeansDone(s, p);
      assert InOrder(s, a, p);
    }
  }

  lemma ArriveKeepsLock(s: State, id: string, kind: Kind)
    requires LockInv(s)
    ensures LockInv(Do(s, Arrive(id, kind)))
  {
    var t := Do(s, Arrive(id, kind));
    assert EntryOk(s, id);
    forall a, b ensures InOrder(t, a, b) {
      assert InOrder(s, a, b) && LockOk(s, a);
    }
    forall c ensures PrevSameSession(t, c) && LockOk(t, c) { assert PrevSameSession(s, c) && LockOk(s, c); }
    forall i ensures EntryOk(t, i) { assert EntryOk(s, i); }
  }

  lemma MoveKeepsLock(s: State, c: nat, phase: Phase)
    requires LockInv(s) && c in s.calls && !phase.Waiting? && !phase.Done?
    requires Running(s.calls[c]) || MayEnter(s, c)
    ensures LockInv(Move(s, c, phase))
  {
    var t := Move(s, c, phase);
    forall a, b ensures InOrder(t, a, b) {
      assert InOrder(s, a, b);
      if b == c && a in s.calls && a < b && s.calls[a].sessionId == s.calls[b].sessionId && s.calls[c].phase.Waiting? {
        EveryoneBeforeIsDone(s, a, c);
      }
    }
    forall d: nat ensures PrevSameSession(t, d) && LockOk(t, d) { assert PrevSameSession(s, d) && LockOk(s, d); }
    forall i ensures EntryOk(t, i) { assert EntryOk(s, i); }
  }

  lemma ExitKeepsLock(s: State, c: nat)
    requires LockInv(s) && c in s.calls && (Running(s.calls[c]) || MayEnter(s, c))
    ensures LockInv(Exit(s, c))
  {
    var t := Exit(s, c);
    forall a, b ensures InOrder(t, a, b) {
      assert InOrder(s, a, b);
      if b == c && a in s.calls && a < b && s.calls[a].sessionId == s.calls[b].sessionId && s.calls[c].phase.Waiting? {
        EveryoneBeforeIsDone(s, a, c);
      }
    }
    forall d: nat ensures PrevSameSession(t, d) && LockOk(t, d) {
      assert PrevSameSession(s, d) && LockOk(s, d) && LockOk(s, c) && InOrder(s, d, c);
      if d in s.calls && d < c && s.calls[d].sessionId == s.calls[c].sessionId && s.calls[c].phase.Waiting? {
        EveryoneBeforeIsDone(s, d, c);
      }
    }
    forall i ensures EntryOk(t, i) { assert EntryOk(s, i) && LockOk(s, c); }
  }

  lemma StepKeepsLock(s: State, e: Event)
    requires LockInv(s) && Enabled(s, e)
    ensures LockInv(Do(s, e))
  {
    match e
    case Arrive(id, kind) => ArriveKeepsLock(s, id, kind);
    case Enter(c) =>
      var s1 := s.(bibs := s.bibs - {s.calls[c].sessionId});
      SameCallsKeepLock(s, s1);
      if Do(s, e) == Exit(s, c) { ExitKeepsLock(s, c); } else { MoveKeepsLock(s1, c, Do(s, e).calls[c].phase); }
    case Resume(c, ok) =>
      var id := s.calls[c].sessionId;
      var s1 := s.(bibs := s.bibs + {id});
      var s2 := s.(sessions := s.sessions - {id});
      SameCallsKeepLock(s, s1);
      SameCallsKeepLock(s, s2);
      match s.calls[c].phase {
        case DetachingOld => MoveKeepsLock(s, c, Attaching);
        case Attaching => if ok { MoveKeepsLock(s1, c, Listing); } else { MoveKeepsLock(s, c, Aborting); }
        case ClosingBridge => MoveKeepsLock(s, c, ClosingSlot);
        case ClosingSlot => ExitKeepsLock(if ok then s2 else s, c);
        case _ => ExitKeepsLock(s, c);
      }
    case _ => SameCallsKeepLock(s, Do(s, e));
  }

  lemma SameCallsKeepLock(s: State, t: State)
    requires LockInv(s) && t.calls == s.calls && t.locks == s.locks && t.next == s.next
    ensures LockInv(t)
    ensures forall c | c in s.calls :: MayEnter(s, c) ==> MayEnter(t, c)
  {
    forall a, b ensures InOrder(t, a, b) { assert InOrder(s, a, b); }
    forall c: nat ensures PrevSameSession(t, c) && LockOk(t, c) { assert PrevSameSession(s, c) && LockOk(s, c); }
    forall i ensures EntryOk(t, i) { assert EntryOk(s, i); }
    forall c | c in s.calls && s.calls[c].prev.Some? ensures Resolved(s, s.calls[c].prev.value) == Resolved(t, s.calls[c].prev.value) {
      ResolvedMeansDone(s, s.calls[c].prev.value);
      ResolvedMeansDone(t, s.calls[c].prev.value);
    }
  }

  lemma {:induction false} RunsKeepLock(states: seq<State>, events: seq<Event>, i: nat)
    requires IsRun(states, events) && i < |states|
    ensures LockInv(states[i])
  {
    if i > 0 {
      RunsKeepLock(states, events, i - 1);
      assert Steps(states[i - 1], events[i - 1], states[i - 1 + 1]);
      StepKeepsLock(states[i - 1], events[i - 1]);
    }
  }

  /**
   * In every run, at most one body per session is running, a body starts only after every earlier call of its
   * session has finished, and a lock entry exists exactly while some call holds or waits.
   */
  lemma BodiesExcludeEachOther(states: seq<State>, events: seq<Event>, i: nat)
    requires IsRun(states, events) && i < |states|
    ensures var s := states[i];
            && (forall a, b | a in s.calls && b in s.calls && a < b && s.calls[a].sessionId == s.calls[b].sessionId ::
                  s.calls[b].phase.Waiting? || s.calls[a].phase.Done?)
            && (forall id :: id in s.locks <==> exists c :: c in s.calls && s.calls[c].sessionId == id && !s.calls[c].phase.Done?)
  {
    var s := states[i];
    RunsKeepLock(states, events, i);
    forall a, b | a in s.calls && b in s.calls && a < b && s.calls[a].sessionId == s.calls[b].sessionId
      ensures s.calls[b].phase.Waiting? || s.calls[a].phase.Done? { assert InOrder(s, a, b); }
    forall id ensures id in s.locks <==> exists c :: c in s.calls && s.calls[c].sessionId == id && !s.calls[c].phase.Done? {
      assert EntryOk(s, id);
      forall c | c in s.calls && s.calls[c].sessionId == id && !s.calls[c].phase.Done? ensures id in s.locks { assert LockOk(s, c); }
    }
  }

  /** The chain cannot deadlock: while an entry exists, its session's oldest unfinished call runs or may enter. */
  lemma ChainProgresses(s: State, id: string) returns (c: nat)
    requires LockInv(s) && id in s.locks
    ensures c in s.calls && s.calls[c].sessionId == id && (Running(s.calls[c]) || MayEnter(s, c))
  {
    assert EntryOk(s, id);
    c := s.locks[id];
    while s.calls[c].phase.Waiting? && !MayEnter(s, c)
      invariant c in s.calls && s.calls[c].sessionId == id && !s.calls[c].phase.Done?
      decreases c
    {
      assert PrevSameSession(s, c);
      ResolvedMeansDone(s, s.calls[c].prev.value);
      c := s.calls[c].prev.value;
    }
  }

  // ---------------------------------------------------------------- what the lock protects

  /** An attach that has checked its session and not yet registered its bridge. */
  predicate MidAttach(call: Call) {
    call.phase.DetachingOld? || call.phase.Attaching?
  }

  ghost predicate MidAttachOpen(s: State) {
    forall c <- s.calls :: MidAttach(s.calls[c]) ==> s.calls[c].sessionId in s.sessions
  }

  ghost predicate ClosingBare(s: State) {
    forall c <- s.calls :: s.calls[c].phase.ClosingBridge? || s.calls[c].phase.ClosingSlot? ==> s.calls[c].sessionId !in s.bibs
  }

  /** Every session with a bridge is open, every attach in flight is on an open session, a closing session has no bridge. */
  ghost predicate Protected(s: State) {
    s.bibs <= s.sessions && MidAttachOpen(s) && ClosingBare(s)
  }

  /** A lost session is harmless when no attach is in flight on it and, for a reclaimed ghost, no bridge is left. */
  ghost predicate Harmless(s: State, e: Event) {
    && (e.ProcessExit? || e.GhostReclaim? ==>
          forall c <- s.calls :: MidAttach(s.calls[c]) ==> s.calls[c].sessionId != e.sessionId)
    && (e.GhostReclaim? ==> e.sessionId !in s.bibs)
  }

  lemma OnlyOneRuns(s: State, c: nat, d: nat)
    requires LockInv(s) && c in s.calls && d in s.calls && s.calls[c].sessionId == s.calls[d].sessionId
    requires Running(s.calls[c]) && Running(s.calls[d])
    ensures c == d
  {
    assert InOrder(s, c, d) && InOrder(s, d, c);
  }

  lemma OthersElsewhere(s: State, c: nat)
    requires LockInv(s) && c in s.calls && (Running(s.calls[c]) || MayEnter(s, c))
    ensures forall d <- s.calls :: d != c && Running(s.calls[d]) ==> s.calls[d].sessionId != s.calls[c].sessionId
  {
    forall d | d in s.calls && d != c && Running(s.calls[d]) ensures s.calls[d].sessionId != s.calls[c].sessionId {
      assert InOrder(s, c, d);
      if s.calls[d].sessionId == s.calls[c].sessionId {
        if Running(s.calls[c]) { OnlyOneRuns(s, c, d); }
        if d < c && s.calls[c].phase.Waiting? { EveryoneBeforeIsDone(s, d, c); }
      }
    }
  }

  lemma EnterKeepsProtected(s: State, c: nat)
    requires LockInv(s) && Protected(s) && c in s.calls && MayEnter(s, c)
    ensures Protected(EnterBody(s, c))
  {
    OthersElsewhere(s, c);
  }

  lemma ResumeKeepsProtected(s: State, c: nat, ok: bool)
    requires LockInv(s) && Protected(s) && c in s.calls && Running(s.calls[c])
    ensures Protected(ResumeBody(s, c, ok))
  {
    OthersElsewhere(s, c);
  }

  lemma StepKeepsProtected(s: State, e: Event)
    requires LockInv(s) && Protected(s) && Enabled(s, e) && Harmless(s, e)
    ensures Protected(Do(s, e))
  {
    match e
    case Enter(c) => EnterKeepsProtected(s, c);
    case Resume(c, ok) => ResumeKeepsProtected(s, c, ok);
    case _ =>
  }

  /** In every run without a harmful exit or reclaim, every session with a bridge is still open. */
  lemma {:induction false} RunsStayProtected(states: seq<State>, events: seq<Event>, i: nat)
    requires IsRun(states, events) && i < |states|
    requires forall j | 0 <= j < |events| :: Harmless(states[j], events[j])
    ensures Protected(states[i])
  {
    if i > 0 {
      RunsStayProtected(states, events, i - 1);
      RunsKeepLock(states, events, i - 1);
      assert Steps(states[i - 1], events[i - 1], states[i - 1 + 1]);
      StepKeepsProtected(states[i - 1], events[i - 1]);
    }
  }

  /** In such a run no attach lands on a closed session: a bridge is registered only while its session is open. */
  lemma NoAttachLandsOnClosed(states: seq<State>, events: seq<Event>, i: nat, id: string)
    requires IsRun(states, events) && i < |events|
    requires forall j | 0 <= j < |events| :: Harmless(states[j], events[j])
    requires id !in states[i].bibs && id in states[i + 1].bibs
    ensures events[i].Resume? && id in states[i].sessions && id in states[i + 1].sessions
  {
    RunsStayProtected(states, events, i);
    RunsStayProtected(states, events, i + 1);
    assert Steps(states[i], events[i], states[i + 1]);
  }

  /** The invariant survives the loss of a session exactly when the loss is harmless. */
  lemma LossProtectsExactly(s: State, e: Event)
    requires LockInv(s) && Protected(s) && (e.ProcessExit? || e.GhostReclaim?)
    ensures Protected(Do(s, e)) <==> Harmless(s, e)
  {
    if Harmless(s, e) { StepKeepsProtected(s, e); }
  }

  /** Some state after `t`, reached without any further harmful loss, has a bridge on a closed session. */
  ghost predicate Leaks(t: State) {
    exists states, events :: LeakingPath(t, states, events)
  }

  ghost predicate LeakingPath(t: State, states: seq<State>, events: seq<Event>) {
    && |states| == |events| + 1 && states[0] == t
    && (forall i | 0 <= i < |events| :: Steps(states[i], events[i], states[i + 1]) && Harmless(states[i], events[i]))
    && !(states[|events|].bibs <= states[|events|].sessions)
  }

  lemma {:induction false} PathsStayProtected(t: State, states: seq<State>, events: seq<Event>, i: nat)
    requires LockInv(t) && Protected(t) && |states| == |events| + 1 && states[0] == t && i < |states|
    requires forall j | 0 <= j < |events| :: Steps(states[j], events[j], states[j + 1]) && Harmless(states[j], events[j])
    ensures LockInv(states[i]) && Protected(states[i])
  {
    if i > 0 {
      PathsStayProtected(t, states, events, i - 1);
      assert Steps(states[i - 1], events[i - 1], states[i - 1 + 1]);
      StepKeepsLock(states[i - 1], events[i - 1]);
      StepKeepsProtected(states[i - 1], events[i - 1]);
    }
  }

  /** The continuation after the session of an attach in flight is gone: the attach goes on to register its bridge. */
  lemma AttachInFlightLeaks(t: State, c: nat)
    requires LockInv(t) && c in t.calls && MidAttach(t.calls[c]) && t.calls[c].sessionId !in t.sessions
    ensures Leaks(t)
  {
    var u := Do(t, Resume(c, true));
    if t.calls[c].phase.Attaching? {
      assert LeakingPath(t, [t, u], [Resume(c, true)]);
    } else {
      StepKeepsLock(t, Resume(c, true));
      var v := Do(u, Resume(c, true));
      assert LeakingPath(t, [t, u, v], [Resume(c, true), Resume(c, true)]);
    }
  }

  /**
   * After losing a session, some continuation free of further harmful losses ends with a bridge on a closed
   * session if and only if an attach is in flight on the lost session or, for a reclaim, its bridge is still there.
   */
  lemma LossLeaksExactly(s: State, e: Event)
    requires LockInv(s) && Protected(s) && (e.ProcessExit? || e.GhostReclaim?)
    ensures Leaks(Do(s, e)) <==> !Harmless(s, e)
  {
    var t := Do(s, e);
    StepKeepsLock(s, e);
    if Harmless(s, e) {
      StepKeepsProtected(s, e);
      if states, events :| LeakingPath(t, states, events) {
        PathsStayProtected(t, states, events, |events|);
      }
    } else if c :| c in s.calls && MidAttach(s.calls[c]) && s.calls[c].sessionId == e.sessionId {
      AttachInFlightLeaks(t, c);
    } else {
      assert LeakingPath(t, [t], []);
    }
  }

  // ---------------------------------------------------------------- what the bodies achieve

  /**
   * What each step does to the two maps: an attach or close that starts takes the old bridge away, unless it gives
   * up at once; an attach that succeeds registers its bridge; a slot that shut down takes its session away.
   */
  lemma StepOnMaps(s: State, e: Event)
    requires Chained(s) && Enabled(s, e)
    ensures var t := Do(s, e);
            match e
            case Enter(c) =>
              var id := s.calls[c].sessionId;
              var givesUp := id !in s.sessions || s.calls[c].kind == Attach(false);
              && t.sessions == s.sessions && t.bibs == (if givesUp then s.bibs else s.bibs - {id})
              && (t.calls[c].phase == Done <==> givesUp)
            case Resume(c, ok) =>
              var id := s.calls[c].sessionId;
              && t.bibs == (if s.calls[c].phase == Attaching && ok then s.bibs + {id} else s.bibs)
              && t.sessions == (if s.calls[c].phase == ClosingSlot && ok then s.sessions - {id} else s.sessions)
            case OpenSession(id) => t.sessions == s.sessions + {id} && t.bibs == s.bibs
            case DetachBib(id) => t.sessions == s.sessions && t.bibs == s.bibs - {id}
            case ProcessExit(id) => t.sessions == s.sessions - {id} && t.bibs == s.bibs - {id}
            case GhostReclaim(id) => t.sessions == s.sessions - {id} && t.bibs == s.bibs
            case Arrive(_, _) => t.sessions == s.sessions && t.bibs == s.bibs
  {
  }

  /** In which order a body goes through its phases; each stretch moves its own call and no other. */
  lemma StepOnPhases(s: State, c: nat, ok: bool)
    requires LockInv(s) && c in s.calls && Running(s.calls[c])
    ensures var t := Do(s, Resume(c, ok));
            && t.calls == s.calls[c := s.calls[c].(phase := t.calls[c].phase)]
            && t.calls[c].phase == match s.calls[c].phase
                                   case DetachingOld => Attaching
                                   case Attaching => if ok then Listing else Aborting
                                   case ClosingBridge => ClosingSlot
                                   case _ => Done
  {
  }

  /** The session a step may open. */
  predicate Opens(e: Event, id: string) {
    e == OpenSession(id)
  }

  /** A session that is not open stays so until it is opened. */
  lemma {:induction false} ClosedStaysClosed(states: seq<State>, events: seq<Event>, i: nat, j: nat, id: string)
    requires IsRun(states, events) && i <= j < |states| && id !in states[i].sessions
    requires forall k | i <= k < j :: !Opens(events[k], id)
    ensures id !in states[j].sessions
  {
    if i < j {
      ClosedStaysClosed(states, events, i, j - 1, id);
      assert Steps(states[j - 1], events[j - 1], states[j - 1 + 1]);
      assert !Opens(events[j - 1], id);
      StepOnMaps(states[j - 1], events[j - 1]);
    }
  }

  /** Meanwhile an attach or close of it gives up at its first check and touches no bridge. */
  lemma ClosedRefusesBodies(states: seq<State>, events: seq<Event>, i: nat, j: nat, c: nat)
    requires IsRun(states, events) && i <= j < |events| && events[j] == Enter(c) && c in states[j].calls
    requires states[j].calls[c].sessionId !in states[i].sessions
    requires forall k | i <= k < j :: !Opens(events[k], states[j].calls[c].sessionId)
    ensures c in states[j + 1].calls && states[j + 1].calls[c].phase == Done
    ensures states[j + 1].bibs == states[j].bibs && states[j + 1].sessions == states[j].sessions
  {
    ClosedStaysClosed(states, events, i, j, states[j].calls[c].sessionId);
    assert Steps(states[j], events[j], states[j + 1]);
    StepOnMaps(states[j], events[j]);
  }

  /**
   * A close whose slot has shut down ends with its session gone, and it stays gone until it is opened again; without
   * a harmful exit or reclaim it has no bridge all that time.
   */
  lemma CloseIsFinal(states: seq<State>, events: seq<Event>, i: nat, j: nat, c: nat)
    requires IsRun(states, events) && i < j < |states| && events[i] == Resume(c, true)
    requires c in states[i].calls && states[i].calls[c].phase == ClosingSlot
    requires forall k | i < k < j :: !Opens(events[k], states[i].calls[c].sessionId)
    ensures c in states[i + 1].calls && states[i + 1].calls[c].phase == Done
    ensures states[i].calls[c].sessionId !in states[j].sessions
    ensures (forall k | 0 <= k < |events| :: Harmless(states[k], events[k])) ==> states[i].calls[c].sessionId !in states[j].bibs
  {
    assert Steps(states[i], events[i], states[i + 1]);
    StepOnMaps(states[i], events[i]);
    ClosedStaysClosed(states, events, i + 1, j, states[i].calls[c].sessionId);
    if forall k | 0 <= k < |events| :: Harmless(states[k], events[k]) { RunsStayProtected(states, events, j); }
  }

  /** Whether a call runs without a bridge of its session: every running call but an attach that has registered one. */
  predicate Bare(call: Call) {
    Running(call) && call.phase != Listing
  }

  ghost predicate BareCalls(s: State) {
    forall c <- s.calls :: Bare(s.calls[c]) ==> s.calls[c].sessionId !in s.bibs
  }

  lemma StepKeepsBare(s: State, e: Event)
    requires LockInv(s) && BareCalls(s) && Enabled(s, e)
    ensures BareCalls(Do(s, e))
  {
    match e
    case Enter(c) => OthersElsewhere(s, c);
    case Resume(c, ok) => OthersElsewhere(s, c);
    case _ =>
  }

  /** In every run a session has no second bridge: until an attach registers its own, and while a close runs, none is left. */
  lemma {:induction false} OldBridgeIsGone(states: seq<State>, events: seq<Event>, i: nat)
    requires IsRun(states, events) && i < |states|
    ensures BareCalls(states[i])
  {
    if i > 0 {
      OldBridgeIsGone(states, events, i - 1);
      RunsKeepLock(states, events, i - 1);
      assert Steps(states[i - 1], events[i - 1], states[i - 1 + 1]);
      StepKeepsBare(states[i - 1], events[i - 1]);
    }
  }

  // A run from the start in which a harmful exit leaks a bridge: open, attach, exit, and the attach settles.

  function LeakingEvent(id: string, i: int): Event {
    match i
    case 0 => OpenSession(id)
    case 1 => Arrive(id, Attach(true))
    case 2 => Enter(0)
    case 3 => ProcessExit(id)
    case _ => Resume(0, true)
  }

  function LeakingState(id: string, i: int): State {
    match i
    case 0 => Start
    case 1 => State(map[], map[], 0, {id}, {})
    case 2 => State(map[id := 0], map[0 := Call(id, Attach(true), None, Waiting)], 1, {id}, {})
    case 3 => State(map[id := 0], map[0 := Call(id, Attach(true), None, Attaching)], 1, {id}, {})
    case 4 => State(map[id := 0], map[0 := Call(id, Attach(true), None, Attaching)], 1, {}, {})
    case _ => State(map[id := 0], map[0 := Call(id, Attach(true), None, Listing)], 1, {}, {id})
  }

  lemma LeakingStep(id: string, i: int)
    requires 0 <= i < 5
    ensures Steps(LeakingState(id, i), LeakingEvent(id, i), LeakingState(id, i + 1))
  {
  }

  /** Five steps, one exit during an attach: a bridge is registered on a session that is gone. */
  lemma ExitDuringAttachLeaksBridge(id: string) returns (states: seq<State>, events: seq<Event>)
    ensures IsRun(states, events) && |events| == 5
    ensures id in states[5].bibs && id !in states[5].sessions
  {
    states, events := seq(6, i => LeakingState(id, i)), seq(5, i => LeakingEvent(id, i));
    forall i | 0 <= i < 5 ensures Steps(states[i], events[i], states[i + 1]) { LeakingStep(id, i); }
  }
}
