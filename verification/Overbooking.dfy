/**
 * What a purge that hits an open in flight leads to: exactly then some later interleaving, free of further purges,
 * takes the purged node over its capacity.
 */
module Overbooking {
  import opened Options
  import opened SlotLeases
  import opened OpenSession
  import NodePicking

  ghost predicate QuietPath(states: seq<State>, events: seq<Event>, capacity: string -> nat) {
    && |states| == |events| + 1
    && forall i | 0 <= i < |events| :: Steps(states[i], events[i], states[i + 1], capacity) && !events[i].PurgeNode?
  }

  /** `t` can follow `s` without a purge. */
  ghost predicate Leads(s: State, t: State, capacity: string -> nat) {
    exists states, events :: QuietPath(states, events, capacity) && states[0] == s && states[|events|] == t
  }

  ghost predicate CanExceed(s: State, n: string, capacity: string -> nat) {
    exists t :: Leads(s, t, capacity) && InUse(t, n) > capacity(n)
  }

  lemma LeadsToItself(s: State, capacity: string -> nat)
    ensures Leads(s, s, capacity)
  {
    assert QuietPath([s], [], capacity);
  }

  lemma OneMoreStep(s: State, t: State, e: Event, u: State, capacity: string -> nat)
    requires Leads(s, t, capacity) && Steps(t, e, u, capacity) && !e.PurgeNode?
    ensures Leads(s, u, capacity)
  {
    var states, events :| QuietPath(states, events, capacity) && states[0] == s && states[|events|] == t;
    var more, es := states + [u], events + [e];
    forall i | 0 <= i < |es| ensures Steps(more[i], es[i], more[i + 1], capacity) && !es[i].PurgeNode? {
      if i < |events| { assert Steps(states[i], events[i], states[i + 1], capacity); }
    }
    assert QuietPath(more, es, capacity) && more[|es|] == u;
  }

  lemma {:induction false} PathsKeepInv(states: seq<State>, events: seq<Event>, capacity: string -> nat, i: nat)
    requires QuietPath(states, events, capacity) && Inv(states[0], capacity) && i < |states|
    ensures Inv(states[i], capacity)
  {
    if i > 0 {
      PathsKeepInv(states, events, capacity, i - 1);
      assert Steps(states[i - 1], events[i - 1], states[i - 1 + 1], capacity);
      StepKeepsInv(states[i - 1], events[i - 1], capacity);
    }
  }

  // ---------------------------------------------------------------- fresh names

  lemma LongerThanAll(keys: set<string>) returns (bound: nat)
    ensures forall k <- keys :: |k| <= bound
  {
    bound := 0;
    if keys != {} {
      var k :| k in keys;
      bound := LongerThanAll(keys - {k});
      if |k| > bound { bound := |k|; }
    }
  }

  lemma FreshText(keys: set<string>) returns (text: string)
    ensures text !in keys
  {
    var bound := LongerThanAll(keys);
    text := seq(bound + 1, _ => 'a');
  }

  lemma FreshOp(ops: set<nat>) returns (op: nat)
    ensures forall o <- ops :: o < op
  {
    op := 0;
    if ops != {} {
      var o :| o in ops;
      var rest := FreshOp(ops - {o});
      op := if o < rest then rest else o + 1;
      forall k | k in ops ensures k < op {
        if k != o { assert k in ops - {o}; }
      }
    }
  }

  lemma LongIndex(length: nat) returns (i: nat)
    ensures i > 0 && |Digits(i)| > length
  {
    if length == 0 {
      i := 1;
    } else {
      var j := LongIndex(length - 1);
      i := j * 10;
      assert i / 10 == j;
    }
  }

  lemma FreshSlot(ix: Index, n: string) returns (slotIndex: int)
    ensures SlotKey(n, slotIndex) !in ix.bySlotKey
  {
    var bound := LongerThanAll(ix.bySlotKey.Keys);
    slotIndex := LongIndex(bound);
    assert |SlotKey(n, slotIndex)| > bound;
  }

  // ---------------------------------------------------------------- emptying the mutex

  const Nothing := NodePicking.View(map[], [], map[], {}, n => 0)

  /** The head of the mutex queue fails its pick, or reserves and gives up. */
  lemma HeadLeaves(s0: State, s: State, capacity: string -> nat) returns (t: State)
    requires Leads(s0, s, capacity) && MutexOrderly(s) && s.mutex != []
    ensures Leads(s0, t, capacity) && MutexOrderly(t) && t.mutex == s.mutex[1..] && t.ix == s.ix
    ensures t.opens.Keys == s.opens.Keys && forall o <- s.opens :: o != s.mutex[0] ==> t.opens[o] == s.opens[o]
    ensures forall n :: PendingOf(t.pending, n) == PendingOf(s.pending, n)
  {
    var op := s.mutex[0];
    if s.opens[op].phase.Queued? {
      assert SeesState(Nothing, s, capacity);
      t := Do(s, Pick(op, Nothing), capacity);
      StepKeepsMutex(s, Pick(op, Nothing), capacity);
      OneMoreStep(s0, s, Pick(op, Nothing), t, capacity);
    } else {
      var u := Do(s, Reserve(op), capacity);
      StepKeepsMutex(s, Reserve(op), capacity);
      OneMoreStep(s0, s, Reserve(op), u, capacity);
      t := Do(u, Fail(op), capacity);
      StepKeepsMutex(u, Fail(op), capacity);
      OneMoreStep(s0, u, Fail(op), t, capacity);
    }
  }

  lemma Drain(s0: State, s: State, capacity: string -> nat, w: nat) returns (t: State)
    requires Leads(s0, s, capacity) && MutexOrderly(s) && w in s.opens && w !in s.mutex
    ensures Leads(s0, t, capacity) && t.mutex == [] && t.ix == s.ix && w in t.opens && t.opens[w] == s.opens[w]
    ensures forall n :: PendingOf(t.pending, n) == PendingOf(s.pending, n)
    decreases |s.mutex|
  {
    t := s;
    if s.mutex != [] {
      var u := HeadLeaves(s0, s, capacity);
      t := Drain(s0, u, capacity, w);
    }
  }

  // ---------------------------------------------------------------- filling the node

  /** A new open named `sessionId` that waits on `n`. */
  function Newcomer(n: string, sessionId: string): Open {
    Open(sessionId, None, NodePicking.Request(Some(n), false), Waiting(n))
  }

  function WithNewcomer(s: State, n: string, x: nat, sessionId: string): State {
    s.(pending := Reserved(s.pending, n), opens := s.opens[x := Newcomer(n, sessionId)])
  }

  /** A node with room takes one more open. */
  lemma OpenArrives(s0: State, s: State, capacity: string -> nat, n: string, x: nat, sessionId: string)
    requires Leads(s0, s, capacity) && s.mutex == [] && x !in s.opens && InUse(s, n) < capacity(n)
    ensures Leads(s0, WithNewcomer(s, n, x, sessionId), capacity)
  {
    var request := NodePicking.Request(Some(n), false);
    var e1 := Call(x, sessionId, None, request);
    var s1 := Do(s, e1, capacity);
    OneMoreStep(s0, s, e1, s1, capacity);
    var view := NodePicking.View(
      map[n := NodePicking.NodeRow(capacity(n), NodePicking.Online)], [n], map[n := InUse(s, n)], {}, m => 0);
    assert SeesState(view, s1, capacity);
    var s2 := Do(s1, Pick(x, view), capacity);
    assert s2.opens[x].phase == Picked(n);
    OneMoreStep(s0, s1, Pick(x, view), s2, capacity);
    var s3 := Do(s2, Reserve(x), capacity);
    OneMoreStep(s0, s2, Reserve(x), s3, capacity);
    assert s3 == WithNewcomer(s, n, x, sessionId);
  }

  /** A lease that clashes with nothing is simply added. */
  lemma ConfirmAdds(ix: Index, l: Lease)
    requires l.sessionId !in ix.bySessionId && l.trajectoryId.None? && KeyOf(l) !in ix.bySlotKey
    ensures HardCount(Confirm(ix, l), l.nodeUuid) == HardCount(ix, l.nodeUuid) + 1
    ensures Confirm(ix, l).bySessionId == ix.bySessionId[l.sessionId := l]
  {
    assert Confirm(ix, l) == Insert(ix, l);
    assert SlotKeysOn(Confirm(ix, l), l.nodeUuid) == SlotKeysOn(ix, l.nodeUuid) + {KeyOf(l)};
  }

  /** A waiting newcomer gets a slot of its own. */
  lemma NewcomerReady(s0: State, s: State, capacity: string -> nat, n: string, x: nat, sessionId: string) returns (t: State)
    requires Leads(s0, s, capacity) && x in s.opens && s.opens[x] == Newcomer(n, sessionId)
    requires sessionId !in s.ix.bySessionId
    ensures Leads(s0, t, capacity) && t.mutex == s.mutex && t.pending == Unreserved(s.pending, n)
    ensures HardCount(t.ix, n) == HardCount(s.ix, n) + 1
    ensures t.ix.bySessionId.Keys == s.ix.bySessionId.Keys + {sessionId}
    ensures t.opens.Keys == s.opens.Keys && forall o <- s.opens :: o != x ==> t.opens[o] == s.opens[o]
  {
    var slotIndex := FreshSlot(s.ix, n);
    t := Do(s, Ready(x, slotIndex), capacity);
    ConfirmAdds(s.ix, Lease(None, sessionId, n, slotIndex));
    OneMoreStep(s0, s, Ready(x, slotIndex), t, capacity);
  }

  /** Opens arrive and are confirmed until the node is full; `x` keeps waiting and its session id stays unused. */
  lemma FillUp(s0: State, s: State, capacity: string -> nat, n: string, x: nat) returns (t: State)
    requires Leads(s0, s, capacity) && s.mutex == [] && PendingOf(s.pending, n) == 0
    requires HardCount(s.ix, n) <= capacity(n)
    requires x in s.opens && s.opens[x].sessionId !in s.ix.bySessionId
    ensures Leads(s0, t, capacity) && PendingOf(t.pending, n) == 0 && HardCount(t.ix, n) == capacity(n)
    ensures x in t.opens && t.opens[x] == s.opens[x] && t.opens[x].sessionId !in t.ix.bySessionId
    decreases capacity(n) - HardCount(s.ix, n)
  {
    t := s;
    if HardCount(s.ix, n) < capacity(n) {
      var y := FreshOp(s.opens.Keys);
      var sessionId := FreshText(s.ix.bySessionId.Keys + {s.opens[x].sessionId});
      OpenArrives(s0, s, capacity, n, y, sessionId);
      var u := NewcomerReady(s0, WithNewcomer(s, n, y, sessionId), capacity, n, y, sessionId);
      t := FillUp(s0, u, capacity, n, x);
    }
  }

  // ---------------------------------------------------------------- the result

  /** With a waiter whose reservation is gone and an empty mutex, the node can be taken over its capacity. */
  lemma LostReservationOverbooks(s0: State, s: State, capacity: string -> nat, n: string, w: nat)
    requires Leads(s0, s, capacity) && s.mutex == [] && PendingOf(s.pending, n) == 0
    requires HardCount(s.ix, n) < capacity(n) && w in s.opens && s.opens[w].phase == Waiting(n)
    ensures CanExceed(s0, n, capacity)
  {
    var x := FreshOp(s.opens.Keys);
    var sessionId := FreshText(s.ix.bySessionId.Keys);
    OpenArrives(s0, s, capacity, n, x, sessionId);
    var u := WithNewcomer(s, n, x, sessionId);
    var v := Do(u, Fail(w), capacity);
    OneMoreStep(s0, u, Fail(w), v, capacity);
    var full := FillUp(s0, v, capacity, n, x);
    var over := NewcomerReady(s0, full, capacity, n, x, sessionId);
    assert InUse(over, n) > capacity(n);
  }

  /** A purge costs a waiter its reservation, and leaves room on the node. */
  lemma PurgedState(s: State, n: string, dropped: seq<string>, capacity: string -> nat)
    requires Inv(s, capacity) && Waiters(s, n) != {}
    ensures var t := Do(s, PurgeNode(n, dropped), capacity);
            MutexOrderly(t) && PendingOf(t.pending, n) == 0 && HardCount(t.ix, n) < capacity(n)
  {
    StepKeepsMutex(s, PurgeNode(n, dropped), capacity);
    ReleaseAllShrinks(s.ix, dropped);
    SubIndexCounts(ReleaseAll(s.ix, dropped), s.ix, n);
    assert InUse(s, n) <= capacity(n) && PendingOf(s.pending, n) == |Waiters(s, n)|;
  }

  /**
   * A purge lets some later interleaving without purges take the node over its capacity if and only if an open
   * was waiting there.
   */
  lemma PurgeOverbooksExactly(s: State, n: string, dropped: seq<string>, capacity: string -> nat)
    requires Inv(s, capacity)
    ensures CanExceed(Do(s, PurgeNode(n, dropped), capacity), n, capacity) <==> Waiters(s, n) != {}
  {
    var e := PurgeNode(n, dropped);
    var t := Do(s, e, capacity);
    if Waiters(s, n) != {} {
      var w :| w in Waiters(s, n);
      PurgedState(s, n, dropped, capacity);
      LeadsToItself(t, capacity);
      var u := Drain(t, t, capacity, w);
      LostReservationOverbooks(t, u, capacity, n, w);
    } else {
      StepKeepsInv(s, e, capacity);
      forall u | Leads(t, u, capacity) ensures InUse(u, n) <= capacity(n) {
        var states, events :| QuietPath(states, events, capacity) && states[0] == t && states[|events|] == u;
        PathsKeepInv(states, events, capacity, |events|);
      }
    }
  }
}
