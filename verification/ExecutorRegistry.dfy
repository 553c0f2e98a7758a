/** The registry module's state and the handlers that update it in place, each tied to its function in `Registry`. */
module ExecutorRegistries {
  import opened Options
  import opened Registry

  class ExecutorRegistry {
    var nodes: map<string, nat>
    var entries: map<nat, Entry>
    var timers: map<nat, Timer>
    var conns: map<nat, Conn>
    var nextEntry: nat
    var nextTimer: nat
    ghost var lastAttached: map<string, nat>
    ghost var late: set<string>
    ghost var reported: map<nat, string>

    constructor ()
      ensures Value() == Start && Inv(Value())
    {
      nodes, entries, timers, conns, nextEntry, nextTimer := map[], map[], map[], map[], 0, 0;
      lastAttached, late, reported := map[], {}, map[];
    }

    ghost function Value(): State
      reads this
    {
      State(nodes, entries, timers, conns, nextEntry, nextTimer, lastAttached, late, reported)
    }

    method ClearTimeout(t: Option<nat>)
      modifies `timers
      ensures timers == Cancel(old(timers), t)
    {
      if t.Some? { timers := timers - {t.value}; }
    }

    method CloseSocket(c: nat)
      modifies `conns
      ensures conns == StartClosing(old(conns), c)
    {
      if c in conns && conns[c].ready.Open? { conns := conns[c := conns[c].(ready := Closing)]; }
    }

    method AttachConnection(nodeUuid: string, c: nat, nodeId: int, pid: Option<int>) returns (attached: bool)
      requires Inv(Value()) && c in conns
      modifies this
      ensures Value() == Attach(old(Value()), nodeUuid, c, nodeId, pid) && Inv(Value())
      ensures attached <==> !ServedElsewhere(old(Value()), nodeUuid, c, pid)
      ensures attached ==> EntryOf(Value(), nodeUuid) == Some(Entry(Some(c), nodeId, pid, None))
      ensures !attached ==> nodes == old(nodes) && entries == old(entries) && timers == old(timers) && conns[c].ready != Open
    {
      DuplicateMeans(Value(), nodeUuid, c, pid);
      AttachKeeps(Value(), nodeUuid, c, nodeId, pid);
      assert NodeOk(Value(), nodeUuid);
      attached := AcceptOrReject(nodeUuid, c, nodeId, pid);
    }

    method AcceptOrReject(nodeUuid: string, c: nat, nodeId: int, pid: Option<int>) returns (attached: bool)
      requires NodeOk(Value(), nodeUuid) && c in conns
      modifies this
      ensures Value() == Attach(old(Value()), nodeUuid, c, nodeId, pid)
      ensures attached <==> !Duplicate(old(Value()), nodeUuid, c, pid)
    {
      var duplicate := IsDuplicate(nodeUuid, c, pid);
      if duplicate {
        CloseSocket(c);
        return false;
      }
      late := if conns[c].ready.Closed? then late + {nodeUuid} else late - {nodeUuid};
      ReleasePrior(nodeUuid, c);
      lastAttached := lastAttached[nodeUuid := c];
      Install(nodeUuid, c, nodeId, pid);
      return true;
    }

    /** Stores a fresh entry for the connection. */
    method Install(nodeUuid: string, c: nat, nodeId: int, pid: Option<int>)
      requires c in conns
      modifies `nodes, `entries, `nextEntry, `conns
      ensures nodes == old(nodes)[nodeUuid := old(nextEntry)] && nextEntry == old(nextEntry) + 1
      ensures entries == old(entries)[old(nextEntry) := Entry(Some(c), nodeId, pid, None)]
      ensures conns == old(conns)[c := old(conns)[c].(nodeUuid := Some(nodeUuid), nodeId := nodeId)]
    {
      nodes := nodes[nodeUuid := nextEntry];
      entries := entries[nextEntry := Entry(Some(c), nodeId, pid, None)];
      nextEntry := nextEntry + 1;
      conns := conns[c := conns[c].(nodeUuid := Some(nodeUuid), nodeId := nodeId)];
    }

    method IsDuplicate(nodeUuid: string, c: nat, pid: Option<int>) returns (duplicate: bool)
      requires NodeOk(Value(), nodeUuid)
      ensures duplicate <==> Duplicate(Value(), nodeUuid, c, pid)
    {
      if nodeUuid !in nodes { return false; }
      var existing := entries[nodes[nodeUuid]];
      if existing.ws.None? || existing.ws.value == c { return false; }
      var live := existing.ws.value in conns && conns[existing.ws.value].ready.Open?;
      return live && existing.pid.Some? && pid.Some? && pid != existing.pid;
    }

    /** Cancels the grace timer and closes the socket of the entry about to be replaced. */
    method ReleasePrior(nodeUuid: string, c: nat)
      requires NodeOk(Value(), nodeUuid)
      modifies `timers, `conns
      ensures timers == Cancel(old(timers), TimerOf(EntryOf(old(Value()), nodeUuid)))
      ensures conns == CloseOther(old(conns), EntryOf(old(Value()), nodeUuid), c)
    {
      if nodeUuid in nodes {
        var existing := entries[nodes[nodeUuid]];
        ClearTimeout(existing.graceTimer);
        if existing.ws.Some? && existing.ws.value != c { CloseSocket(existing.ws.value); }
      }
    }

    method Detach(nodeUuid: string, immediate: bool)
      requires Sound(Value())
      modifies this
      ensures Value() == if immediate then DetachNow(old(Value()), nodeUuid) else DetachWithGrace(old(Value()), nodeUuid)
    {
      assert NodeOk(Value(), nodeUuid);
      if nodeUuid !in nodes { return; }
      var ref := nodes[nodeUuid];
      var entry := entries[ref];
      ClearTimeout(entry.graceTimer);
      if immediate {
        nodes := nodes - {nodeUuid};
        return;
      }
      entries := entries[ref := entry.(ws := None, graceTimer := Some(nextTimer))];
      timers := timers[nextTimer := Timer(nodeUuid, ref)];
      nextTimer := nextTimer + 1;
    }

    /** The `close` handler of a connection. */
    method OnClose(c: nat)
      requires Inv(Value()) && c in conns && !conns[c].ready.Closed?
      modifies this
      ensures Value() == SocketClosed(old(Value()), c) && Inv(Value())
      ensures forall n | n in lastAttached && lastAttached[n] != c && IsOpen(Value(), lastAttached[n]) ::
                EntryOf(Value(), n).Some? && EntryOf(Value(), n).value.ws == Some(lastAttached[n])
    {
      SocketClosedKeeps(Value(), c);
      MarkClosedKeepsSound(Value(), c);
      ghost var t := SocketClosed(Value(), c);
      forall n | n in t.lastAttached && IsOpen(t, t.lastAttached[n])
        ensures EntryOf(t, n).Some? && EntryOf(t, n).value.ws == Some(t.lastAttached[n]) { assert NodeOk(t, n); }
      var conn := conns[c];
      conns := conns[c := conn.(ready := Closed)];
      if conn.nodeUuid.Some? && conn.nodeUuid.value != "" && conn.nodeId != 0 {
        var n := conn.nodeUuid.value;
        reported := reported[c := n];
        assert NodeOk(Value(), n);
        if n in nodes && entries[nodes[n]].ws.Some? && entries[nodes[n]].ws.value != c { return; }
        Detach(n, false);
      }
    }

    /** The callback of a grace timer. */
    method OnGraceTimer(t: nat) returns (expired: bool)
      requires Inv(Value()) && t in timers
      modifies this
      ensures t in old(timers) && old(timers)[t].entry in old(entries) && Value() == Fire(old(Value()), t) && Inv(Value())
      ensures expired && old(timers)[t].nodeUuid !in nodes
    {
      FireKeeps(Value(), t);
      assert TimerCarried(Value(), t) && TimerCurrent(Value(), t);
      var timer := timers[t];
      timers := timers - {t};
      if timer.nodeUuid in nodes && entries[nodes[timer.nodeUuid]].graceTimer == entries[timer.entry].graceTimer {
        nodes := nodes - {timer.nodeUuid};
        return true;
      }
      return false;
    }
  }
}
