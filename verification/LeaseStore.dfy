/** The lease module's state: the maps of `src/executor-slot-lease.js` and the functions that update them in place. */
module LeaseStores {
  import opened Options
  import opened SlotLeases

  class LeaseStore {
    var bySlotKey: map<string, Lease>
    var bySessionId: map<string, Lease>
    var byTrajectoryId: map<int, Lease>
    var pendingByNode: map<string, nat>

    constructor ()
      ensures Ix() == EmptyIndex && pendingByNode == map[]
      ensures Coherent(Ix())
    {
      bySlotKey, bySessionId, byTrajectoryId, pendingByNode := map[], map[], map[], map[];
    }

    function Ix(): Index
      reads this
    {
      Index(bySlotKey, bySessionId, byTrajectoryId)
    }

    method CountHardLeases(nodeUuid: string) returns (n: nat)
      ensures n == HardCount(Ix(), nodeUuid)
      ensures Coherent(Ix()) ==> n == |set l <- Leases(Ix()) | l.nodeUuid == nodeUuid|
    {
      if Coherent(Ix()) { CountIsLeases(Ix(), nodeUuid); }
      n := 0;
      var todo := bySlotKey.Keys;
      ghost var counted: set<string> := {};
      while todo != {}
        invariant todo <= bySlotKey.Keys
        invariant counted == SlotKeysOn(Ix(), nodeUuid) - todo && n == |counted|
      {
        var k :| k in todo;
        if bySlotKey[k].nodeUuid == nodeUuid {
          n, counted := n + 1, counted + {k};
        }
        todo := todo - {k};
      }
    }

    method CountInUse(nodeUuid: string) returns (n: nat)
      ensures n == HardCount(Ix(), nodeUuid) + PendingOf(pendingByNode, nodeUuid)
      ensures Coherent(Ix()) ==>
                n == |set l <- Leases(Ix()) | l.nodeUuid == nodeUuid|
                     + if nodeUuid in pendingByNode then pendingByNode[nodeUuid] else 0
    {
      n := CountHardLeases(nodeUuid);
      n := n + if nodeUuid in pendingByNode then pendingByNode[nodeUuid] else 0;
    }

    method ReservePending(nodeUuid: string)
      modifies `pendingByNode
      ensures pendingByNode == Reserved(old(pendingByNode), nodeUuid)
      ensures PendingOf(pendingByNode, nodeUuid) == PendingOf(old(pendingByNode), nodeUuid) + 1
    {
      var cur := if nodeUuid in pendingByNode then pendingByNode[nodeUuid] else 0;
      pendingByNode := pendingByNode[nodeUuid := cur + 1];
    }

    method ReleasePending(nodeUuid: string)
      modifies `pendingByNode
      ensures pendingByNode == Unreserved(old(pendingByNode), nodeUuid)
      ensures PendingOf(old(pendingByNode), nodeUuid) > 0
              ==> PendingOf(pendingByNode, nodeUuid) == PendingOf(old(pendingByNode), nodeUuid) - 1
    {
      var cur := if nodeUuid in pendingByNode then pendingByNode[nodeUuid] else 0;
      if cur <= 1 {
        pendingByNode := pendingByNode - {nodeUuid};
      } else {
        pendingByNode := pendingByNode[nodeUuid := cur - 1];
      }
    }

    method ReleaseBySession(sessionId: string) returns (released: bool)
      modifies `bySlotKey, `bySessionId, `byTrajectoryId
      ensures Ix() == ReleaseSession(old(Ix()), sessionId)
      ensures released <==> sessionId != "" && sessionId in old(bySessionId)
      ensures Coherent(old(Ix())) && sessionId != ""
              ==> Coherent(Ix()) && Leases(Ix()) == WithoutSession(old(Leases(Ix())), sessionId)
    {
      ghost var was := Ix();
      if Coherent(was) { ReleaseSessionRefines(was, sessionId); }
      if sessionId == "" || sessionId !in bySessionId {
        return false;
      }
      var lease := bySessionId[sessionId];
      bySessionId := bySessionId - {sessionId};
      bySlotKey := bySlotKey - {KeyOf(lease)};
      if lease.trajectoryId.Some? {
        var t := lease.trajectoryId.value;
        if t in byTrajectoryId && byTrajectoryId[t].sessionId == sessionId {
          byTrajectoryId := byTrajectoryId - {t};
        }
      }
      return true;
    }

    method ReleaseByTrajectory(trajectoryId: Option<int>) returns (released: bool)
      modifies `bySlotKey, `bySessionId, `byTrajectoryId
      ensures Ix() == ReleaseTrajectory(old(Ix()), trajectoryId)
      ensures released <==> trajectoryId.Some? && trajectoryId.value in old(byTrajectoryId)
                            && var sessionId := old(byTrajectoryId)[trajectoryId.value].sessionId;
                               sessionId != "" && sessionId in old(bySessionId)
    {
      if trajectoryId.None? || trajectoryId.value !in byTrajectoryId {
        return false;
      }
      released := ReleaseBySession(byTrajectoryId[trajectoryId.value].sessionId);
    }

    method ConfirmLease(sessionId: string, nodeUuid: string, slotIndex: int, trajectoryId: Option<int>) returns (lease: Lease)
      modifies `bySlotKey, `bySessionId, `byTrajectoryId
      ensures lease == Lease(trajectoryId, sessionId, nodeUuid, slotIndex)
      ensures Ix() == Confirm(old(Ix()), lease)
      ensures Coherent(old(Ix())) && Confirmable(old(Ix()), lease)
              ==> Coherent(Ix()) && Leases(Ix()) == Replace(old(Leases(Ix())), lease)
    {
      lease := Lease(trajectoryId, sessionId, nodeUuid, slotIndex);
      ghost var was := Ix();
      if Coherent(was) { ConfirmRefinesExactly(was, lease); }
      var _ := ReleaseBySession(sessionId);
      if trajectoryId.Some? {
        var _ := ReleaseByTrajectory(trajectoryId);
      }
      var key := SlotKey(nodeUuid, slotIndex);
      if key in bySlotKey && bySlotKey[key].sessionId != sessionId {
        var _ := ReleaseBySession(bySlotKey[key].sessionId);
      }
      bySlotKey := bySlotKey[key := lease];
      bySessionId := bySessionId[sessionId := lease];
      if trajectoryId.Some? {
        byTrajectoryId := byTrajectoryId[trajectoryId.value := lease];
      }
    }

    /** The loop of a batch release over a snapshot of leases. */
    method ReleaseSnapshot(leases: set<Lease>)
      requires leases <= Leases(Ix())
      modifies `bySlotKey, `bySessionId, `byTrajectoryId
      ensures Coherent(old(Ix())) ==>
                Coherent(Ix()) && Leases(Ix()) == set x <- old(Leases(Ix())) | x !in leases || x.sessionId == ""
    {
      var todo := leases;
      ghost var released: seq<string> := [];
      while todo != {}
        invariant todo <= leases
        invariant Ix() == ReleaseAll(old(Ix()), released)
        invariant SessionsOf(released, leases - todo)
        decreases todo
      {
        var lease :| lease in todo;
        OneMoreReleased(old(Ix()), released, leases - todo, lease);
        assert leases - todo + {lease} == leases - (todo - {lease});
        var _ := ReleaseBySession(lease.sessionId);
        released := released + [lease.sessionId];
        todo := todo - {lease};
      }
      assert leases - todo == leases;
      if Coherent(old(Ix())) { ReleaseListed(old(Ix()), leases, released); }
    }

    /**
     * `releaseByNode`: drops a node's leases and its reservations; other nodes keep both. A lease without a
     * session id is counted but stays.
     */
    method ReleaseByNode(nodeUuid: string) returns (count: nat)
      modifies this
      ensures nodeUuid == "" ==> Ix() == old(Ix()) && pendingByNode == old(pendingByNode) && count == 0
      ensures nodeUuid != "" ==>
                && pendingByNode == old(pendingByNode) - {nodeUuid}
                && count == |set x <- old(Leases(Ix())) | x.nodeUuid == nodeUuid|
      ensures nodeUuid != "" && Coherent(old(Ix())) ==>
                Coherent(Ix()) && Leases(Ix()) == set x <- old(Leases(Ix())) | x.nodeUuid != nodeUuid || x.sessionId == ""
    {
      if nodeUuid == "" {
        return 0;
      }
      pendingByNode := pendingByNode - {nodeUuid};
      assert Ix() == old(Ix());
      var leases := set x <- bySlotKey.Values | x.nodeUuid == nodeUuid;
      ReleaseSnapshot(leases);
      count := |leases|;
    }

    /** The tail of `reconcileLeasesWithExecutor`, after the executor has answered with its live sessions. */
    method Reconcile(nodeUuid: string, live: set<string>) returns (released: nat)
      modifies `bySlotKey, `bySessionId, `byTrajectoryId
      ensures Coherent(old(Ix())) ==>
                && Coherent(Ix())
                && Leases(Ix()) == (set x <- old(Leases(Ix())) | x.nodeUuid != nodeUuid || x.sessionId == "" || x.sessionId in live)
                && released == |old(Leases(Ix())) - Leases(Ix())|
    {
      var dead := set x <- bySlotKey.Values | x.nodeUuid == nodeUuid && x.sessionId != "" && x.sessionId !in live;
      ReleaseSnapshot(dead);
      released := |dead|;
      if Coherent(old(Ix())) {
        assert old(Leases(Ix())) - Leases(Ix()) == dead;
      }
    }
  }
}
