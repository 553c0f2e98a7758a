/**
 * The control plane's in-memory slot leases: one set of leases held in three indexes,
 * next to a per-node count of soft reservations.
 *
 * The `Index` functions follow the map operations of the source one by one; `LeaseStore` is the
 * module state they specify; the lemmas relate both to a plain set of leases.
 */
module SlotLeases {
  import opened Options

  datatype Lease = Lease(trajectoryId: Option<int>, sessionId: string, nodeUuid: string, slotIndex: int)

  datatype Index = Index(
    bySlotKey: map<string, Lease>,
    bySessionId: map<string, Lease>,
    byTrajectoryId: map<int, Lease>)

  const EmptyIndex := Index(map[], map[], map[])

  // ---------------------------------------------------------------- slot keys

  function Digits(n: nat): (s: string)
    ensures |s| > 0 && forall c | c in s :: '0' <= c <= '9'
  {
    var last := ('0' as int + n % 10) as char;
    if n < 10 then [last] else Digits(n / 10) + [last]
  }

  /** How a number prints inside a template string. */
  function Decimal(i: int): (s: string)
    ensures ':' !in s
  {
    if i < 0 then "-" + Digits(-i) else Digits(i)
  }

  function SlotKey(nodeUuid: string, slotIndex: int): string {
    nodeUuid + ":" + Decimal(slotIndex)
  }

  function KeyOf(l: Lease): string {
    SlotKey(l.nodeUuid, l.slotIndex)
  }

  lemma {:induction false} DigitsInjective(m: nat, n: nat)
    requires Digits(m) == Digits(n)
    ensures m == n
  {
    var s, t := Digits(m), Digits(n);
    assert s[|s| - 1] as int - '0' as int == m % 10;
    assert t[|t| - 1] as int - '0' as int == n % 10;
    if m >= 10 && n >= 10 {
      assert Digits(m / 10) == s[..|s| - 1] == t[..|t| - 1] == Digits(n / 10);
      DigitsInjective(m / 10, n / 10);
    }
  }

  lemma DecimalInjective(i: int, j: int)
    requires Decimal(i) == Decimal(j)
    ensures i == j
  {
    assert i < 0 ==> Decimal(i)[0] == '-' && Decimal(i)[1..] == Digits(-i);
    assert j < 0 ==> Decimal(j)[0] == '-' && Decimal(j)[1..] == Digits(-j);
    assert i >= 0 ==> Decimal(i)[0] in Digits(i);
    assert j >= 0 ==> Decimal(j)[0] in Digits(j);
    if i < 0 && j < 0 {
      DigitsInjective(-i, -j);
    } else if i >= 0 && j >= 0 {
      DigitsInjective(i, j);
    }
  }

  /** Text after the last colon is unambiguous, whatever the node uuid contains. */
  lemma LastColonSplits(a: string, x: string, b: string, y: string)
    requires a + ":" + x == b + ":" + y
    requires ':' !in x && ':' !in y
    ensures a == b && x == y
  {
    var s := a + ":" + x;
    assert s == b + ":" + y;
    assert s[|a|] == ':' && s[|b|] == ':';
    assert a == s[..|a|] && b == s[..|b|];
    assert x == s[|a| + 1..] && y == s[|b| + 1..];
  }

  /** Two slots share a key only if they are the same slot of the same node. */
  lemma SlotKeyInjective(n: string, i: int, m: string, j: int)
    ensures SlotKey(n, i) == SlotKey(m, j) <==> n == m && i == j
  {
    if SlotKey(n, i) == SlotKey(m, j) {
      LastColonSplits(n, Decimal(i), m, Decimal(j));
      DecimalInjective(i, j);
    }
  }

  // ---------------------------------------------------------------- index operations

  /** `releaseBySession`: an empty session id releases nothing, even when it is indexed. */
  function ReleaseSession(ix: Index, sessionId: string): Index {
    if sessionId == "" || sessionId !in ix.bySessionId then ix
    else
      var l := ix.bySessionId[sessionId];
      Index(
        ix.bySlotKey - {KeyOf(l)},
        ix.bySessionId - {sessionId},
        match l.trajectoryId
        case Some(t) =>
          if t in ix.byTrajectoryId && ix.byTrajectoryId[t].sessionId == sessionId
          then ix.byTrajectoryId - {t} else ix.byTrajectoryId
        case None => ix.byTrajectoryId)
  }

  /** `releaseByTrajectory`. */
  function ReleaseTrajectory(ix: Index, trajectoryId: Option<int>): Index {
    match trajectoryId
    case Some(t) => if t in ix.byTrajectoryId then ReleaseSession(ix, ix.byTrajectoryId[t].sessionId) else ix
    case None => ix
  }

  /** The eviction of the slot's previous holder inside `confirmLease`. */
  function ReleaseSlot(ix: Index, key: string, sessionId: string): Index {
    if key in ix.bySlotKey && ix.bySlotKey[key].sessionId != sessionId
    then ReleaseSession(ix, ix.bySlotKey[key].sessionId) else ix
  }

  /** The three releases that `confirmLease` performs before it writes. */
  function MakeRoom(ix: Index, l: Lease): Index {
    ReleaseSlot(ReleaseTrajectory(ReleaseSession(ix, l.sessionId), l.trajectoryId), KeyOf(l), l.sessionId)
  }

  /** The three map writes of `confirmLease`. */
  function Insert(ix: Index, l: Lease): Index {
    Index(
      ix.bySlotKey[KeyOf(l) := l],
      ix.bySessionId[l.sessionId := l],
      match l.trajectoryId
      case Some(t) => ix.byTrajectoryId[t := l]
      case None => ix.byTrajectoryId)
  }

  /** `confirmLease`. */
  function Confirm(ix: Index, l: Lease): Index {
    Insert(MakeRoom(ix, l), l)
  }

  /** Releasing a listed batch of sessions one after the other. */
  function ReleaseAll(ix: Index, sessionIds: seq<string>): Index {
    if sessionIds == [] then ix
    else ReleaseSession(ReleaseAll(ix, sessionIds[..|sessionIds| - 1]), sessionIds[|sessionIds| - 1])
  }

  // ---------------------------------------------------------------- the set behind the indexes

  function Leases(ix: Index): set<Lease> {
    ix.bySlotKey.Values
  }

  ghost predicate SlotsCohere(ix: Index) {
    forall k <- ix.bySlotKey ::
      var l := ix.bySlotKey[k];
      k == KeyOf(l) && l.sessionId in ix.bySessionId && ix.bySessionId[l.sessionId] == l
  }

  ghost predicate SessionsCohere(ix: Index) {
    forall s <- ix.bySessionId ::
      var l := ix.bySessionId[s];
      l.sessionId == s && KeyOf(l) in ix.bySlotKey && ix.bySlotKey[KeyOf(l)] == l
      && (l.trajectoryId.Some? ==>
            l.trajectoryId.value in ix.byTrajectoryId && ix.byTrajectoryId[l.trajectoryId.value] == l)
  }

  ghost predicate TrajectoriesCohere(ix: Index) {
    forall t <- ix.byTrajectoryId ::
      var l := ix.byTrajectoryId[t];
      l.trajectoryId == Some(t) && l.sessionId in ix.bySessionId && ix.bySessionId[l.sessionId] == l
  }

  /** The three maps are mutually inverse views of one lease set. */
  ghost predicate Coherent(ix: Index) {
    SlotsCohere(ix) && SessionsCohere(ix) && TrajectoriesCohere(ix)
  }

  predicate SameSlot(x: Lease, y: Lease) {
    x.nodeUuid == y.nodeUuid && x.slotIndex == y.slotIndex
  }

  predicate SameTrajectory(x: Lease, y: Lease) {
    x.trajectoryId.Some? && x.trajectoryId == y.trajectoryId
  }

  predicate Clash(x: Lease, y: Lease) {
    x.sessionId == y.sessionId || SameSlot(x, y) || SameTrajectory(x, y)
  }

  function WithoutSession(s: set<Lease>, sessionId: string): set<Lease> {
    set x <- s | x.sessionId != sessionId
  }

  /** What a plain set of leases becomes when `l` replaces every lease it clashes with. */
  function Replace(s: set<Lease>, l: Lease): set<Lease> {
    (set x <- s | !Clash(x, l)) + {l}
  }

  lemma MemberKeys(ix: Index, x: Lease)
    requires Coherent(ix)
    ensures x in Leases(ix) <==> KeyOf(x) in ix.bySlotKey && ix.bySlotKey[KeyOf(x)] == x
    ensures x in Leases(ix) <==> x.sessionId in ix.bySessionId && ix.bySessionId[x.sessionId] == x
    ensures x in Leases(ix) && x.trajectoryId.Some?
            ==> x.trajectoryId.value in ix.byTrajectoryId && ix.byTrajectoryId[x.trajectoryId.value] == x
  {
    if x in Leases(ix) {
      var k :| k in ix.bySlotKey && ix.bySlotKey[k] == x;
    }
    if x.sessionId in ix.bySessionId && ix.bySessionId[x.sessionId] == x {
      assert KeyOf(x) in ix.bySlotKey;
    }
  }

  /** Session, slot and trajectory are each a unique key of the lease set. */
  lemma UniqueKeys(ix: Index, x: Lease, y: Lease)
    requires Coherent(ix) && x in Leases(ix) && y in Leases(ix)
    ensures Clash(x, y) ==> x == y
  {
    MemberKeys(ix, x);
    MemberKeys(ix, y);
  }

  lemma ReleaseSessionRefines(ix: Index, sessionId: string)
    requires Coherent(ix)
    ensures Coherent(ReleaseSession(ix, sessionId))
    ensures sessionId != "" ==> Leases(ReleaseSession(ix, sessionId)) == WithoutSession(Leases(ix), sessionId)
    ensures sessionId == "" ==> ReleaseSession(ix, sessionId) == ix
  {
    var r := ReleaseSession(ix, sessionId);
    if sessionId != "" && sessionId in ix.bySessionId {
      var l := ix.bySessionId[sessionId];
      forall x ensures x in Leases(r) <==> x in WithoutSession(Leases(ix), sessionId) {
        MemberKeys(ix, x);
        if x in Leases(ix) && x.sessionId != sessionId {
          SlotKeyInjective(x.nodeUuid, x.slotIndex, l.nodeUuid, l.slotIndex);
          assert KeyOf(x) in r.bySlotKey;
        }
        if x in Leases(r) {
          var k :| k in r.bySlotKey && r.bySlotKey[k] == x;
        }
      }
      assert Coherent(r);
    } else if sessionId != "" {
      forall x | x in Leases(ix) ensures x.sessionId != sessionId { MemberKeys(ix, x); }
    }
  }

  lemma ReleaseTrajectoryRefines(ix: Index, l: Lease)
    requires Coherent(ix)
    ensures var r := ReleaseTrajectory(ix, l.trajectoryId);
            && Coherent(r)
            && Leases(r) == set x <- Leases(ix) | !(SameTrajectory(x, l) && x.sessionId != "")
  {
    if l.trajectoryId.Some? && l.trajectoryId.value in ix.byTrajectoryId {
      var t := l.trajectoryId.value;
      var e := ix.byTrajectoryId[t];
      assert e.trajectoryId == Some(t);
      MemberKeys(ix, e);
      ReleaseSessionRefines(ix, e.sessionId);
      forall x | x in Leases(ix) ensures (SameTrajectory(x, l) <==> x == e) && (x.sessionId == e.sessionId <==> x == e) {
        MemberKeys(ix, x);
        UniqueKeys(ix, x, e);
      }
    } else {
      forall x | x in Leases(ix) ensures !SameTrajectory(x, l) { MemberKeys(ix, x); }
    }
  }

  lemma ReleaseSlotRefines(ix: Index, l: Lease)
    requires Coherent(ix)
    ensures var r := ReleaseSlot(ix, KeyOf(l), l.sessionId);
            && Coherent(r)
            && Leases(r) == set x <- Leases(ix) | !(SameSlot(x, l) && x.sessionId != l.sessionId && x.sessionId != "")
  {
    if KeyOf(l) in ix.bySlotKey {
      var e := ix.bySlotKey[KeyOf(l)];
      MemberKeys(ix, e);
      SlotKeyInjective(e.nodeUuid, e.slotIndex, l.nodeUuid, l.slotIndex);
      ReleaseSessionRefines(ix, e.sessionId);
      forall x | x in Leases(ix) ensures (SameSlot(x, l) <==> x == e) && (x.sessionId == e.sessionId <==> x == e) {
        UniqueKeys(ix, x, e);
      }
    } else {
      forall x | x in Leases(ix) ensures !SameSlot(x, l) {
        MemberKeys(ix, x);
        SlotKeyInjective(x.nodeUuid, x.slotIndex, l.nodeUuid, l.slotIndex);
      }
    }
  }

  /** The releases clear every clashing lease except one filed under the empty session id. */
  lemma MakeRoomRefines(ix: Index, l: Lease)
    requires Coherent(ix)
    ensures Coherent(MakeRoom(ix, l))
    ensures Leases(MakeRoom(ix, l)) == set x <- Leases(ix) | !(Clash(x, l) && x.sessionId != "")
  {
    var r1 := ReleaseSession(ix, l.sessionId);
    var r2 := ReleaseTrajectory(r1, l.trajectoryId);
    ReleaseSessionRefines(ix, l.sessionId);
    ReleaseTrajectoryRefines(r1, l);
    ReleaseSlotRefines(r2, l);
    ReleasesCompose(Leases(ix), Leases(r1), Leases(r2), l);
  }

  lemma ReleasesCompose(s0: set<Lease>, s1: set<Lease>, s2: set<Lease>, l: Lease)
    requires s1 == if l.sessionId == "" then s0 else WithoutSession(s0, l.sessionId)
    requires s2 == set x <- s1 | !(SameTrajectory(x, l) && x.sessionId != "")
    ensures (set x <- s2 | !(SameSlot(x, l) && x.sessionId != l.sessionId && x.sessionId != ""))
            == set x <- s0 | !(Clash(x, l) && x.sessionId != "")
  {
  }

  lemma NoClash(x: Lease, l: Lease)
    requires !Clash(x, l)
    ensures KeyOf(x) != KeyOf(l) && x.sessionId != l.sessionId && !SameTrajectory(x, l)
  {
    SlotKeyInjective(x.nodeUuid, x.slotIndex, l.nodeUuid, l.slotIndex);
  }

  lemma InsertIntoRoomCoheres(ix: Index, l: Lease)
    requires Coherent(ix) && forall x <- Leases(ix) :: !Clash(x, l)
    ensures Coherent(Insert(ix, l))
  {
    forall k | k in ix.bySlotKey ensures k != KeyOf(l) && ix.bySlotKey[k].sessionId != l.sessionId {
      NoClash(ix.bySlotKey[k], l);
    }
    forall s | s in ix.bySessionId
      ensures s != l.sessionId && !SameTrajectory(ix.bySessionId[s], l) && KeyOf(ix.bySessionId[s]) != KeyOf(l)
    {
      MemberKeys(ix, ix.bySessionId[s]);
      NoClash(ix.bySessionId[s], l);
    }
    forall t | t in ix.byTrajectoryId ensures l.trajectoryId != Some(t) && ix.byTrajectoryId[t].sessionId != l.sessionId {
      MemberKeys(ix, ix.byTrajectoryId[t]);
      NoClash(ix.byTrajectoryId[t], l);
    }
    InsertKeepsSlots(ix, l);
    InsertKeepsSessions(ix, l);
    InsertKeepsTrajectories(ix, l);
  }

  lemma InsertKeepsSlots(ix: Index, l: Lease)
    requires SlotsCohere(ix) && forall k <- ix.bySlotKey :: k == KeyOf(l) || ix.bySlotKey[k].sessionId != l.sessionId
    ensures SlotsCohere(Insert(ix, l))
  {
  }

  lemma InsertKeepsSessions(ix: Index, l: Lease)
    requires SessionsCohere(ix)
    requires forall s <- ix.bySessionId ::
               s == l.sessionId || (!SameTrajectory(ix.bySessionId[s], l) && KeyOf(ix.bySessionId[s]) != KeyOf(l))
    ensures SessionsCohere(Insert(ix, l))
  {
    var r := Insert(ix, l);
    forall s | s in r.bySessionId
      ensures var x := r.bySessionId[s];
              x.sessionId == s && KeyOf(x) in r.bySlotKey && r.bySlotKey[KeyOf(x)] == x
              && (x.trajectoryId.Some? ==>
                    x.trajectoryId.value in r.byTrajectoryId && r.byTrajectoryId[x.trajectoryId.value] == x)
    {
      if s != l.sessionId { assert r.bySessionId[s] == ix.bySessionId[s]; }
    }
  }

  lemma InsertKeepsTrajectories(ix: Index, l: Lease)
    requires TrajectoriesCohere(ix)
    requires forall t <- ix.byTrajectoryId :: l.trajectoryId == Some(t) || ix.byTrajectoryId[t].sessionId != l.sessionId
    ensures TrajectoriesCohere(Insert(ix, l))
  {
  }

  lemma InsertIntoRoom(ix: Index, l: Lease)
    requires Coherent(ix) && forall x <- Leases(ix) :: !Clash(x, l)
    ensures Coherent(Insert(ix, l)) && Leases(Insert(ix, l)) == Leases(ix) + {l}
  {
    var r := Insert(ix, l);
    InsertIntoRoomCoheres(ix, l);
    forall x ensures x in Leases(r) <==> x in Leases(ix) + {l} {
      MemberKeys(ix, x);
      MemberKeys(r, x);
      if x in Leases(ix) { NoClash(x, l); }
    }
  }

  /** `l` may overwrite `e` in place: same session, same slot, no trajectory left behind, and no other clash. */
  ghost predicate Overwrites(ix: Index, e: Lease, l: Lease) {
    && e in Leases(ix) && e.sessionId == l.sessionId && SameSlot(e, l)
    && (e.trajectoryId.None? || e.trajectoryId == l.trajectoryId)
    && forall x <- Leases(ix) :: Clash(x, l) ==> x == e
  }

  lemma OnlyOverwritten(ix: Index, e: Lease, l: Lease, x: Lease)
    requires Overwrites(ix, e, l) && x in Leases(ix)
    ensures KeyOf(x) == KeyOf(l) || x.sessionId == l.sessionId || SameTrajectory(x, l) ==> x == e
  {
    SlotKeyInjective(x.nodeUuid, x.slotIndex, l.nodeUuid, l.slotIndex);
  }

  lemma InsertOverCoheres(ix: Index, e: Lease, l: Lease)
    requires Coherent(ix) && Overwrites(ix, e, l)
    ensures Coherent(Insert(ix, l))
  {
    MemberKeys(ix, e);
    forall s | s in ix.bySessionId
      ensures s == l.sessionId || (!SameTrajectory(ix.bySessionId[s], l) && KeyOf(ix.bySessionId[s]) != KeyOf(l))
    {
      MemberKeys(ix, ix.bySessionId[s]);
      OnlyOverwritten(ix, e, l, ix.bySessionId[s]);
    }
    forall t | t in ix.byTrajectoryId ensures l.trajectoryId == Some(t) || ix.byTrajectoryId[t].sessionId != l.sessionId {
      MemberKeys(ix, ix.byTrajectoryId[t]);
      OnlyOverwritten(ix, e, l, ix.byTrajectoryId[t]);
    }
    forall k | k in ix.bySlotKey ensures k == KeyOf(l) || ix.bySlotKey[k].sessionId != l.sessionId {
      OnlyOverwritten(ix, e, l, ix.bySlotKey[k]);
    }
    InsertKeepsSlots(ix, l);
    InsertKeepsSessions(ix, l);
    InsertKeepsTrajectories(ix, l);
  }

  lemma InsertOver(ix: Index, e: Lease, l: Lease)
    requires Coherent(ix) && Overwrites(ix, e, l)
    ensures Coherent(Insert(ix, l)) && Leases(Insert(ix, l)) == Leases(ix) - {e} + {l}
  {
    var r := Insert(ix, l);
    InsertOverCoheres(ix, e, l);
    MemberKeys(ix, e);
    forall x ensures x in Leases(r) <==> x in Leases(ix) - {e} + {l} {
      MemberKeys(ix, x);
      MemberKeys(r, x);
      if x in Leases(ix) { OnlyOverwritten(ix, e, l, x); }
    }
  }

  /**
   * When `confirmLease` can be relied on, stated on what the caller can look up: the lease filed under
   * the empty session id is never released, so it must be absent, out of the way, or overwritten whole.
   */
  predicate Confirmable(ix: Index, l: Lease) {
    "" in ix.bySessionId ==>
      var e := ix.bySessionId[""];
      if l.sessionId == "" then SameSlot(e, l) && (e.trajectoryId.None? || e.trajectoryId == l.trajectoryId)
      else !Clash(e, l)
  }

  /** `confirmLease` replaces exactly the clashing leases and keeps the maps inverse, if and only if `Confirmable`. */
  lemma ConfirmRefinesExactly(ix: Index, l: Lease)
    requires Coherent(ix)
    ensures Coherent(Confirm(ix, l)) && Leases(Confirm(ix, l)) == Replace(Leases(ix), l) <==> Confirmable(ix, l)
  {
    var room := MakeRoom(ix, l);
    MakeRoomRefines(ix, l);
    if e :| e in Leases(room) && Clash(e, l) {
      MemberKeys(ix, e);
      assert ix.bySessionId[""] == e;
      ConfirmOverStray(ix, e, l);
    } else {
      assert Leases(room) + {l} == Replace(Leases(ix), l);
      InsertIntoRoom(room, l);
      if "" in ix.bySessionId {
        StrayIsMember(ix);
        assert ix.bySessionId[""] in Leases(room);
      }
    }
  }

  lemma StrayIsMember(ix: Index)
    requires Coherent(ix) && "" in ix.bySessionId
    ensures ix.bySessionId[""] in Leases(ix) && ix.bySessionId[""].sessionId == ""
  {
    MemberKeys(ix, ix.bySessionId[""]);
  }

  lemma ConfirmOverStray(ix: Index, e: Lease, l: Lease)
    requires Coherent(ix) && e in Leases(ix) && e.sessionId == "" && Clash(e, l)
    requires "" in ix.bySessionId && ix.bySessionId[""] == e
    ensures Coherent(Confirm(ix, l)) && Leases(Confirm(ix, l)) == Replace(Leases(ix), l) <==> Confirmable(ix, l)
  {
    var room := MakeRoom(ix, l);
    MakeRoomRefines(ix, l);
    forall x | x in Leases(room) && Clash(x, l) ensures x == e { UniqueKeys(ix, x, e); }
    if Confirmable(ix, l) {
      assert Leases(room) - {e} + {l} == Replace(Leases(ix), l);
      InsertOver(room, e, l);
    } else {
      StaleEntrySurvives(room, e, l);
      assert e !in Replace(Leases(ix), l);
    }
  }

  lemma StaleEntrySurvives(ix: Index, e: Lease, l: Lease)
    requires Coherent(ix) && e in Leases(ix) && e != l && Clash(e, l)
    requires e.sessionId != l.sessionId || !SameSlot(e, l) || (e.trajectoryId.Some? && e.trajectoryId != l.trajectoryId)
    ensures !(Coherent(Insert(ix, l)) && e !in Leases(Insert(ix, l)))
  {
    var r := Insert(ix, l);
    MemberKeys(ix, e);
    SlotKeyInjective(e.nodeUuid, e.slotIndex, l.nodeUuid, l.slotIndex);
    if !SameSlot(e, l) {
      assert r.bySlotKey[KeyOf(e)] == e;
      assert e in Leases(r);
    } else if e.sessionId != l.sessionId {
      assert r.bySessionId[e.sessionId] == e && r.bySlotKey[KeyOf(e)] == l;
    } else {
      var t := e.trajectoryId.value;
      assert t in r.byTrajectoryId && r.byTrajectoryId[t] == e && r.bySessionId[e.sessionId] == l;
    }
  }

  /** The everyday case: no empty session id anywhere. */
  lemma ConfirmRefines(ix: Index, l: Lease)
    requires Coherent(ix) && "" !in ix.bySessionId && l.sessionId != ""
    ensures Coherent(Confirm(ix, l)) && Leases(Confirm(ix, l)) == Replace(Leases(ix), l)
    ensures "" !in Confirm(ix, l).bySessionId
  {
    ConfirmRefinesExactly(ix, l);
    var r := Confirm(ix, l);
    if "" in r.bySessionId {
      var x := r.bySessionId[""];
      MemberKeys(r, x);
      MemberKeys(ix, x);
    }
  }

  /** A second lease under the empty session id leaves the first one behind in the slot index. */
  lemma EmptySessionBreaksConfirm()
    ensures var a := Lease(None, "", "n", 0);
            var b := Lease(None, "", "n", 1);
            var ix := Confirm(EmptyIndex, a);
            Coherent(ix) && !Coherent(Confirm(ix, b))
  {
    var a := Lease(None, "", "n", 0);
    var b := Lease(None, "", "n", 1);
    ConfirmRefinesExactly(EmptyIndex, a);
    var ix := Confirm(EmptyIndex, a);
    SlotKeyInjective("n", 0, "n", 1);
    var r := Confirm(ix, b);
    assert r.bySlotKey[KeyOf(a)] == a;
    assert r.bySessionId[""] == b;
  }

  // ---------------------------------------------------------------- counting

  function SlotKeysOn(ix: Index, nodeUuid: string): set<string> {
    set k <- ix.bySlotKey | ix.bySlotKey[k].nodeUuid == nodeUuid
  }

  function HardCount(ix: Index, nodeUuid: string): nat {
    |SlotKeysOn(ix, nodeUuid)|
  }

  lemma {:induction false} ImageSize(m: map<string, Lease>, keys: set<string>)
    requires keys <= m.Keys && forall j, k | j in keys && k in keys && m[j] == m[k] :: j == k
    ensures |set k <- keys :: m[k]| == |keys|
  {
    if keys != {} {
      var k :| k in keys;
      ImageSize(m, keys - {k});
      assert (set j <- keys :: m[j]) == (set j <- keys - {k} :: m[j]) + {m[k]};
    }
  }

  /** A node's count is the number of its leases, whatever else they carry. */
  lemma CountIsLeases(ix: Index, nodeUuid: string)
    requires Coherent(ix)
    ensures HardCount(ix, nodeUuid) == |set l <- Leases(ix) | l.nodeUuid == nodeUuid|
  {
    var keys, leases := SlotKeysOn(ix, nodeUuid), set l <- Leases(ix) | l.nodeUuid == nodeUuid;
    ImageSize(ix.bySlotKey, keys);
    forall l ensures l in leases <==> l in set k <- keys :: ix.bySlotKey[k] {
      MemberKeys(ix, l);
      if l in leases { assert KeyOf(l) in keys; }
    }
    assert leases == set k <- keys :: ix.bySlotKey[k];
  }

  function PendingOf(pending: map<string, nat>, nodeUuid: string): nat {
    if nodeUuid in pending then pending[nodeUuid] else 0
  }

  /** `reservePending`. */
  function Reserved(pending: map<string, nat>, nodeUuid: string): map<string, nat> {
    pending[nodeUuid := PendingOf(pending, nodeUuid) + 1]
  }

  /** `releasePending`: a count of one or less drops the entry, so the counter saturates at zero. */
  function Unreserved(pending: map<string, nat>, nodeUuid: string): map<string, nat> {
    var cur := PendingOf(pending, nodeUuid);
    if cur <= 1 then pending - {nodeUuid} else pending[nodeUuid := cur - 1]
  }

  lemma {:induction false} SubsetSize<T>(a: set<T>, b: set<T>)
    requires a <= b
    ensures |a| <= |b|
  {
    if a != {} {
      var x :| x in a;
      SubsetSize(a - {x}, b - {x});
    }
  }

  predicate SubIndex(a: Index, b: Index) {
    forall k <- a.bySlotKey :: k in b.bySlotKey && a.bySlotKey[k] == b.bySlotKey[k]
  }

  lemma SubIndexCounts(a: Index, b: Index, nodeUuid: string)
    requires SubIndex(a, b)
    ensures HardCount(a, nodeUuid) <= HardCount(b, nodeUuid)
  {
    SubsetSize(SlotKeysOn(a, nodeUuid), SlotKeysOn(b, nodeUuid));
  }

  /** Confirming adds at most one lease to its own node and none to any other, whatever it evicts. */
  lemma ConfirmCounts(ix: Index, l: Lease, nodeUuid: string)
    ensures HardCount(Confirm(ix, l), nodeUuid) <= HardCount(ix, nodeUuid) + if nodeUuid == l.nodeUuid then 1 else 0
  {
    var room := MakeRoom(ix, l);
    SubIndexCounts(room, ix, nodeUuid);
    var before, after := SlotKeysOn(room, nodeUuid), SlotKeysOn(Insert(room, l), nodeUuid);
    if nodeUuid == l.nodeUuid {
      SubsetSize(after, before + {KeyOf(l)});
    } else {
      SubsetSize(after, before);
    }
  }

  lemma {:induction false} ReleaseAllShrinks(ix: Index, sessionIds: seq<string>)
    ensures SubIndex(ReleaseAll(ix, sessionIds), ix)
  {
    if sessionIds != [] {
      ReleaseAllShrinks(ix, sessionIds[..|sessionIds| - 1]);
    }
  }

  /** Releasing a batch removes exactly the leases of the listed sessions; an empty session id removes nothing. */
  lemma {:induction false} ReleaseAllRefines(ix: Index, sessionIds: seq<string>)
    requires Coherent(ix)
    ensures Coherent(ReleaseAll(ix, sessionIds))
    ensures Leases(ReleaseAll(ix, sessionIds)) == set x <- Leases(ix) | x.sessionId == "" || x.sessionId !in sessionIds
  {
    if sessionIds != [] {
      var front, last := sessionIds[..|sessionIds| - 1], sessionIds[|sessionIds| - 1];
      assert sessionIds == front + [last];
      ReleaseAllRefines(ix, front);
      ReleaseSessionRefines(ReleaseAll(ix, front), last);
    }
  }

  ghost predicate SessionsOf(sessionIds: seq<string>, leases: set<Lease>) {
    forall s :: s in sessionIds <==> exists x :: x in leases && x.sessionId == s
  }

  lemma OneMoreReleased(ix: Index, sessionIds: seq<string>, leases: set<Lease>, l: Lease)
    requires SessionsOf(sessionIds, leases)
    ensures SessionsOf(sessionIds + [l.sessionId], leases + {l})
    ensures ReleaseAll(ix, sessionIds + [l.sessionId]) == ReleaseSession(ReleaseAll(ix, sessionIds), l.sessionId)
  {
    var more := sessionIds + [l.sessionId];
    assert more[..|more| - 1] == sessionIds;
    forall s ensures s in more <==> exists x :: x in leases + {l} && x.sessionId == s {
      if s in sessionIds {
        var x :| x in leases && x.sessionId == s;
        assert x in leases + {l};
      } else if s == l.sessionId {
        assert l in leases + {l};
      }
    }
  }

  /** Releasing the sessions of some leases, in any order, removes exactly those leases that have a session id. */
  lemma ReleaseListed(ix: Index, gone: set<Lease>, sessionIds: seq<string>)
    requires Coherent(ix) && gone <= Leases(ix) && SessionsOf(sessionIds, gone)
    ensures Coherent(ReleaseAll(ix, sessionIds))
    ensures Leases(ReleaseAll(ix, sessionIds)) == set x <- Leases(ix) | x !in gone || x.sessionId == ""
  {
    forall x | x in Leases(ix) ensures x.sessionId in sessionIds <==> x in gone {
      forall y | y in Leases(ix) && y.sessionId == x.sessionId ensures y == x { UniqueKeys(ix, y, x); }
    }
    ReleaseAllRefines(ix, sessionIds);
  }
}
