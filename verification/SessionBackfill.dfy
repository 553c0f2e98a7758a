/**
 * The one-shot repair of trajectory and remote-session cross-links
 * (`migrations/20260811200000_remote_session_grace_until.js`). A session's `trajectory_id` is the truth; a
 * trajectory's `remote_session_id` is a cache of it.
 */
module SessionBackfill {
  import opened Options

  datatype Status = Active | Idle | Closed | Crashed

  datatype Session = Session(owner: Option<nat>, status: Status)

  datatype Trajectory = Trajectory(remote: Option<nat>, recordStatus: string)

  datatype Db = Db(trajectories: map<nat, Trajectory>, sessions: map<nat, Session>)

  predicate Occupied(status: Status) {
    status.Active? || status.Idle?
  }

  /** The session a trajectory's cache joins to, if the row exists. */
  function Joined(db: Db, t: nat): Option<Session> {
    if t in db.trajectories && db.trajectories[t].remote.Some? && db.trajectories[t].remote.value in db.sessions
    then Some(db.sessions[db.trajectories[t].remote.value]) else None
  }

  /** First query: the cache names a session that another trajectory owns. */
  predicate Crossed(db: Db, t: nat) {
    Joined(db, t).Some? && Joined(db, t).value.owner.Some? && Joined(db, t).value.owner.value != t
  }

  /** Second query: the cache names an occupied session that nobody owns. */
  predicate HalfEmpty(db: Db, t: nat) {
    Joined(db, t).Some? && Joined(db, t).value.owner.None? && Occupied(Joined(db, t).value.status)
  }

  /** Third query: the cache names a session that has ended. */
  predicate Stale(db: Db, t: nat) {
    Joined(db, t).Some? && !Occupied(Joined(db, t).value.status)
  }

  function Cleared(db: Db, t: nat): Trajectory
    requires t in db.trajectories
  {
    db.trajectories[t].(remote := None)
  }

  function Demoted(t: Trajectory): Trajectory {
    Trajectory(None, if t.recordStatus == "live" then "draft" else t.recordStatus)
  }

  /** The first pass clears crossed caches and demotes their live trajectories. */
  function AfterCross(db: Db): Db {
    db.(trajectories := map t <- db.trajectories ::
          if Crossed(db, t) then Demoted(db.trajectories[t]) else db.trajectories[t])
  }

  /** The lowest trajectory whose cache names an ownerless occupied session claims it. */
  ghost predicate Claims(db: Db, t: nat, r: nat) {
    && t in db.trajectories && HalfEmpty(db, t) && db.trajectories[t].remote == Some(r)
    && forall u | u in db.trajectories && HalfEmpty(db, u) && db.trajectories[u].remote == Some(r) :: t <= u
  }

  /** The second pass gives each session to its claimant and clears the other caches that named it. */
  ghost predicate IsAfterHalf(db: Db, after: Db) {
    && after.trajectories.Keys == db.trajectories.Keys && after.sessions.Keys == db.sessions.Keys
    && (forall t <- db.trajectories :: after.trajectories[t] ==
          if HalfEmpty(db, t) && !Claims(db, t, db.trajectories[t].remote.value) then Cleared(db, t) else db.trajectories[t])
    && (forall r <- db.sessions :: after.sessions[r].status == db.sessions[r].status)
    && (forall r <- db.sessions :: (forall t :: !Claims(db, t, r)) ==> after.sessions[r] == db.sessions[r])
    && (forall r, t: nat | r in db.sessions && Claims(db, t, r) :: after.sessions[r].owner == Some(t))
  }

  function AfterStale(db: Db): Db {
    db.(trajectories := map t <- db.trajectories :: if Stale(db, t) then Cleared(db, t) else db.trajectories[t])
  }

  ghost predicate IsBackfilled(db: Db, after: Db) {
    exists mid :: IsAfterHalf(AfterCross(db), mid) && after == AfterStale(mid)
  }

  // ---------------------------------------------------------------- what the repair establishes

  /** Every cache that names a session names an occupied one that the trajectory owns. */
  ghost predicate Linked(db: Db) {
    forall t <- db.trajectories :: Joined(db, t).Some? ==>
      Occupied(Joined(db, t).value.status) && Joined(db, t).value.owner == Some(t)
  }

  lemma LowestClaims(db: Db, t: nat)
    requires t in db.trajectories && HalfEmpty(db, t)
    ensures exists u :: Claims(db, u, db.trajectories[t].remote.value)
    decreases t
  {
    var r := db.trajectories[t].remote.value;
    if !Claims(db, t, r) {
      var u :| u in db.trajectories && HalfEmpty(db, u) && db.trajectories[u].remote == Some(r) && u < t;
      LowestClaims(db, u);
    }
  }

  lemma ClaimUnique(db: Db, t: nat, u: nat, r: nat)
    requires Claims(db, t, r) && Claims(db, u, r)
    ensures t == u
  {
  }

  lemma NoCrossLeft(db: Db, t: nat)
    ensures !Crossed(AfterCross(db), t)
  {
  }

  lemma HalfLinks(db: Db, mid: Db, t: nat)
    requires IsAfterHalf(db, mid) && t in db.trajectories && !Crossed(db, t)
    ensures Joined(mid, t).Some? && Occupied(Joined(mid, t).value.status) ==> Joined(mid, t).value.owner == Some(t)
    ensures !HalfEmpty(mid, t)
  {
    if Joined(mid, t).Some? && Occupied(Joined(mid, t).value.status) {
      var r := mid.trajectories[t].remote.value;
      assert db.trajectories[t].remote == Some(r);
      if HalfEmpty(db, t) {
        assert Claims(db, t, r);
      } else {
        assert forall u :: !Claims(db, u, r);
      }
    }
  }

  /** After the repair every surviving link is exclusive and points at an occupied session its trajectory owns. */
  lemma BackfillLinks(db: Db, after: Db)
    requires IsBackfilled(db, after)
    ensures Linked(after)
    ensures forall t, u | t in after.trajectories && u in after.trajectories && Joined(after, t).Some? && Joined(after, u).Some? ::
              after.trajectories[t].remote == after.trajectories[u].remote ==> t == u
  {
    var mid :| IsAfterHalf(AfterCross(db), mid) && after == AfterStale(mid);
    forall t | t in after.trajectories && Joined(after, t).Some?
      ensures Occupied(Joined(after, t).value.status) && Joined(after, t).value.owner == Some(t)
    {
      NoCrossLeft(db, t);
      HalfLinks(AfterCross(db), mid, t);
      assert !Stale(mid, t);
    }
  }

  /** Sessions that had an owner keep it; an ownerless one goes to the lowest trajectory that named it, if any. */
  lemma OwnersRespected(db: Db, after: Db, r: nat)
    requires IsBackfilled(db, after) && r in db.sessions
    ensures r in after.sessions && after.sessions[r].status == db.sessions[r].status
    ensures db.sessions[r].owner.Some? ==> after.sessions[r].owner == db.sessions[r].owner
    ensures db.sessions[r].owner.None? ==>
              && (forall t: nat :: after.sessions[r].owner == Some(t) <==> Claims(db, t, r))
              && (forall t | t in db.trajectories && HalfEmpty(db, t) && db.trajectories[t].remote == Some(r) ::
                    after.sessions[r].owner.Some?)
  {
    var cross := AfterCross(db);
    var mid :| IsAfterHalf(cross, mid) && after == AfterStale(mid);
    forall t ensures Claims(cross, t, r) <==> Claims(db, t, r) { ClaimsSurviveCross(db, t, r); }
    forall t | t in db.trajectories && HalfEmpty(db, t) && db.trajectories[t].remote == Some(r)
      ensures exists u :: Claims(db, u, r) { LowestClaims(db, t); }
    if t :| Claims(cross, t, r) {
      forall u | Claims(cross, u, r) ensures u == t { ClaimUnique(cross, t, u, r); }
    }
  }

  lemma CrossFixed(db: Db)
    requires forall t <- db.trajectories :: !Crossed(db, t)
    ensures AfterCross(db) == db
  {
    assert AfterCross(db).trajectories == db.trajectories;
  }

  lemma HalfFixed(db: Db, mid: Db)
    requires IsAfterHalf(db, mid) && forall t <- db.trajectories :: !HalfEmpty(db, t)
    ensures mid == db
  {
    assert forall t, r :: !Claims(db, t, r);
    assert mid.trajectories == db.trajectories && mid.sessions == db.sessions;
  }

  lemma StaleFixed(db: Db)
    requires forall t <- db.trajectories :: !Stale(db, t)
    ensures AfterStale(db) == db
  {
    assert AfterStale(db).trajectories == db.trajectories;
  }

  /** A linked database passes through unchanged, so repairing twice is repairing once. */
  lemma LinkedIsFixed(db: Db, after: Db)
    requires Linked(db) && IsBackfilled(db, after)
    ensures after == db
  {
    CrossFixed(db);
    var mid :| IsAfterHalf(AfterCross(db), mid) && after == AfterStale(mid);
    HalfFixed(db, mid);
    StaleFixed(db);
  }

  lemma SecondPassIsNoOp(db: Db, once: Db, twice: Db)
    requires IsBackfilled(db, once) && IsBackfilled(once, twice)
    ensures twice == once
  {
    BackfillLinks(db, once);
    LinkedIsFixed(once, twice);
  }

  lemma ClaimsSurviveCross(db: Db, t: nat, r: nat)
    ensures Claims(AfterCross(db), t, r) <==> Claims(db, t, r)
  {
    var cross := AfterCross(db);
    forall u ensures u in cross.trajectories && HalfEmpty(cross, u) && cross.trajectories[u].remote == Some(r)
                     <==> u in db.trajectories && HalfEmpty(db, u) && db.trajectories[u].remote == Some(r) {}
  }

  lemma HalfKeepsExactly(db: Db, mid: Db, t: nat, r: nat)
    requires IsAfterHalf(db, mid) && t in db.trajectories && r in db.sessions && db.trajectories[t].remote == Some(r)
    requires !Crossed(db, t)
    ensures mid.trajectories[t].remote in {None, Some(r)} && mid.sessions[r].status == db.sessions[r].status
    ensures mid.trajectories[t].remote == Some(r) <==> (HalfEmpty(db, t) ==> Claims(db, t, r))
  {
  }

  /** A trajectory keeps its link exactly when the session is occupied and either its own or claimed by it. */
  lemma LinkKeptExactly(db: Db, after: Db, t: nat, r: nat)
    requires IsBackfilled(db, after) && t in db.trajectories && r in db.sessions && db.trajectories[t].remote == Some(r)
    ensures t in after.trajectories && after.trajectories[t].remote in {None, Some(r)}
    ensures after.trajectories[t].remote == Some(r)
            <==> Occupied(db.sessions[r].status) && (db.sessions[r].owner == Some(t) || Claims(db, t, r))
  {
    var cross := AfterCross(db);
    var mid :| IsAfterHalf(cross, mid) && after == AfterStale(mid);
    if !Crossed(db, t) {
      ClaimsSurviveCross(db, t, r);
      HalfKeepsExactly(cross, mid, t, r);
      if Claims(db, t, r) { assert HalfEmpty(db, t); }
    } else {
      assert cross.trajectories[t].remote == None;
      assert mid.trajectories[t] == cross.trajectories[t];
    }
  }

  // ---------------------------------------------------------------- the same, read off the tables

  /** `t` is the lowest trajectory that names session `r`. */
  ghost predicate FirstToName(db: Db, t: nat, r: nat) {
    && t in db.trajectories && db.trajectories[t].remote == Some(r)
    && forall u <- db.trajectories :: db.trajectories[u].remote == Some(r) ==> t <= u
  }

  lemma ClaimsMeans(db: Db, t: nat, r: nat)
    ensures Claims(db, t, r) <==>
              && r in db.sessions && db.sessions[r].owner == None
              && (db.sessions[r].status == Active || db.sessions[r].status == Idle)
              && FirstToName(db, t, r)
  {
  }

  /**
   * A link to an existing session survives exactly when that session is active or idle and either owned by the
   * trajectory, or ownerless with the trajectory the first to name it; other links are not looked at.
   */
  lemma LinksAfter(db: Db, after: Db, t: nat, r: nat)
    requires IsBackfilled(db, after) && t in db.trajectories && db.trajectories[t].remote == Some(r)
    ensures t in after.trajectories && (after.trajectories[t].remote == None || after.trajectories[t].remote == Some(r))
    ensures after.trajectories[t].remote == Some(r) <==>
              r in db.sessions ==>
                && (db.sessions[r].status == Active || db.sessions[r].status == Idle)
                && (db.sessions[r].owner == Some(t) || (db.sessions[r].owner == None && FirstToName(db, t, r)))
  {
    ClaimsMeans(db, t, r);
    if r in db.sessions {
      LinkKeptExactly(db, after, t, r);
    } else {
      Untouched(db, after, t);
    }
  }

  lemma Untouched(db: Db, after: Db, t: nat)
    requires IsBackfilled(db, after) && t in db.trajectories && Joined(db, t) == None
    ensures t in after.trajectories && after.trajectories[t] == db.trajectories[t]
  {
    var mid :| IsAfterHalf(AfterCross(db), mid) && after == AfterStale(mid);
    assert mid.trajectories[t] == db.trajectories[t];
  }

  lemma HalfKeepsStatus(db: Db, mid: Db, t: nat)
    requires IsAfterHalf(db, mid) && t in db.trajectories
    ensures t in mid.trajectories && mid.trajectories[t].recordStatus == db.trajectories[t].recordStatus
    ensures mid.trajectories[t].remote == None || mid.trajectories[t].remote == db.trajectories[t].remote
  {
  }

  /**
   * Rows stay as they are otherwise: none is added or dropped, no trajectory gains a link, and a recording's status
   * changes exactly from live to draft, where its link named a session of another trajectory.
   */
  lemma StatusesAfter(db: Db, after: Db, t: nat)
    requires IsBackfilled(db, after)
    ensures after.trajectories.Keys == db.trajectories.Keys && after.sessions.Keys == db.sessions.Keys
    ensures t in db.trajectories ==>
              var was, now := db.trajectories[t], after.trajectories[t];
              && (was.remote == None ==> now == was)
              && now.recordStatus ==
                   if was.recordStatus == "live" && was.remote.Some? && was.remote.value in db.sessions
                      && db.sessions[was.remote.value].owner.Some? && db.sessions[was.remote.value].owner != Some(t)
                   then "draft" else was.recordStatus
  {
    var cross := AfterCross(db);
    var mid :| IsAfterHalf(cross, mid) && after == AfterStale(mid);
    if t in db.trajectories {
      HalfKeepsStatus(cross, mid, t);
      if db.trajectories[t].remote == None { Untouched(db, after, t); }
    }
  }

  /** Afterwards every link to an existing session is to an active or idle one that the trajectory alone owns. */
  lemma LinkedMeans(db: Db)
    ensures Linked(db) <==>
              forall t, r | t in db.trajectories && db.trajectories[t].remote == Some(r) && r in db.sessions ::
                (db.sessions[r].status == Active || db.sessions[r].status == Idle) && db.sessions[r].owner == Some(t)
  {
    if forall t, r | t in db.trajectories && db.trajectories[t].remote == Some(r) && r in db.sessions ::
         (db.sessions[r].status == Active || db.sessions[r].status == Idle) && db.sessions[r].owner == Some(t) {
      forall t | t in db.trajectories && Joined(db, t).Some?
        ensures Occupied(Joined(db, t).value.status) && Joined(db, t).value.owner == Some(t)
      {
        assert db.trajectories[t].remote == Some(db.trajectories[t].remote.value);
      }
    }
  }
}
