/** The backfill's three loops, updating the two tables row by row. */
module BackfillDatabases {
  import opened Options
  import opened SessionBackfill

  /** The row order of the second query: by session, then by trajectory. */
  predicate RowAfter(db: Db, t: nat, u: nat)
    requires Joined(db, t).Some? && Joined(db, u).Some?
  {
    var r, q := db.trajectories[t].remote.value, db.trajectories[u].remote.value;
    r < q || (r == q && t <= u)
  }

  lemma FirstRow(db: Db, rows: set<nat>)
    requires rows != {} && forall t <- rows :: Joined(db, t).Some?
    ensures exists t :: t in rows && forall u <- rows :: RowAfter(db, t, u)
  {
    var t :| t in rows;
    if rows != {t} {
      var rest := rows - {t};
      FirstRow(db, rest);
      var m :| m in rest && forall u <- rest :: RowAfter(db, m, u);
      var first := if RowAfter(db, t, m) then t else m;
      assert forall u <- rows :: u == t || u in rest;
      assert first in rows && forall u <- rows :: RowAfter(db, first, u);
    } else {
      assert forall u <- rows :: RowAfter(db, t, u);
    }
  }

  predicate HalfRow(db: Db, t: nat, r: nat) {
    t in db.trajectories && HalfEmpty(db, t) && db.trajectories[t].remote == Some(r)
  }

  /** The second loop has already visited this row. */
  predicate Visited(db: Db, todo: set<nat>, t: nat, r: nat) {
    HalfRow(db, t, r) && t !in todo
  }

  predicate TrajectoryDone(db: Db, now: Db, todo: set<nat>, t: nat, winners: map<nat, nat>) {
    t in db.trajectories ==>
      t in now.trajectories
      && now.trajectories[t]
         == if HalfEmpty(db, t) && t !in todo && !Wins(winners, t, db.trajectories[t].remote.value)
            then Cleared(db, t) else db.trajectories[t]
  }

  predicate Wins(winners: map<nat, nat>, t: nat, r: nat) {
    r in winners && winners[r] == t
  }

  predicate SessionDone(db: Db, now: Db, winners: map<nat, nat>, r: nat) {
    r in db.sessions ==>
      r in now.sessions
      && now.sessions[r] == if r in winners then db.sessions[r].(owner := Some(winners[r])) else db.sessions[r]
  }

  /** The winner of a session is its first row; a session is claimed once its first row has been visited. */
  ghost predicate WinnerOk(db: Db, todo: set<nat>, claimed: set<nat>, winners: map<nat, nat>, r: nat) {
    && (r in claimed <==> r in winners)
    && (r in winners ==> Visited(db, todo, winners[r], r) && forall u | HalfRow(db, u, r) :: winners[r] <= u)
    && (r !in winners ==> forall u | HalfRow(db, u, r) :: u in todo)
  }

  /** The state in the middle of the second loop: the rows in `todo` are still to come, `winners` is history. */
  ghost predicate HalfDone(db: Db, now: Db, todo: set<nat>, claimed: set<nat>, winners: map<nat, nat>) {
    && now.trajectories.Keys == db.trajectories.Keys && now.sessions.Keys == db.sessions.Keys
    && (forall t <- todo :: t in db.trajectories && HalfEmpty(db, t))
    && (forall t :: TrajectoryDone(db, now, todo, t, winners))
    && (forall r :: SessionDone(db, now, winners, r))
    && (forall r :: WinnerOk(db, todo, claimed, winners, r))
  }

  predicate Next(db: Db, todo: set<nat>, t: nat)
    requires forall u <- todo :: Joined(db, u).Some?
  {
    t in todo && forall u <- todo :: RowAfter(db, t, u)
  }

  /** The write for one row of the second query. */
  function HalfStep(now: Db, claimed: set<nat>, t: nat, r: nat): Db
    requires t in now.trajectories && r in now.sessions
  {
    if r in claimed then now.(trajectories := now.trajectories[t := now.trajectories[t].(remote := None)])
    else now.(sessions := now.sessions[r := now.sessions[r].(owner := Some(t))])
  }

  lemma HalfStepKeeps(db: Db, now: Db, todo: set<nat>, claimed: set<nat>, winners: map<nat, nat>, t: nat) returns (won: map<nat, nat>)
    requires HalfDone(db, now, todo, claimed, winners) && Next(db, todo, t)
    ensures var r := db.trajectories[t].remote.value;
            HalfDone(db, HalfStep(now, claimed, t, r), todo - {t}, claimed + {r}, won)
  {
    var r := db.trajectories[t].remote.value;
    assert WinnerOk(db, todo, claimed, winners, r) && TrajectoryDone(db, now, todo, t, winners);
    won := if r in claimed then winners else winners[r := t];
    var next, left := HalfStep(now, claimed, t, r), todo - {t};
    forall u ensures TrajectoryDone(db, next, left, u, won) {
      assert TrajectoryDone(db, now, todo, u, winners);
      if u in db.trajectories && HalfEmpty(db, u) {
        assert WinnerOk(db, todo, claimed, winners, db.trajectories[u].remote.value);
      }
    }
    forall q ensures SessionDone(db, next, won, q) { assert SessionDone(db, now, winners, q); }
    forall q ensures WinnerOk(db, left, claimed + {r}, won, q) {
      assert WinnerOk(db, todo, claimed, winners, q);
      if q == r && r !in claimed {
        forall u | HalfRow(db, u, r) ensures t <= u { assert RowAfter(db, t, u); }
      }
    }
  }

  lemma HalfDoneAtEnd(db: Db, now: Db, claimed: set<nat>, winners: map<nat, nat>)
    requires HalfDone(db, now, {}, claimed, winners)
    ensures IsAfterHalf(db, now)
  {
    forall t, r: nat ensures Claims(db, t, r) <==> Wins(winners, t, r) {
      assert WinnerOk(db, {}, claimed, winners, r);
      if Claims(db, t, r) { assert HalfRow(db, t, r); }
      if Wins(winners, t, r) {
        forall u | u in db.trajectories && HalfEmpty(db, u) && db.trajectories[u].remote == Some(r) ensures t <= u {
          assert HalfRow(db, u, r);
        }
      }
    }
    forall t | t in db.trajectories
      ensures now.trajectories[t] ==
              if HalfEmpty(db, t) && !Claims(db, t, db.trajectories[t].remote.value) then Cleared(db, t) else db.trajectories[t]
    {
      assert TrajectoryDone(db, now, {}, t, winners);
    }
    forall r | r in db.sessions
      ensures now.sessions[r] == if r in winners then db.sessions[r].(owner := Some(winners[r])) else db.sessions[r]
      ensures r in winners ==> Claims(db, winners[r], r)
    {
      assert SessionDone(db, now, winners, r);
      assert r in winners ==> Wins(winners, winners[r], r);
    }
  }

  class BackfillDatabase {
    var trajectories: map<nat, Trajectory>
    var sessions: map<nat, Session>

    function Rows(): Db
      reads this
    {
      Db(trajectories, sessions)
    }

    /** `up`, after the column exists. */
    method Up()
      modifies this
      ensures IsBackfilled(old(Rows()), Rows())
      ensures Linked(Rows())
    {
      ghost var before := Rows();
      ClearCrossed();
      ClaimHalfEmpty();
      ghost var mid := Rows();
      ClearStale();
      assert IsAfterHalf(AfterCross(before), mid) && Rows() == AfterStale(mid);
      BackfillLinks(before, Rows());
    }

    method ClearCrossed()
      modifies `trajectories
      ensures Rows() == AfterCross(old(Rows()))
    {
      var db := Rows();
      var cross := set t <- trajectories | Crossed(db, t);
      var todo := cross;
      while todo != {}
        invariant todo <= cross && trajectories.Keys == db.trajectories.Keys
        invariant forall t <- db.trajectories ::
                    trajectories[t] == if t in cross - todo then Demoted(db.trajectories[t]) else db.trajectories[t]
        decreases todo
      {
        var t :| t in todo;
        trajectories := trajectories[t := Demoted(trajectories[t])];
        todo := todo - {t};
      }
    }

    method ClaimHalfEmpty()
      modifies this
      ensures IsAfterHalf(old(Rows()), Rows())
    {
      var db := Rows();
      var half := set t <- trajectories | HalfEmpty(db, t);
      var claimed: set<nat> := {};
      ghost var winners: map<nat, nat> := map[];
      while half != {}
        invariant HalfDone(db, Rows(), half, claimed, winners)
        decreases half
      {
        FirstRow(db, half);
        var t :| t in half && forall u <- half :: RowAfter(db, t, u);
        var r := db.trajectories[t].remote.value;
        winners := HalfStepKeeps(db, Rows(), half, claimed, winners, t);
        if r in claimed {
          trajectories := trajectories[t := trajectories[t].(remote := None)];
        } else {
          sessions := sessions[r := sessions[r].(owner := Some(t))];
        }
        claimed := claimed + {r};
        half := half - {t};
      }
      HalfDoneAtEnd(db, Rows(), claimed, winners);
    }

    method ClearStale()
      modifies `trajectories
      ensures Rows() == AfterStale(old(Rows()))
    {
      var db := Rows();
      var stale := set t <- trajectories | Stale(db, t);
      var todo := stale;
      while todo != {}
        invariant todo <= stale && trajectories.Keys == db.trajectories.Keys
        invariant forall t <- db.trajectories ::
                    trajectories[t] == if t in stale - todo then Cleared(db, t) else db.trajectories[t]
        decreases todo
      {
        var t :| t in todo;
        trajectories := trajectories[t := trajectories[t].(remote := None)];
        todo := todo - {t};
      }
    }
  }
}
