/** Choosing the executor node for a new session: `pickExecutorNode`. */
module NodePicking {
  import opened Options

  datatype Status = Online | Draining | Offline

  datatype NodeRow = NodeRow(capacity: int, status: Status)

  /**
   * What one pick can see: the stored node rows (empty when the query failed), the connected nodes, the use
   * counts at that moment, the nodes whose probe finds a reusable browser, and the collation of node names.
   */
  datatype View = View(
    rows: map<string, NodeRow>,
    connected: seq<string>,
    inUse: map<string, nat>,
    idleChrome: set<string>,
    collate: string -> int)

  datatype Request = Request(preferred: Option<string>, preferIdleChrome: bool)

  datatype Failure = NotConnected | NodeDraining | NoFreeSlots | NoExecutorOnline

  datatype Picked = Ok(nodeUuid: string, reusesChrome: bool) | Err(failure: Failure)

  /** An unknown row, or a capacity of zero, counts as one slot. */
  function CapacityOf(view: View, nodeUuid: string): nat {
    if nodeUuid in view.rows && view.rows[nodeUuid].capacity > 1 then view.rows[nodeUuid].capacity else 1
  }

  predicate IsDraining(view: View, nodeUuid: string) {
    nodeUuid in view.rows && !view.rows[nodeUuid].status.Online?
  }

  function InUse(view: View, nodeUuid: string): nat {
    if nodeUuid in view.inUse then view.inUse[nodeUuid] else 0
  }

  predicate HasRoom(view: View, nodeUuid: string) {
    InUse(view, nodeUuid) < CapacityOf(view, nodeUuid)
  }

  predicate Eligible(view: View, nodeUuid: string) {
    nodeUuid in view.connected && !IsDraining(view, nodeUuid) && HasRoom(view, nodeUuid)
  }

  function Candidates(view: View, nodes: seq<string>): seq<string> {
    if nodes == [] then []
    else (if !IsDraining(view, nodes[0]) && HasRoom(view, nodes[0]) then [nodes[0]] else [])
         + Candidates(view, nodes[1..])
  }

  function IdleRank(view: View, probe: bool, nodeUuid: string): nat {
    if probe && nodeUuid !in view.idleChrome then 1 else 0
  }

  /** The sort order: idle browsers first when probing, then fewer sessions, then the name. */
  predicate Before(view: View, probe: bool, a: string, b: string) {
    var i, j := IdleRank(view, probe, a), IdleRank(view, probe, b);
    var m, n := InUse(view, a), InUse(view, b);
    i < j || (i == j && (m < n || (m == n && view.collate(a) < view.collate(b))))
  }

  /** The head of the stably sorted candidate list. */
  function First(view: View, probe: bool, nodes: seq<string>): string
    requires nodes != []
  {
    if |nodes| == 1 then nodes[0]
    else
      var rest := First(view, probe, nodes[1..]);
      if Before(view, probe, rest, nodes[0]) then rest else nodes[0]
  }

  /** `pickExecutorNode`. */
  function Pick(view: View, req: Request): Picked {
    match req.preferred
    case Some(n) =>
      if n !in view.connected then Err(NotConnected)
      else if IsDraining(view, n) then Err(NodeDraining)
      else if !HasRoom(view, n) then Err(NoFreeSlots)
      else Ok(n, req.preferIdleChrome && n in view.idleChrome)
    case None =>
      if view.connected == [] then Err(NoExecutorOnline)
      else
        var c := Candidates(view, view.connected);
        if c == [] then Err(NoFreeSlots)
        else
          var n := First(view, req.preferIdleChrome, c);
          Ok(n, req.preferIdleChrome && n in view.idleChrome)
  }

  lemma {:induction false} CandidatesExact(view: View, nodes: seq<string>, n: string)
    ensures n in Candidates(view, nodes) <==> n in nodes && !IsDraining(view, n) && HasRoom(view, n)
  {
    if nodes != [] {
      CandidatesExact(view, nodes[1..], n);
      assert nodes == [nodes[0]] + nodes[1..];
    }
  }

  lemma {:induction false} FirstIsLeast(view: View, probe: bool, nodes: seq<string>)
    requires nodes != []
    ensures First(view, probe, nodes) in nodes
    ensures forall n <- nodes :: !Before(view, probe, n, First(view, probe, nodes))
  {
    if |nodes| > 1 {
      FirstIsLeast(view, probe, nodes[1..]);
      assert nodes == [nodes[0]] + nodes[1..];
    }
  }

  /**
   * A pick succeeds exactly when an eligible node exists (the preferred one, if named), the node it returns is
   * eligible, and no eligible node comes before it in the sort order.
   */
  lemma PickIsSoundAndComplete(view: View, req: Request)
    ensures Pick(view, req).Ok? ==> Eligible(view, Pick(view, req).nodeUuid)
    ensures req.preferred.Some? ==>
              && (Pick(view, req).Ok? <==> Eligible(view, req.preferred.value))
              && (Pick(view, req).Ok? ==> Pick(view, req).nodeUuid == req.preferred.value)
    ensures req.preferred.None? ==>
              && (Pick(view, req).Ok? <==> exists n <- view.connected :: Eligible(view, n))
              && (Pick(view, req).Ok? ==>
                    forall n <- view.connected :: Eligible(view, n)
                      ==> !Before(view, req.preferIdleChrome, n, Pick(view, req).nodeUuid))
              && (Pick(view, req) == Err(NoExecutorOnline) <==> view.connected == [])
  {
    if req.preferred.None? {
      var c := Candidates(view, view.connected);
      forall n ensures n in c <==> n in view.connected && Eligible(view, n) {
        CandidatesExact(view, view.connected, n);
      }
      if c != [] {
        FirstIsLeast(view, req.preferIdleChrome, c);
        assert c[0] in c;
      }
    }
  }

  /** An idle browser is reused exactly when one was asked for and some eligible node (the named one, if any) has one. */
  lemma PickReusesIdleBrowser(view: View, req: Request)
    requires Pick(view, req).Ok?
    ensures Pick(view, req).reusesChrome <==>
            && req.preferIdleChrome
            && exists n <- view.connected :: Eligible(view, n) && n in view.idleChrome && (req.preferred.Some? ==> n == req.preferred.value)
  {
    PickIsSoundAndComplete(view, req);
    var picked := Pick(view, req).nodeUuid;
    if req.preferred.None? && req.preferIdleChrome {
      forall n | n in view.connected && Eligible(view, n) && n in view.idleChrome ensures picked in view.idleChrome {
        assert !Before(view, true, n, picked);
      }
    }
  }

  /** Which error a failed pick reports. */
  lemma PickReportsCause(view: View, req: Request)
    requires Pick(view, req).Err?
    ensures var why := Pick(view, req).failure;
            match req.preferred
            case Some(n) =>
              && (why == NotConnected <==> n !in view.connected)
              && (why == NodeDraining <==> n in view.connected && IsDraining(view, n))
              && (why == NoFreeSlots <==> n in view.connected && !IsDraining(view, n))
            case None => why == if view.connected == [] then NoExecutorOnline else NoFreeSlots
  {
  }

  /** Read off the rows and counts: up, and holding fewer than its capacity; without a row, a node is up with one slot. */
  predicate Serves(view: View, n: string) {
    && n in view.connected
    && (n in view.rows ==> view.rows[n].status == Online)
    && var use: int := if n in view.inUse then view.inUse[n] else 0;
       use < (if n in view.rows && view.rows[n].capacity >= 1 then view.rows[n].capacity else 1)
  }

  lemma ServesIsEligible(view: View, n: string)
    ensures Serves(view, n) <==> Eligible(view, n)
  {
  }

  /**
   * Without a named node, the pick serves; no serving node has an idle browser that was asked for while the pick has
   * none, and among nodes alike in that, none holds fewer sessions, nor as many under an earlier name. With a named
   * node, it is that one or nothing.
   */
  lemma PickIsLeastLoaded(view: View, req: Request, m: string)
    requires Pick(view, req).Ok?
    ensures var n := Pick(view, req).nodeUuid;
            && Serves(view, n)
            && (req.preferred.Some? ==> n == req.preferred.value)
            && (req.preferred.None? && Serves(view, m) ==>
                  var mine: int := if n in view.inUse then view.inUse[n] else 0;
                  var other: int := if m in view.inUse then view.inUse[m] else 0;
                  && (req.preferIdleChrome && m in view.idleChrome ==> n in view.idleChrome)
                  && (!req.preferIdleChrome || (m in view.idleChrome <==> n in view.idleChrome) ==>
                        mine < other || (mine == other && view.collate(n) <= view.collate(m))))
  {
    PickIsSoundAndComplete(view, req);
    ServesIsEligible(view, Pick(view, req).nodeUuid);
    ServesIsEligible(view, m);
    if req.preferred.None? && Serves(view, m) {
      assert !Before(view, req.preferIdleChrome, m, Pick(view, req).nodeUuid);
    }
  }

  /** A pick fails exactly when no node serves, or the named one does not; the error says which guard refused it. */
  lemma PickFailsExactly(view: View, req: Request)
    ensures Pick(view, req).Err? <==>
              match req.preferred case Some(n) => !Serves(view, n) case None => forall n <- view.connected :: !Serves(view, n)
    ensures Pick(view, req) == Err(NodeDraining) ==>
              req.preferred.Some? && req.preferred.value in view.rows && view.rows[req.preferred.value].status != Online
  {
    PickIsSoundAndComplete(view, req);
    forall n ensures Serves(view, n) <==> Eligible(view, n) { ServesIsEligible(view, n); }
    if Pick(view, req).Err? { PickReportsCause(view, req); }
  }
}
