/**
 * The migration that merges the `process` and `function_def` tables into the unified `system` tree
 * (`migrations/20260716114536_merge_hierarchy_to_system.js`).
 */
module HierarchyMerge {
  import opened Options

  datatype Process = Process(id: nat, uuid: string, systemId: nat, name: string, sortOrder: Option<nat>)

  datatype FunctionDef = FunctionDef(id: nat, uuid: string, processId: nat, name: string, sortOrder: Option<nat>)

  datatype SystemRow = SystemRow(uuid: string, kind: nat, parentId: Option<nat>, name: string, sortOrder: nat)

  datatype Tree = Tree(rows: map<nat, SystemRow>, nextId: nat)

  /** Old row id -> id in the unified table. */
  type IdMap = map<nat, nat>

  function FirstWithUuid(rows: map<nat, SystemRow>, uuid: string, below: nat): (k: Option<nat>)
    ensures k.Some? ==> k.value in rows && rows[k.value].uuid == uuid
    ensures k.None? ==> forall i | i in rows && i < below :: rows[i].uuid != uuid
  {
    if below == 0 then None
    else
      var k := FirstWithUuid(rows, uuid, below - 1);
      if k.Some? then k
      else if below - 1 in rows && rows[below - 1].uuid == uuid then Some(below - 1) else None
  }

  function Lookup(t: Tree, uuid: string): Option<nat> {
    FirstWithUuid(t.rows, uuid, t.nextId)
  }

  function Insert(t: Tree, row: SystemRow): Tree {
    Tree(t.rows[t.nextId := row], t.nextId + 1)
  }

  function Listed<T>(table: Option<seq<T>>): seq<T> {
    if table.Some? then table.value else []
  }

  function GetOr(o: Option<nat>, d: nat): nat {
    if o.Some? then o.value else d
  }

  /** One round of the process loop. */
  function AddProcess(t: Tree, pm: IdMap, p: Process): (Tree, IdMap) {
    match Lookup(t, p.uuid)
    case Some(k) => (t, pm[p.id := k])
    case None =>
      (Insert(t, SystemRow(p.uuid, 1, Some(p.systemId), p.name, GetOr(p.sortOrder, 0))), pm[p.id := t.nextId])
  }

  /** One round of the function loop; a function without a mapped process is skipped. */
  function AddFunction(t: Tree, pm: IdMap, fm: IdMap, f: FunctionDef): (Tree, IdMap) {
    match Lookup(t, f.uuid)
    case Some(k) => (t, fm[f.id := k])
    case None =>
      if f.processId !in pm then (t, fm)
      else
        (Insert(t, SystemRow(f.uuid, 2, Some(pm[f.processId]), f.name, GetOr(f.sortOrder, 0))), fm[f.id := t.nextId])
  }

  function AddProcesses(t: Tree, ps: seq<Process>): (Tree, IdMap) {
    if ps == [] then (t, map[])
    else var (t1, pm) := AddProcesses(t, ps[..|ps| - 1]); AddProcess(t1, pm, ps[|ps| - 1])
  }

  function AddFunctions(t: Tree, pm: IdMap, fs: seq<FunctionDef>): (Tree, IdMap) {
    if fs == [] then (t, map[])
    else var (t1, fm) := AddFunctions(t, pm, fs[..|fs| - 1]); AddFunction(t1, pm, fm, fs[|fs| - 1])
  }

  /** A trajectory's new function id: mapped, or kept if it already names a unified row, or cleared. */
  function Remapped(rows: map<nat, SystemRow>, fm: IdMap, functionId: Option<nat>): Option<nat> {
    if functionId.None? then None
    else if functionId.value in fm then Some(fm[functionId.value])
    else if functionId.value in rows then functionId else None
  }

  /** The tables that an attempt reads and writes besides the two old ones. */
  datatype Content = Content(tree: Tree, trajectories: map<nat, Option<nat>>)

  /** Everything `up` does before it drops the old tables. */
  function Attempt(db: Content, ps: seq<Process>, fs: seq<FunctionDef>): Content {
    var (t1, pm) := AddProcesses(db.tree, ps);
    var (t2, fm) := AddFunctions(t1, pm, fs);
    Content(
      t2,
      if fm == map[] then db.trajectories
      else map x <- db.trajectories :: Remapped(t2.rows, fm, db.trajectories[x]))
  }

  // ---------------------------------------------------------------- the migration, in place

  class Database {
    var rows: map<nat, SystemRow>
    var nextId: nat
    var processes: Option<seq<Process>>
    var functions: Option<seq<FunctionDef>>
    var trajectories: map<nat, Option<nat>> // trajectory id -> function id

    function Unified(): Tree
      reads this
    {
      Tree(rows, nextId)
    }

    function All(): Content
      reads this
    {
      Content(Unified(), trajectories)
    }

    /** `up`, from the point where the unified columns exist. */
    method Up()
      modifies this
      ensures processes.None? && functions.None?
      ensures old(processes).None? && old(functions).None? ==> All() == old(All())
      ensures old(processes).Some? || old(functions).Some? ==>
                All() == Attempt(old(All()), Listed(old(processes)), Listed(old(functions)))
    {
      if processes.None? && functions.None? {
        return;
      }
      MoveAndRemap(Listed(processes), Listed(functions));
      processes, functions := None, None;
    }

    /** Where an interrupted attempt may stop: the old tables are still there. */
    method MoveAndRemap(ps: seq<Process>, fs: seq<FunctionDef>)
      modifies `rows, `nextId, `trajectories
      ensures All() == Attempt(old(All()), ps, fs)
    {
      var pm := MoveProcesses(ps);
      var fm := MoveFunctions(pm, fs);
      if fm != map[] {
        RemapTrajectories(fm);
      }
    }

    method MoveProcesses(ps: seq<Process>) returns (pm: IdMap)
      modifies `rows, `nextId
      ensures (Unified(), pm) == AddProcesses(old(Unified()), ps)
    {
      pm := map[];
      for i := 0 to |ps|
        invariant (Unified(), pm) == AddProcesses(old(Unified()), ps[..i])
      {
        var p := ps[i];
        assert ps[..i + 1][..i] == ps[..i];
        var existing := FirstWithUuid(rows, p.uuid, nextId);
        if existing.Some? {
          pm := pm[p.id := existing.value];
        } else {
          rows := rows[nextId := SystemRow(p.uuid, 1, Some(p.systemId), p.name, GetOr(p.sortOrder, 0))];
          pm := pm[p.id := nextId];
          nextId := nextId + 1;
        }
      }
      assert ps[..|ps|] == ps;
    }

    method MoveFunctions(pm: IdMap, fs: seq<FunctionDef>) returns (fm: IdMap)
      modifies `rows, `nextId
      ensures (Unified(), fm) == AddFunctions(old(Unified()), pm, fs)
    {
      fm := map[];
      for i := 0 to |fs|
        invariant (Unified(), fm) == AddFunctions(old(Unified()), pm, fs[..i])
      {
        var f := fs[i];
        assert fs[..i + 1][..i] == fs[..i];
        var existing := FirstWithUuid(rows, f.uuid, nextId);
        if existing.Some? {
          fm := fm[f.id := existing.value];
        } else if f.processId in pm {
          rows := rows[nextId := SystemRow(f.uuid, 2, Some(pm[f.processId]), f.name, GetOr(f.sortOrder, 0))];
          fm := fm[f.id := nextId];
          nextId := nextId + 1;
        }
      }
      assert fs[..|fs|] == fs;
    }

    method RemapTrajectories(fm: IdMap)
      modifies `trajectories
      ensures trajectories == map t <- old(trajectories) :: Remapped(rows, fm, old(trajectories)[t])
    {
      var todo := trajectories.Keys;
      while todo != {}
        invariant todo <= trajectories.Keys == old(trajectories).Keys
        invariant forall t <- trajectories ::
                    trajectories[t] == if t in todo then old(trajectories)[t] else Remapped(rows, fm, old(trajectories)[t])
      {
        var t :| t in todo;
        var functionId := trajectories[t];
        if functionId.Some? {
          if functionId.value in fm {
            trajectories := trajectories[t := Some(fm[functionId.value])];
          } else if functionId.value !in rows {
            trajectories := trajectories[t := None];
          }
        }
        todo := todo - {t};
      }
    }
  }

  // ---------------------------------------------------------------- meaning

  ghost predicate FreshIds(t: Tree) {
    forall k <- t.rows :: k < t.nextId
  }

  ghost predicate Extends(t: Tree, t': Tree) {
    forall k <- t.rows :: k in t'.rows && t'.rows[k] == t.rows[k]
  }

  ghost predicate DistinctProcesses(ps: seq<Process>) {
    forall i, j | 0 <= i < j < |ps| :: ps[i].id != ps[j].id && ps[i].uuid != ps[j].uuid
  }

  ghost predicate DistinctFunctions(fs: seq<FunctionDef>) {
    forall i, j | 0 <= i < j < |fs| :: fs[i].id != fs[j].id && fs[i].uuid != fs[j].uuid
  }

  /** Row `k` is process `p`: its UUID, under its system. */
  predicate NamesProcess(t: Tree, k: nat, p: Process) {
    k in t.rows && t.rows[k].uuid == p.uuid && t.rows[k].parentId == Some(p.systemId)
  }

  /** Row `k` is function `f` of process `p`: its UUID, under a row that is `p`. */
  predicate NamesFunction(t: Tree, k: nat, f: FunctionDef, p: Process) {
    && k in t.rows && t.rows[k].uuid == f.uuid
    && t.rows[k].parentId.Some? && NamesProcess(t, t.rows[k].parentId.value, p)
  }

  /** Rows that an interrupted earlier attempt left behind are already right; a first attempt has none. */
  ghost predicate LeftoversRight(t: Tree, ps: seq<Process>, fs: seq<FunctionDef>) {
    && (forall k, p | k in t.rows && p in ps :: t.rows[k].uuid == p.uuid ==> NamesProcess(t, k, p))
    && (forall f <- fs :: FunctionLeftoverRight(t, ps, f))
  }

  ghost predicate FunctionLeftoverRight(t: Tree, ps: seq<Process>, f: FunctionDef) {
    forall k, p | k in t.rows && Owner(ps, f, p) :: t.rows[k].uuid == f.uuid ==> NamesFunction(t, k, f, p)
  }

  ghost predicate NewRowsFrom(t: Tree, t': Tree, uuids: set<string>) {
    forall k <- t'.rows :: k !in t.rows ==> t'.rows[k].uuid in uuids
  }

  function ProcessUuids(ps: seq<Process>): set<string> { set p <- ps :: p.uuid }

  function FunctionUuids(fs: seq<FunctionDef>): set<string> { set f <- fs :: f.uuid }

  /** The row found or made for `p` is `p`, and the rows before it stay as they were. */
  lemma AddProcessKeeps(t: Tree, t1: Tree, pm: IdMap, p: Process, done: set<string>)
    requires FreshIds(t1) && Extends(t, t1) && NewRowsFrom(t, t1, done) && p.uuid !in done
    requires forall k <- t.rows :: t.rows[k].uuid == p.uuid ==> NamesProcess(t, k, p)
    ensures var (t2, pm2) := AddProcess(t1, pm, p);
            && FreshIds(t2) && Extends(t, t2) && Extends(t1, t2) && NewRowsFrom(t, t2, done + {p.uuid})
            && pm2 == pm[p.id := pm2[p.id]] && NamesProcess(t2, pm2[p.id], p)
  {
    if Lookup(t1, p.uuid).Some? {
      var k := Lookup(t1, p.uuid).value;
      assert k in t.rows;
    }
  }

  lemma DistinctFromFront(ps: seq<Process>, q: Process)
    requires ps != [] && DistinctProcesses(ps) && q in ps[..|ps| - 1]
    ensures q.id != ps[|ps| - 1].id && q.uuid != ps[|ps| - 1].uuid
  {
    var i :| 0 <= i < |ps| - 1 && ps[i] == q;
  }

  lemma {:induction false} ProcessesKeepMeaning(t: Tree, ps: seq<Process>)
    requires FreshIds(t) && DistinctProcesses(ps)
    requires forall k, p | k in t.rows && p in ps :: t.rows[k].uuid == p.uuid ==> NamesProcess(t, k, p)
    ensures var (t1, pm) := AddProcesses(t, ps);
            && FreshIds(t1) && Extends(t, t1) && NewRowsFrom(t, t1, ProcessUuids(ps))
            && (forall p <- ps :: p.id in pm && NamesProcess(t1, pm[p.id], p))
  {
    if ps != [] {
      var front, p := ps[..|ps| - 1], ps[|ps| - 1];
      ProcessesKeepMeaning(t, front);
      var (t1, pm) := AddProcesses(t, front);
      assert ps == front + [p];
      forall q | q in front ensures q.id != p.id && q.uuid != p.uuid { DistinctFromFront(ps, q); }
      ProcessStep(t, t1, pm, front, p);
    }
  }

  lemma ProcessStep(t: Tree, t1: Tree, pm: IdMap, front: seq<Process>, p: Process)
    requires FreshIds(t1) && Extends(t, t1) && NewRowsFrom(t, t1, ProcessUuids(front))
    requires forall k <- t.rows :: t.rows[k].uuid == p.uuid ==> NamesProcess(t, k, p)
    requires forall q <- front :: q.id != p.id && q.uuid != p.uuid && q.id in pm && NamesProcess(t1, pm[q.id], q)
    ensures var (t2, pm2) := AddProcess(t1, pm, p);
            && FreshIds(t2) && Extends(t, t2) && NewRowsFrom(t, t2, ProcessUuids(front + [p]))
            && (forall q <- front + [p] :: q.id in pm2 && NamesProcess(t2, pm2[q.id], q))
  {
    AddProcessKeeps(t, t1, pm, p, ProcessUuids(front));
    assert ProcessUuids(front + [p]) == ProcessUuids(front) + {p.uuid};
  }

  lemma AddFunctionKeeps(t: Tree, t1: Tree, pm: IdMap, fm: IdMap, f: FunctionDef, p: Process, done: set<string>)
    requires FreshIds(t1) && Extends(t, t1) && NewRowsFrom(t, t1, done) && f.uuid !in done
    requires forall k <- t.rows :: t.rows[k].uuid == f.uuid ==> NamesFunction(t, k, f, p)
    requires f.processId in pm && NamesProcess(t, pm[f.processId], p)
    ensures var (t2, fm2) := AddFunction(t1, pm, fm, f);
            && FreshIds(t2) && Extends(t, t2) && Extends(t1, t2) && NewRowsFrom(t, t2, done + {f.uuid})
            && f.id in fm2 && fm2 == fm[f.id := fm2[f.id]] && NamesFunction(t2, fm2[f.id], f, p)
  {
    if Lookup(t1, f.uuid).Some? {
      var k := Lookup(t1, f.uuid).value;
      assert k in t.rows;
    }
  }

  lemma DistinctFunctionFromFront(fs: seq<FunctionDef>, g: FunctionDef)
    requires fs != [] && DistinctFunctions(fs) && g in fs[..|fs| - 1]
    ensures g.id != fs[|fs| - 1].id && g.uuid != fs[|fs| - 1].uuid
  {
    var i :| 0 <= i < |fs| - 1 && fs[i] == g;
  }

  /** The process a function's foreign key names. */
  ghost predicate Owner(ps: seq<Process>, f: FunctionDef, p: Process) {
    p in ps && p.id == f.processId
  }

  ghost predicate HasOwner(ps: seq<Process>, f: FunctionDef) {
    exists p <- ps :: Owner(ps, f, p)
  }

  ghost predicate ForeignKeys(ps: seq<Process>, fs: seq<FunctionDef>) {
    forall f <- fs :: HasOwner(ps, f)
  }

  lemma {:induction false} FunctionsKeepMeaning(t: Tree, pm: IdMap, ps: seq<Process>, fs: seq<FunctionDef>)
    requires FreshIds(t) && DistinctFunctions(fs) && DistinctProcesses(ps) && ForeignKeys(ps, fs)
    requires forall p <- ps :: p.id in pm && NamesProcess(t, pm[p.id], p)
    requires forall f <- fs :: FunctionLeftoverRight(t, ps, f)
    ensures var (t1, fm) := AddFunctions(t, pm, fs);
            && FreshIds(t1) && Extends(t, t1) && NewRowsFrom(t, t1, FunctionUuids(fs))
            && (forall f <- fs :: Mapped(t1, fm, ps, f))
  {
    if fs != [] {
      var front, f := fs[..|fs| - 1], fs[|fs| - 1];
      FunctionsKeepMeaning(t, pm, ps, front);
      assert fs == front + [f];
      forall g | g in front ensures g.id != f.id && g.uuid != f.uuid { DistinctFunctionFromFront(fs, g); }
      FunctionStep(t, pm, ps, front, f);
    }
  }

  lemma FunctionStep(t: Tree, pm: IdMap, ps: seq<Process>, front: seq<FunctionDef>, f: FunctionDef)
    requires DistinctProcesses(ps) && HasOwner(ps, f) && FunctionLeftoverRight(t, ps, f)
    requires forall p <- ps :: p.id in pm && NamesProcess(t, pm[p.id], p)
    requires forall g <- front :: g.id != f.id && g.uuid != f.uuid
    requires var (t1, fm) := AddFunctions(t, pm, front);
             FreshIds(t1) && Extends(t, t1) && NewRowsFrom(t, t1, FunctionUuids(front)) && forall g <- front :: Mapped(t1, fm, ps, g)
    ensures var (t1, fm) := AddFunctions(t, pm, front);
            var (t2, fm2) := AddFunction(t1, pm, fm, f);
            && FreshIds(t2) && Extends(t, t2) && NewRowsFrom(t, t2, FunctionUuids(front + [f]))
            && (forall g <- front + [f] :: Mapped(t2, fm2, ps, g))
  {
    var (t1, fm) := AddFunctions(t, pm, front);
    var (t2, fm2) := AddFunction(t1, pm, fm, f);
    var p :| p in ps && Owner(ps, f, p);
    assert FunctionUuids(front + [f]) == FunctionUuids(front) + {f.uuid};
    AddFunctionKeeps(t, t1, pm, fm, f, p, FunctionUuids(front));
    MappedByOwner(t2, fm2, ps, f, p);
    forall g | g in front ensures Mapped(t2, fm2, ps, g) { MappedStays(t1, fm, t2, fm2, ps, g); }
  }

  /** The id map sends `f` to a row that is `f` of its process. */
  ghost predicate Mapped(t: Tree, fm: IdMap, ps: seq<Process>, f: FunctionDef) {
    forall p <- ps :: Owner(ps, f, p) ==> f.id in fm && NamesFunction(t, fm[f.id], f, p)
  }

  lemma MappedStays(t1: Tree, fm1: IdMap, t2: Tree, fm2: IdMap, ps: seq<Process>, f: FunctionDef)
    requires Mapped(t1, fm1, ps, f) && Extends(t1, t2)
    requires f.id in fm1 ==> f.id in fm2 && fm2[f.id] == fm1[f.id]
    ensures Mapped(t2, fm2, ps, f)
  {
  }

  lemma MappedByOwner(t: Tree, fm: IdMap, ps: seq<Process>, f: FunctionDef, p: Process)
    requires DistinctProcesses(ps) && Owner(ps, f, p) && f.id in fm && NamesFunction(t, fm[f.id], f, p)
    ensures Mapped(t, fm, ps, f)
  {
    forall q <- ps | Owner(ps, f, q) ensures q == p { OwnerUnique(ps, f, p, q); }
  }

  lemma OwnerUnique(ps: seq<Process>, f: FunctionDef, p: Process, q: Process)
    requires DistinctProcesses(ps) && Owner(ps, f, p) && Owner(ps, f, q)
    ensures p == q
  {
    var i :| 0 <= i < |ps| && ps[i] == p;
    var j :| 0 <= j < |ps| && ps[j] == q;
  }

  /** What the source tables promise: keys, foreign keys, and UUIDs distinct within and across the two tables. */
  ghost predicate WellFormed(t: Tree, ps: seq<Process>, fs: seq<FunctionDef>) {
    && FreshIds(t) && DistinctProcesses(ps) && DistinctFunctions(fs) && ForeignKeys(ps, fs)
    && (forall p <- ps :: p.systemId in t.rows)
    && ProcessUuids(ps) !! FunctionUuids(fs)
  }

  lemma LeftoversStayRight(t: Tree, t1: Tree, ps: seq<Process>, fs: seq<FunctionDef>)
    requires LeftoversRight(t, ps, fs) && Extends(t, t1) && NewRowsFrom(t, t1, ProcessUuids(ps))
    requires ProcessUuids(ps) !! FunctionUuids(fs)
    ensures forall f <- fs :: FunctionLeftoverRight(t1, ps, f)
  {
    forall k, f, p | k in t1.rows && f in fs && Owner(ps, f, p) && t1.rows[k].uuid == f.uuid
      ensures NamesFunction(t1, k, f, p)
    {
      assert f.uuid in FunctionUuids(fs);
      assert k in t.rows && FunctionLeftoverRight(t, ps, f);
      assert NamesFunction(t, k, f, p);
    }
  }

  /**
   * The merge preserves meaning: a trajectory that named function `f` now names a row with `f`'s UUID, whose
   * parent has the UUID of `f`'s process `p`, whose parent is the unchanged row of `p`'s system. Rows left by an
   * interrupted earlier attempt are reused.
   */
  lemma MergePreservesMeaning(t: Tree, ps: seq<Process>, fs: seq<FunctionDef>, f: FunctionDef, p: Process)
    requires WellFormed(t, ps, fs) && LeftoversRight(t, ps, fs)
    requires f in fs && Owner(ps, f, p)
    ensures var (t1, pm) := AddProcesses(t, ps);
            var (t2, fm) := AddFunctions(t1, pm, fs);
            var n := Remapped(t2.rows, fm, Some(f.id));
            && n.Some? && n.value in t2.rows && t2.rows[n.value].uuid == f.uuid
            && t2.rows[n.value].parentId.Some?
            && var m := t2.rows[n.value].parentId.value;
               m in t2.rows && t2.rows[m].uuid == p.uuid && t2.rows[m].parentId == Some(p.systemId)
               && p.systemId in t2.rows && t2.rows[p.systemId] == t.rows[p.systemId]
  {
    var (t1, pm) := AddProcesses(t, ps);
    ProcessesKeepMeaning(t, ps);
    LeftoversStayRight(t, t1, ps, fs);
    FunctionsKeepMeaning(t1, pm, ps, fs);
    assert Mapped(AddFunctions(t1, pm, fs).0, AddFunctions(t1, pm, fs).1, ps, f);
  }

  /** No existing row is lost or changed, and nothing is added but the listed processes and functions. */
  lemma MergeOnlyAdds(t: Tree, ps: seq<Process>, fs: seq<FunctionDef>)
    requires WellFormed(t, ps, fs) && LeftoversRight(t, ps, fs)
    ensures var (t1, pm) := AddProcesses(t, ps);
            var (t2, fm) := AddFunctions(t1, pm, fs);
            Extends(t, t2) && NewRowsFrom(t, t2, ProcessUuids(ps) + FunctionUuids(fs))
  {
    var (t1, pm) := AddProcesses(t, ps);
    ProcessesKeepMeaning(t, ps);
    LeftoversStayRight(t, t1, ps, fs);
    FunctionsKeepMeaning(t1, pm, ps, fs);
  }

  // ---------------------------------------------------------------- what new rows carry

  /** The unified row of a process: kind 1, its name, its place, 0 where it had none. */
  predicate CarriesProcess(row: SystemRow, p: Process) {
    && row.uuid == p.uuid && row.kind == 1 && row.parentId == Some(p.systemId) && row.name == p.name
    && row.sortOrder == match p.sortOrder case Some(n) => n case None => 0
  }

  /** The unified row of a function: kind 2, its name, its place, under some row. */
  predicate CarriesFunction(row: SystemRow, f: FunctionDef) {
    && row.uuid == f.uuid && row.kind == 2 && row.parentId.Some? && row.name == f.name
    && row.sortOrder == match f.sortOrder case Some(n) => n case None => 0
  }

  ghost predicate OfProcess(row: SystemRow, ps: seq<Process>) {
    exists p :: p in ps && CarriesProcess(row, p)
  }

  ghost predicate OfFunction(row: SystemRow, fs: seq<FunctionDef>) {
    exists f :: f in fs && CarriesFunction(row, f)
  }

  /** The row of a function that hangs under the row its process is mapped to. */
  ghost predicate HangsUnderProcess(row: SystemRow, pm: IdMap, fs: seq<FunctionDef>) {
    exists f :: f in fs && CarriesFunction(row, f) && f.processId in pm && row.parentId == Some(pm[f.processId])
  }

  lemma {:induction false} ProcessRowsCarry(t: Tree, ps: seq<Process>)
    requires FreshIds(t)
    ensures var t1 := AddProcesses(t, ps).0;
            FreshIds(t1) && Extends(t, t1) && forall k <- t1.rows :: k in t.rows || OfProcess(t1.rows[k], ps)
  {
    if ps != [] {
      var front, p := ps[..|ps| - 1], ps[|ps| - 1];
      assert ps == front + [p];
      ProcessRowsCarry(t, front);
      var (t0, pm) := AddProcesses(t, front);
      var t1 := AddProcess(t0, pm, p).0;
      forall k | k in t1.rows && k !in t.rows ensures OfProcess(t1.rows[k], ps) {
        if k in t0.rows {
          var q :| q in front && CarriesProcess(t0.rows[k], q);
          assert q in ps;
        } else {
          assert CarriesProcess(t1.rows[k], p);
        }
      }
    }
  }

  /** A function without a mapped process gets no row; every other new row hangs under its process. */
  lemma {:induction false} FunctionRowsHang(t: Tree, pm: IdMap, fs: seq<FunctionDef>)
    requires FreshIds(t)
    ensures var t1 := AddFunctions(t, pm, fs).0;
            FreshIds(t1) && Extends(t, t1) && forall k <- t1.rows :: k in t.rows || HangsUnderProcess(t1.rows[k], pm, fs)
  {
    if fs != [] {
      var front, f := fs[..|fs| - 1], fs[|fs| - 1];
      assert fs == front + [f];
      FunctionRowsHang(t, pm, front);
      var (t0, fm) := AddFunctions(t, pm, front);
      var t1 := AddFunction(t0, pm, fm, f).0;
      forall k | k in t1.rows && k !in t.rows ensures HangsUnderProcess(t1.rows[k], pm, fs) {
        if k in t0.rows {
          var g :| g in front && CarriesFunction(t0.rows[k], g) && g.processId in pm && t0.rows[k].parentId == Some(pm[g.processId]);
          assert g in fs;
        } else {
          assert CarriesFunction(t1.rows[k], f);
        }
      }
    }
  }

  lemma FunctionRowsCarry(t: Tree, pm: IdMap, fs: seq<FunctionDef>)
    requires FreshIds(t)
    ensures var t1 := AddFunctions(t, pm, fs).0;
            FreshIds(t1) && Extends(t, t1) && forall k <- t1.rows :: k in t.rows || OfFunction(t1.rows[k], fs)
  {
    FunctionRowsHang(t, pm, fs);
    var t1 := AddFunctions(t, pm, fs).0;
    forall k | k in t1.rows && k !in t.rows ensures OfFunction(t1.rows[k], fs) {
      var f :| f in fs && CarriesFunction(t1.rows[k], f) && f.processId in pm && t1.rows[k].parentId == Some(pm[f.processId]);
    }
  }

  /**
   * Every row the merge adds carries a listed process or function whole, and with distinct UUIDs the one whose UUID
   * it has; every listed UUID has a row.
   */
  lemma NewRowsCarryRecords(t: Tree, ps: seq<Process>, fs: seq<FunctionDef>)
    requires WellFormed(t, ps, fs) && LeftoversRight(t, ps, fs)
    ensures var t2 := AddFunctions(AddProcesses(t, ps).0, AddProcesses(t, ps).1, fs).0;
            && (forall k <- t2.rows :: k !in t.rows ==> OfProcess(t2.rows[k], ps) || OfFunction(t2.rows[k], fs))
            && (forall k, p | k in t2.rows && k !in t.rows && p in ps && t2.rows[k].uuid == p.uuid :: CarriesProcess(t2.rows[k], p))
            && (forall k, f | k in t2.rows && k !in t.rows && f in fs && t2.rows[k].uuid == f.uuid :: CarriesFunction(t2.rows[k], f))
            && (forall p <- ps :: exists k :: k in t2.rows && t2.rows[k].uuid == p.uuid)
            && (forall f <- fs :: exists k :: k in t2.rows && t2.rows[k].uuid == f.uuid)
  {
    var (t1, pm) := AddProcesses(t, ps);
    var t2 := AddFunctions(t1, pm, fs).0;
    ProcessRowsCarry(t, ps);
    FunctionRowsCarry(t1, pm, fs);
    forall k, p | k in t2.rows && k !in t.rows && p in ps && t2.rows[k].uuid == p.uuid ensures CarriesProcess(t2.rows[k], p) {
      ProcessOfRow(t2.rows[k], ps, fs, p);
    }
    forall k, f | k in t2.rows && k !in t.rows && f in fs && t2.rows[k].uuid == f.uuid ensures CarriesFunction(t2.rows[k], f) {
      FunctionOfRow(t2.rows[k], ps, fs, f);
    }
    EveryRecordHasRow(t, ps, fs);
  }

  lemma ProcessOfRow(row: SystemRow, ps: seq<Process>, fs: seq<FunctionDef>, p: Process)
    requires OfProcess(row, ps) || OfFunction(row, fs)
    requires DistinctProcesses(ps) && ProcessUuids(ps) !! FunctionUuids(fs) && p in ps && row.uuid == p.uuid
    ensures CarriesProcess(row, p)
  {
    assert p.uuid in ProcessUuids(ps) && forall f <- fs :: f.uuid in FunctionUuids(fs);
    if q :| q in ps && CarriesProcess(row, q) {
      var i :| 0 <= i < |ps| && ps[i] == p;
      var j :| 0 <= j < |ps| && ps[j] == q;
    }
  }

  lemma FunctionOfRow(row: SystemRow, ps: seq<Process>, fs: seq<FunctionDef>, f: FunctionDef)
    requires OfProcess(row, ps) || OfFunction(row, fs)
    requires DistinctFunctions(fs) && ProcessUuids(ps) !! FunctionUuids(fs) && f in fs && row.uuid == f.uuid
    ensures CarriesFunction(row, f)
  {
    assert f.uuid in FunctionUuids(fs) && forall p <- ps :: p.uuid in ProcessUuids(ps);
    if g :| g in fs && CarriesFunction(row, g) {
      SameUuidSameFunction(fs, f, g);
    }
  }

  lemma EveryRecordHasRow(t: Tree, ps: seq<Process>, fs: seq<FunctionDef>)
    requires WellFormed(t, ps, fs) && LeftoversRight(t, ps, fs)
    ensures var t2 := AddFunctions(AddProcesses(t, ps).0, AddProcesses(t, ps).1, fs).0;
            && (forall p <- ps :: exists k :: k in t2.rows && t2.rows[k].uuid == p.uuid)
            && (forall f <- fs :: exists k :: k in t2.rows && t2.rows[k].uuid == f.uuid)
  {
    var (t1, pm) := AddProcesses(t, ps);
    var (t2, fm) := AddFunctions(t1, pm, fs);
    ProcessesKeepMeaning(t, ps);
    FunctionRowsCarry(t1, pm, fs);
    SecondAttemptFindsAll(t, ps, fs);
    forall p | p in ps ensures exists k :: k in t2.rows && t2.rows[k].uuid == p.uuid {
      assert NamesProcess(t1, pm[p.id], p);
      assert pm[p.id] in t2.rows && t2.rows[pm[p.id]].uuid == p.uuid;
    }
    forall f | f in fs ensures exists k :: k in t2.rows && t2.rows[k].uuid == f.uuid {
      assert Lookup(t2, f.uuid) == Some(fm[f.id]);
      assert fm[f.id] in t2.rows && t2.rows[fm[f.id]].uuid == f.uuid;
    }
  }

  /**
   * What becomes of a trajectory: without any function to move, nothing; else it names a row or no function at all,
   * it loses a function id exactly if that is neither listed nor a row, and keeps an unlisted one that is a row.
   */
  lemma TrajectoriesNameRows(db: Content, ps: seq<Process>, fs: seq<FunctionDef>, x: nat)
    requires FreshIds(db.tree) && DistinctFunctions(fs) && ForeignKeys(ps, fs) && x in db.trajectories
    ensures var after := Attempt(db, ps, fs);
            && after.trajectories.Keys == db.trajectories.Keys
            && (fs == [] ==> after.trajectories == db.trajectories)
            && (fs != [] ==>
                  var was, now := db.trajectories[x], after.trajectories[x];
                  && (now.Some? ==> now.value in after.tree.rows)
                  && (now.None? <==> was.None? || (!Lists(fs, was.value) && was.value !in after.tree.rows))
                  && (was.Some? && !Lists(fs, was.value) && was.value in after.tree.rows ==> now == was))
  {
    SecondAttemptFindsAll(db.tree, ps, fs);
    var (t1, pm) := AddProcesses(db.tree, ps);
    var (t2, fm) := AddFunctions(t1, pm, fs);
    if fs == [] {
      assert fm == map[];
    } else {
      assert fs[0] in fs && fs[0].id in fm;
      var was := db.trajectories[x];
      if was.Some? && was.value in fm {
        var f :| f in fs && f.id == was.value;
        assert Lookup(t2, f.uuid) == Some(fm[f.id]);
      }
    }
  }

  // ---------------------------------------------------------------- a second attempt

  /** Rows are only added, above every id handed out so far. */
  ghost predicate Grows(t: Tree, t': Tree) {
    && Extends(t, t') && t.nextId <= t'.nextId
    && forall k <- t'.rows :: k !in t.rows ==> t.nextId <= k
  }

  lemma {:induction false} SameBelow(rows: map<nat, SystemRow>, rows': map<nat, SystemRow>, uuid: string, below: nat)
    requires forall k | 0 <= k < below :: (k in rows <==> k in rows') && (k in rows ==> rows[k] == rows'[k])
    ensures FirstWithUuid(rows, uuid, below) == FirstWithUuid(rows', uuid, below)
  {
    if below > 0 { SameBelow(rows, rows', uuid, below - 1); }
  }

  lemma {:induction false} FoundStaysFirst(rows: map<nat, SystemRow>, uuid: string, below: nat, below': nat)
    requires below <= below' && FirstWithUuid(rows, uuid, below).Some?
    ensures FirstWithUuid(rows, uuid, below') == FirstWithUuid(rows, uuid, below)
  {
    if below < below' { FoundStaysFirst(rows, uuid, below, below' - 1); }
  }

  /** A row that was found is found again, however much the table has grown. */
  lemma LookupStays(t: Tree, t': Tree, uuid: string)
    requires Grows(t, t') && Lookup(t, uuid).Some?
    ensures Lookup(t', uuid) == Lookup(t, uuid)
  {
    SameBelow(t.rows, t'.rows, uuid, t.nextId);
    FoundStaysFirst(t'.rows, uuid, t.nextId, t'.nextId);
  }

  lemma InsertedIsFound(t: Tree, row: SystemRow)
    requires FreshIds(t) && Lookup(t, row.uuid).None?
    ensures Lookup(Insert(t, row), row.uuid) == Some(t.nextId)
    ensures FreshIds(Insert(t, row)) && Grows(t, Insert(t, row))
  {
    SameBelow(t.rows, Insert(t, row).rows, row.uuid, t.nextId);
  }

  lemma ProcessAgain(t: Tree, pm: IdMap, p: Process, later: Tree)
    requires FreshIds(t) && Grows(AddProcess(t, pm, p).0, later)
    ensures FreshIds(AddProcess(t, pm, p).0) && Grows(t, AddProcess(t, pm, p).0)
    ensures AddProcess(later, pm, p) == (later, AddProcess(t, pm, p).1)
  {
    if Lookup(t, p.uuid).None? {
      InsertedIsFound(t, SystemRow(p.uuid, 1, Some(p.systemId), p.name, GetOr(p.sortOrder, 0)));
    }
    LookupStays(AddProcess(t, pm, p).0, later, p.uuid);
  }

  lemma FunctionAgain(t: Tree, pm: IdMap, fm: IdMap, f: FunctionDef, later: Tree)
    requires FreshIds(t) && f.processId in pm && Grows(AddFunction(t, pm, fm, f).0, later)
    ensures FreshIds(AddFunction(t, pm, fm, f).0) && Grows(t, AddFunction(t, pm, fm, f).0)
    ensures AddFunction(later, pm, fm, f) == (later, AddFunction(t, pm, fm, f).1)
    ensures var fm' := AddFunction(t, pm, fm, f).1;
            f.id in fm' && fm' == fm[f.id := fm'[f.id]] && Lookup(later, f.uuid) == Some(fm'[f.id])
  {
    if Lookup(t, f.uuid).None? {
      InsertedIsFound(t, SystemRow(f.uuid, 2, Some(pm[f.processId]), f.name, GetOr(f.sortOrder, 0)));
    }
    LookupStays(AddFunction(t, pm, fm, f).0, later, f.uuid);
  }

  lemma GrowsTransitive(a: Tree, b: Tree, c: Tree)
    requires Grows(a, b) && Grows(b, c)
    ensures Grows(a, c)
  {
  }

  /** Adding the processes to a table that already has them changes nothing and finds the same rows. */
  lemma {:induction false} ProcessesAgain(t: Tree, ps: seq<Process>, later: Tree)
    requires FreshIds(t) && Grows(AddProcesses(t, ps).0, later)
    ensures FreshIds(AddProcesses(t, ps).0) && Grows(t, AddProcesses(t, ps).0)
    ensures AddProcesses(later, ps) == (later, AddProcesses(t, ps).1)
    ensures forall p <- ps :: p.id in AddProcesses(t, ps).1
  {
    if ps != [] {
      var front, p := ps[..|ps| - 1], ps[|ps| - 1];
      ProcessesFresh(t, front);
      var (t0, pm0) := AddProcesses(t, front);
      ProcessAgain(t0, pm0, p, later);
      GrowsTransitive(t0, AddProcess(t0, pm0, p).0, later);
      ProcessesAgain(t, front, later);
      GrowsTransitive(t, t0, AddProcess(t0, pm0, p).0);
      assert ps == front + [p];
    }
  }

  lemma {:induction false} ProcessesFresh(t: Tree, ps: seq<Process>)
    requires FreshIds(t)
    ensures FreshIds(AddProcesses(t, ps).0)
  {
    if ps != [] { ProcessesFresh(t, ps[..|ps| - 1]); }
  }

  lemma {:induction false} FunctionsFresh(t: Tree, pm: IdMap, fs: seq<FunctionDef>)
    requires FreshIds(t)
    ensures FreshIds(AddFunctions(t, pm, fs).0)
  {
    if fs != [] { FunctionsFresh(t, pm, fs[..|fs| - 1]); }
  }

  ghost predicate Lists(fs: seq<FunctionDef>, id: nat) {
    exists f :: f in fs && f.id == id
  }

  /** The id map sends exactly the listed function ids, each to the row found by its UUID. */
  ghost predicate MapsFunctions(fm: IdMap, fs: seq<FunctionDef>, t: Tree) {
    && (forall f <- fs :: f.id in fm && Lookup(t, f.uuid) == Some(fm[f.id]))
    && (forall i <- fm :: Lists(fs, i))
  }

  lemma MapOneMore(fm: IdMap, front: seq<FunctionDef>, f: FunctionDef, k: nat, t: Tree)
    requires MapsFunctions(fm, front, t) && Lookup(t, f.uuid) == Some(k) && forall g <- front :: g.id != f.id
    ensures MapsFunctions(fm[f.id := k], front + [f], t)
  {
    forall i | i in fm[f.id := k] ensures Lists(front + [f], i) {
      if i == f.id {
        assert f in front + [f];
      } else {
        var g :| g in front && g.id == i;
        assert g in front + [f];
      }
    }
  }

  lemma {:induction false} FunctionsAgain(t: Tree, pm: IdMap, fs: seq<FunctionDef>, later: Tree)
    requires FreshIds(t) && DistinctFunctions(fs) && Grows(AddFunctions(t, pm, fs).0, later)
    requires forall f <- fs :: f.processId in pm
    ensures Grows(t, AddFunctions(t, pm, fs).0)
    ensures AddFunctions(later, pm, fs) == (later, AddFunctions(t, pm, fs).1)
    ensures MapsFunctions(AddFunctions(t, pm, fs).1, fs, later)
  {
    if fs != [] {
      var front, f := fs[..|fs| - 1], fs[|fs| - 1];
      FunctionsFresh(t, pm, front);
      assert fs == front + [f];
      forall g | g in front ensures g.id != f.id && g.processId in pm { DistinctFunctionFromFront(fs, g); }
      var (t0, fm0) := AddFunctions(t, pm, front);
      FunctionAgain(t0, pm, fm0, f, later);
      GrowsTransitive(t0, AddFunction(t0, pm, fm0, f).0, later);
      FunctionsAgain(t, pm, front, later);
      OneMoreAgain(t, t0, pm, fm0, front, f, later);
    }
  }

  lemma OneMoreAgain(t: Tree, t0: Tree, pm: IdMap, fm0: IdMap, front: seq<FunctionDef>, f: FunctionDef, later: Tree)
    requires FreshIds(t0) && f.processId in pm && Grows(t, t0) && Grows(AddFunction(t0, pm, fm0, f).0, later)
    requires MapsFunctions(fm0, front, later) && forall g <- front :: g.id != f.id
    ensures Grows(t, AddFunction(t0, pm, fm0, f).0)
    ensures MapsFunctions(AddFunction(t0, pm, fm0, f).1, front + [f], later)
  {
    FunctionAgain(t0, pm, fm0, f, later);
    GrowsTransitive(t, t0, AddFunction(t0, pm, fm0, f).0);
    MapOneMore(fm0, front, f, AddFunction(t0, pm, fm0, f).1[f.id], later);
  }

  /** A second attempt finds every row of the first: it leaves the table alone and computes the same id maps. */
  lemma SecondAttemptFindsAll(t: Tree, ps: seq<Process>, fs: seq<FunctionDef>)
    requires FreshIds(t) && DistinctFunctions(fs) && ForeignKeys(ps, fs)
    ensures var (t1, pm) := AddProcesses(t, ps);
            var (t2, fm) := AddFunctions(t1, pm, fs);
            AddProcesses(t2, ps) == (t2, pm) && AddFunctions(t2, pm, fs) == (t2, fm) && MapsFunctions(fm, fs, t2)
  {
    var (t1, pm) := AddProcesses(t, ps);
    var (t2, fm) := AddFunctions(t1, pm, fs);
    ProcessesFresh(t, ps);
    ProcessesAgain(t, ps, t1);
    forall f | f in fs ensures f.processId in pm {
      var p :| p in ps && Owner(ps, f, p);
    }
    FunctionsAgain(t1, pm, fs, t2);
    ProcessesAgain(t, ps, t2);
  }

  /** The row made for `f` has the old id of another function `g`. */
  predicate Collides(t: Tree, f: FunctionDef, g: FunctionDef) {
    f != g && Lookup(t, f.uuid) == Some(g.id)
  }

  ghost predicate NamesCollision(db: Content, t: Tree, fs: seq<FunctionDef>, x: nat)
    requires x in db.trajectories
  {
    exists f, g :: f in fs && g in fs && db.trajectories[x] == Some(f.id) && Collides(t, f, g)
  }

  lemma RemappedTwice(rows: map<nat, SystemRow>, nextId: nat, fm: IdMap, fs: seq<FunctionDef>, f: FunctionDef)
    requires DistinctFunctions(fs) && MapsFunctions(fm, fs, Tree(rows, nextId)) && f in fs
    ensures var once := Remapped(rows, fm, Some(f.id));
            Remapped(rows, fm, once) == once <==> forall g <- fs :: !Collides(Tree(rows, nextId), f, g)
  {
    var k := fm[f.id];
    assert Lookup(Tree(rows, nextId), f.uuid) == Some(k) && k in rows && rows[k].uuid == f.uuid;
    if k in fm {
      var g :| g in fs && g.id == k;
      assert Lookup(Tree(rows, nextId), g.uuid) == Some(fm[k]) && rows[fm[k]].uuid == g.uuid;
      if g != f {
        SameUuidSameFunction(fs, f, g);
        assert Collides(Tree(rows, nextId), f, g);
      } else {
        forall h | h in fs && h.id == k ensures h == f { SameIdSameFunction(fs, f, h); }
      }
    }
  }

  lemma SameIdSameFunction(fs: seq<FunctionDef>, f: FunctionDef, g: FunctionDef)
    requires DistinctFunctions(fs) && f in fs && g in fs
    ensures f.id == g.id ==> f == g
  {
    var i :| 0 <= i < |fs| && fs[i] == f;
    var j :| 0 <= j < |fs| && fs[j] == g;
  }

  lemma SameUuidSameFunction(fs: seq<FunctionDef>, f: FunctionDef, g: FunctionDef)
    requires DistinctFunctions(fs) && f in fs && g in fs
    ensures f.uuid == g.uuid ==> f == g
  {
    var i :| 0 <= i < |fs| && fs[i] == f;
    var j :| 0 <= j < |fs| && fs[j] == g;
  }

  lemma TrajectoryKeptExactly(db: Content, t: Tree, fm: IdMap, fs: seq<FunctionDef>, x: nat)
    requires DistinctFunctions(fs) && MapsFunctions(fm, fs, t) && x in db.trajectories
    ensures var once := Remapped(t.rows, fm, db.trajectories[x]);
            Remapped(t.rows, fm, once) == once <==> !NamesCollision(db, t, fs, x)
  {
    var named := db.trajectories[x];
    if named.Some? && named.value in fm {
      var f :| f in fs && f.id == named.value;
      RemappedTwice(t.rows, t.nextId, fm, fs, f);
      forall h | h in fs && named == Some(h.id) ensures h == f { SameIdSameFunction(fs, f, h); }
    }
  }

  /**
   * An attempt interrupted before the old tables are dropped is repeated on its own result. The repetition changes
   * nothing if and only if no trajectory names a function whose new row has the old id of another function.
   */
  lemma SecondAttemptKeepsExactly(db: Content, ps: seq<Process>, fs: seq<FunctionDef>)
    requires FreshIds(db.tree) && DistinctFunctions(fs) && ForeignKeys(ps, fs)
    ensures var once := Attempt(db, ps, fs);
            && Attempt(once, ps, fs).tree == once.tree
            && (Attempt(once, ps, fs) == once <==> forall x <- db.trajectories :: !NamesCollision(db, once.tree, fs, x))
  {
    SecondAttemptFindsAll(db.tree, ps, fs);
    var (t1, pm) := AddProcesses(db.tree, ps);
    var (t2, fm) := AddFunctions(t1, pm, fs);
    var once := Attempt(db, ps, fs);
    var twice := Attempt(once, ps, fs);
    if fm != map[] {
      forall x | x in db.trajectories
        ensures twice.trajectories[x] == once.trajectories[x] <==> !NamesCollision(db, t2, fs, x)
      {
        TrajectoryKeptExactly(db, t2, fm, fs, x);
      }
      assert twice.trajectories.Keys == once.trajectories.Keys == db.trajectories.Keys;
    }
  }

  // One system, one process, two functions: the row made for `f` gets the old id of `g`.

  const P := Process(1, "p", 1, "p", None)
  const F := FunctionDef(1, "f", 1, "f", None)
  const G := FunctionDef(3, "g", 1, "g", None)
  const Tree1 := Tree(map[1 := SystemRow("s", 0, None, "s", 0)], 2)
  const Tree2 := Insert(Tree1, SystemRow("p", 1, Some(1), "p", 0))
  const Tree3 := Insert(Tree2, SystemRow("f", 2, Some(2), "f", 0))
  const Tree4 := Insert(Tree3, SystemRow("g", 2, Some(2), "g", 0))

  lemma CollidingMaps()
    ensures AddProcesses(Tree1, [P]) == (Tree2, map[1 := 2])
    ensures AddFunctions(Tree2, map[1 := 2], [F, G]) == (Tree4, map[1 := 3, 3 := 4])
  {
    assert Lookup(Tree1, "p").None?;
    assert [P][..0] == [] && AddProcesses(Tree1, []) == (Tree1, map[]);
    assert Lookup(Tree2, "f").None? && Lookup(Tree3, "g").None?;
    assert [F, G][..1] == [F] && [F][..0] == [] && AddFunctions(Tree2, map[1 := 2], []) == (Tree2, map[]);
    assert AddFunctions(Tree2, map[1 := 2], [F]) == (Tree3, map[1 := 3]);
  }

  lemma CollidingTablesAreWellFormed()
    ensures WellFormed(Tree1, [P], [F, G]) && LeftoversRight(Tree1, [P], [F, G])
  {
    assert Owner([P], F, P) && Owner([P], G, P);
  }

  lemma CollidingAttempt(t: Tree, t1: Tree, functionId: nat)
    requires AddProcesses(t, [P]) == (t1, map[1 := 2])
    requires AddFunctions(t1, map[1 := 2], [F, G]) == (Tree4, map[1 := 3, 3 := 4])
    ensures Attempt(Content(t, map[7 := Some(functionId)]), [P], [F, G])
            == Content(Tree4, map[7 := Remapped(Tree4.rows, map[1 := 3, 3 := 4], Some(functionId))])
  {
    var fm: IdMap := map[1 := 3, 3 := 4];
    assert 1 in fm;
  }

  /** The second attempt moves a trajectory from one function to another. */
  lemma SecondAttemptMovesTrajectory()
    ensures WellFormed(Tree1, [P], [F, G]) && LeftoversRight(Tree1, [P], [F, G])
    ensures Attempt(Content(Tree1, map[7 := Some(1)]), [P], [F, G]) == Content(Tree4, map[7 := Some(3)])
    ensures Attempt(Content(Tree4, map[7 := Some(3)]), [P], [F, G]) == Content(Tree4, map[7 := Some(4)])
    ensures Tree4.rows[3].uuid == F.uuid && Tree4.rows[4].uuid == G.uuid
  {
    CollidingTablesAreWellFormed();
    CollidingMaps();
    SecondAttemptFindsAll(Tree1, [P], [F, G]);
    CollidingAttempt(Tree1, Tree2, 1);
    CollidingAttempt(Tree4, Tree4, 3);
  }
}
