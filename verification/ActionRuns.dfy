/** Whole recording runs: what the log, the reported removals and the batch coalescing have to do with each other. */
module ActionRuns {
  import opened Options
  import opened Actions
  import opened ActionLog
  import opened Coalescing
  import opened Dedup

  function Ids(log: seq<Entry>): seq<string> {
    seq(|log|, i requires 0 <= i < |log| => log[i].id)
  }

  /** The log after a run, the ids it appended and the ids it reported as removed. */
  datatype History = History(log: seq<Entry>, appended: seq<string>, reported: seq<string>)

  /** The history after the first `n` requests. */
  function RunTo(start: seq<Entry>, rs: seq<Request>, n: nat): History
    requires n <= |rs|
  {
    if n == 0 then History(start, [], []) else Extend(RunTo(start, rs, n - 1), rs[n - 1])
  }

  function Run(start: seq<Entry>, rs: seq<Request>): History {
    RunTo(start, rs, |rs|)
  }

  function Extend(h: History, r: Request): History {
    var out := Record(h.log, r);
    History(out.log, h.appended + if out.recorded then [r.id] else [], h.reported + out.removedIds)
  }

  // ---------------------------------------------------------------- accounting for ids

  ghost predicate Identified(log: seq<Entry>) {
    forall e <- log :: e.id != ""
  }

  lemma PopAccounts(log: seq<Entry>, pop: bool)
    requires Identified(log) && (pop ==> log != [])
    ensures var (kept, removed) := PopIf(log, pop);
            Identified(kept) && multiset(Ids(log)) == multiset(Ids(kept)) + multiset(removed)
  {
    if pop {
      assert Ids(log) == Ids(Front(log)) + [log[|log| - 1].id];
      assert log[|log| - 1] in log;
    }
  }

  lemma TwoPopsAccount(log: seq<Entry>, picker: bool, same: bool, e: Entry)
    requires Identified(log) && e.id != "" && (picker ==> log != []) && (same ==> PopIf(log, picker).0 != [])
    ensures var (log1, removed1) := PopIf(log, picker);
            var (log2, removed2) := PopIf(log1, same);
            && Identified(log2 + [e])
            && multiset(Ids(log)) + multiset{e.id} == multiset(Ids(log2 + [e])) + multiset(removed1 + removed2)
  {
    var (log1, removed1) := PopIf(log, picker);
    var (log2, removed2) := PopIf(log1, same);
    PopAccounts(log, picker);
    PopAccounts(log1, same);
    AppendAccounts(log2, e);
    TwoRemovals(multiset(Ids(log)), multiset(Ids(log1)), multiset(Ids(log2)), removed1, removed2, e.id);
  }

  lemma AppendAccounts(log: seq<Entry>, e: Entry)
    requires Identified(log) && e.id != ""
    ensures Identified(log + [e]) && multiset(Ids(log + [e])) == multiset(Ids(log)) + multiset{e.id}
  {
    assert Ids(log + [e]) == Ids(log) + [e.id];
  }

  lemma TwoRemovals(a: multiset<string>, b: multiset<string>, c: multiset<string>, r1: seq<string>, r2: seq<string>, x: string)
    requires a == b + multiset(r1) && b == c + multiset(r2)
    ensures a + multiset{x} == c + multiset{x} + multiset(r1 + r2)
  {
    assert multiset(r1 + r2) == multiset(r1) + multiset(r2);
  }

  lemma RecordAccounts(log: seq<Entry>, r: Request)
    requires Identified(log) && r.id != ""
    ensures Identified(Record(log, r).log)
    ensures multiset(Ids(log)) + (if Record(log, r).recorded then multiset{r.id} else multiset{})
            == multiset(Ids(Record(log, r).log)) + multiset(Record(log, r).removedIds)
  {
    if !EchoesDate(log, r) {
      TwoPopsAccount(log, ReplacesPickerClick(log, r), Coalesces(AfterPicker(log, r), r), FromRecord(r));
    }
  }

  lemma ExtendAccounts(ids: multiset<string>, h: History, r: Request)
    requires Identified(h.log) && r.id != ""
    requires ids + multiset(h.appended) == multiset(Ids(h.log)) + multiset(h.reported)
    ensures Identified(Extend(h, r).log)
    ensures ids + multiset(Extend(h, r).appended) == multiset(Ids(Extend(h, r).log)) + multiset(Extend(h, r).reported)
  {
    var out := Record(h.log, r);
    var added := if out.recorded then [r.id] else [];
    RecordAccounts(h.log, r);
    Regroup(ids, h.appended, added, multiset(Ids(h.log)), h.reported, multiset(Ids(out.log)), out.removedIds);
  }

  lemma Regroup(ids: multiset<string>, appended: seq<string>, added: seq<string>, before: multiset<string>,
                reported: seq<string>, after: multiset<string>, removed: seq<string>)
    requires ids + multiset(appended) == before + multiset(reported)
    requires before + multiset(added) == after + multiset(removed)
    ensures ids + multiset(appended + added) == after + multiset(reported + removed)
  {
    assert multiset(appended + added) == multiset(appended) + multiset(added);
    assert multiset(reported + removed) == multiset(reported) + multiset(removed);
    forall x ensures (ids + multiset(appended + added))[x] == (after + multiset(reported + removed))[x] {
      assert (ids + multiset(appended))[x] == (before + multiset(reported))[x];
      assert (before + multiset(added))[x] == (after + multiset(removed))[x];
    }
  }

  /**
   * In every run, the ids appended are exactly the ids still in the log together with the ids reported as
   * removed, each as often as it was appended.
   */
  lemma {:induction false} EveryIdIsAccountedFor(start: seq<Entry>, rs: seq<Request>, n: nat)
    requires n <= |rs| && Identified(start) && forall i | 0 <= i < |rs| :: rs[i].id != ""
    ensures Identified(RunTo(start, rs, n).log)
    ensures multiset(Ids(start)) + multiset(RunTo(start, rs, n).appended)
            == multiset(Ids(RunTo(start, rs, n).log)) + multiset(RunTo(start, rs, n).reported)
  {
    if n > 0 {
      EveryIdIsAccountedFor(start, rs, n - 1);
      ExtendAccounts(multiset(Ids(start)), RunTo(start, rs, n - 1), rs[n - 1]);
    }
  }

  lemma CountOfDistinct(s: seq<string>, x: string)
    requires forall i, j | 0 <= i < j < |s| :: s[i] != s[j]
    ensures multiset(s)[x] <= 1
    decreases |s|
  {
    if s != [] {
      var front, e := s[..|s| - 1], s[|s| - 1];
      assert s == front + [e];
      CountOfDistinct(front, x);
      assert e !in front;
    }
  }

  /** With fresh ids, no id is both still logged and reported, and none is reported twice. */
  lemma LoggedAndReportedAreDisjoint(rs: seq<Request>, id: string)
    requires forall i | 0 <= i < |rs| :: rs[i].id != ""
    requires var a := Run([], rs).appended; forall i, j | 0 <= i < j < |a| :: a[i] != a[j]
    ensures var h := Run([], rs);
            && (id in h.appended <==> id in Ids(h.log) || id in h.reported)
            && !(id in Ids(h.log) && id in h.reported)
            && multiset(h.reported)[id] <= 1
  {
    var h := Run([], rs);
    EveryIdIsAccountedFor([], rs, |rs|);
    CountOfDistinct(h.appended, id);
    assert Ids([]) == [];
    assert multiset(h.appended) == multiset(Ids(h.log)) + multiset(h.reported);
    assert id in h.appended <==> multiset(h.appended)[id] > 0;
    assert id in Ids(h.log) <==> multiset(Ids(h.log))[id] > 0;
    assert id in h.reported <==> multiset(h.reported)[id] > 0;
  }

  // ---------------------------------------------------------------- the emitted messages

  /** `action_log_sync`: the whole log, and the ids removed by this recording. */
  datatype Sync = Sync(entries: seq<Entry>, removedIds: seq<string>)

  function IdSet(log: seq<Entry>): set<string> {
    set x <- Ids(log)
  }

  /** A listener that keeps one row per id: delete what is reported removed, store what is listed. */
  function Apply(rows: set<string>, m: Sync): set<string> {
    (rows - set x <- m.removedIds) + IdSet(m.entries)
  }

  function Received(rows: set<string>, out: Outcome): set<string> {
    if out.recorded then Apply(rows, Sync(out.log, out.removedIds)) else rows
  }

  /** The listener's rows after the messages of `n` requests; an action that is not recorded sends none. */
  function Rows(start: seq<Entry>, rs: seq<Request>, n: nat): set<string>
    requires n <= |rs|
  {
    if n == 0 then IdSet(start) else Received(Rows(start, rs, n - 1), Record(RunTo(start, rs, n - 1).log, rs[n - 1]))
  }

  /** Applying every message in order leaves exactly the rows of the final log. */
  lemma {:induction false} RowsFollowLog(start: seq<Entry>, rs: seq<Request>, n: nat)
    requires n <= |rs| && Identified(start) && forall i | 0 <= i < |rs| :: rs[i].id != ""
    ensures Rows(start, rs, n) == IdSet(RunTo(start, rs, n).log)
  {
    if n > 0 {
      RowsFollowLog(start, rs, n - 1);
      EveryIdIsAccountedFor(start, rs, n - 1);
      ExtendCoversRemovals(Rows(start, rs, n - 1), RunTo(start, rs, n - 1), rs[n - 1]);
    }
  }

  lemma ExtendCoversRemovals(rows: set<string>, h: History, r: Request)
    requires Identified(h.log) && r.id != "" && rows == IdSet(h.log)
    ensures Received(rows, Record(h.log, r)) == IdSet(Extend(h, r).log)
  {
    MessageCoversRemovals(h.log, r);
  }

  lemma MessageCoversRemovals(log: seq<Entry>, r: Request)
    requires Identified(log) && r.id != ""
    ensures Received(IdSet(log), Record(log, r)) == IdSet(Record(log, r).log)
  {
    var out := Record(log, r);
    RecordAccounts(log, r);
    forall x | x in Ids(log) ensures x in Ids(out.log) || x in out.removedIds {
      assert multiset(Ids(log))[x] > 0;
      assert x in multiset(Ids(out.log)) + multiset(out.removedIds);
    }
  }

  lemma ExtendKeepsNoRepeats(h: History, r: Request)
    requires NoRepeats(h.log) && Settled(r)
    ensures NoRepeats(Extend(h, r).log)
  {
    RecordKeepsNoRepeats(h.log, r);
  }

  /** No run of settled requests leaves repeating neighbours. */
  lemma {:induction false} RunsLeaveNoRepeats(start: seq<Entry>, rs: seq<Request>, n: nat)
    requires n <= |rs| && NoRepeats(start) && forall r <- rs :: Settled(r)
    ensures NoRepeats(RunTo(start, rs, n).log)
  {
    if n > 0 {
      RunsLeaveNoRepeats(start, rs, n - 1);
      ExtendKeepsNoRepeats(RunTo(start, rs, n - 1), rs[n - 1]);
    }
  }

  // ---------------------------------------------------------------- online against batch

  function Recorded(rs: seq<Request>): (es: seq<Entry>)
    ensures |es| == |rs| && forall i | 0 <= i < |rs| :: es[i] == FromRecord(rs[i])
  {
    seq(|rs|, i requires 0 <= i < |rs| => FromRecord(rs[i]))
  }

  /** The online recorder replaces `a`'s entry by `b`'s. */
  predicate Replaces(a: Request, b: Request) {
    RawIdentity(b).Some? && RawIdentity(b) == StoredIdentity(FromRecord(a))
  }

  /** Whether a request's entry is replaced by its successor's. */
  function Replaced(rs: seq<Request>): (drop: seq<bool>)
    requires rs != []
    ensures |drop| == |rs| - 1 && forall i | 0 <= i < |drop| :: drop[i] == Replaces(rs[i], rs[i + 1])
  {
    seq(|rs| - 1, i requires 0 <= i < |rs| - 1 => Replaces(rs[i], rs[i + 1]))
  }

  ghost predicate AllAgent(rs: seq<Request>) {
    forall i | 0 <= i < |rs| :: rs[i].source.Agent?
  }

  ghost predicate FreshIds(rs: seq<Request>) {
    forall i, j | 0 <= i < j < |rs| :: rs[i].id != rs[j].id
  }

  lemma AgentRecord(log: seq<Entry>, a: Request, b: Request)
    requires b.source.Agent? && log != [] && log[|log| - 1] == FromRecord(a) && a.source.Agent?
    ensures Record(log, b).log == (if Replaces(a, b) then Front(log) else log) + [FromRecord(b)]
  {
  }

  lemma AgentExtend(h: History, kept: seq<Entry>, a: Request, b: Request, same: bool)
    requires b.source.Agent? && a.source.Agent? && h.log == kept + [FromRecord(a)] && same == Replaces(a, b)
    ensures Extend(h, b).log == (if same then kept else kept + [FromRecord(a)]) + [FromRecord(b)]
  {
    assert Front(h.log) == kept;
    AgentRecord(h.log, a, b);
  }

  lemma FirstExtend(a: Request)
    ensures Extend(History([], [], []), a).log == [FromRecord(a)]
  {
  }

  lemma UnreplacedStep(h: History, es: seq<Entry>, drop: seq<bool>, n: nat, a: Request, b: Request)
    requires 0 < n < |es| && n <= |drop| && h.log == Chosen(es, drop, n - 1) + [es[n - 1]]
    requires es[n - 1] == FromRecord(a) && es[n] == FromRecord(b) && drop[n - 1] == Replaces(a, b)
    requires a.source.Agent? && b.source.Agent?
    ensures Extend(h, b).log == Chosen(es, drop, n) + [es[n]]
  {
    AgentExtend(h, Chosen(es, drop, n - 1), a, b, drop[n - 1]);
  }

  /** The online log keeps exactly the requests that their successor does not replace. */
  lemma {:induction false} OnlineKeepsUnreplaced(rs: seq<Request>, es: seq<Entry>, drop: seq<bool>, n: nat)
    requires 0 < n <= |rs| && AllAgent(rs) && es == Recorded(rs) && drop == Replaced(rs)
    ensures RunTo([], rs, n).log == Chosen(es, drop, n - 1) + [es[n - 1]]
  {
    if n == 1 {
      FirstExtend(rs[0]);
      assert RunTo([], rs, 0) == History([], [], []);
    } else {
      OnlineKeepsUnreplaced(rs, es, drop, n - 1);
      UnreplacedStep(RunTo([], rs, n - 1), es, drop, n - 1, rs[n - 2], rs[n - 1]);
    }
  }

  /** Both recorders take the same decision on two consecutive requests. */
  predicate Agree(a: Request, b: Request) {
    Replaces(a, b) <==> ElementDedupKey(FromRecord(a)) == ElementDedupKey(FromRecord(b))
  }

  lemma FlagsAgreeExactly(rs: seq<Request>, i: nat)
    requires i < |rs| - 1
    ensures Replaced(rs)[i] == Followed(Recorded(rs), ElementDedupKey)[i] <==> Agree(rs[i], rs[i + 1])
  {
    var es := Recorded(rs);
    assert es[i] == FromRecord(rs[i]) && es[i + 1] == FromRecord(rs[i + 1]);
    assert Replaced(rs)[i] == Replaces(rs[i], rs[i + 1]);
  }

  lemma RecordedDistinct(rs: seq<Request>)
    requires FreshIds(rs)
    ensures Distinct(Recorded(rs))
  {
    forall i, j | 0 <= i < j < |rs| ensures Recorded(rs)[i] != Recorded(rs)[j] {
      assert Recorded(rs)[i].id == rs[i].id && Recorded(rs)[j].id == rs[j].id;
    }
  }

  ghost predicate AllAgree(rs: seq<Request>) {
    forall i | 0 <= i < |rs| - 1 :: Agree(rs[i], rs[i + 1])
  }

  lemma AllFlagsAgreeExactly(rs: seq<Request>)
    requires rs != []
    ensures AllAgree(rs) <==> Replaced(rs) == Followed(Recorded(rs), ElementDedupKey)
  {
    var f, g := Replaced(rs), Followed(Recorded(rs), ElementDedupKey);
    forall i | 0 <= i < |rs| - 1 ensures f[i] == g[i] <==> Agree(rs[i], rs[i + 1]) { FlagsAgreeExactly(rs, i); }
    assert f == g <==> forall i | 0 <= i < |rs| - 1 :: f[i] == g[i];
  }

  lemma ChoiceEqualsBatchExactly(rs: seq<Request>, es: seq<Entry>, drop: seq<bool>)
    requires rs != [] && FreshIds(rs) && es == Recorded(rs) && drop == Replaced(rs)
    ensures Chosen(es, drop, |drop|) + [es[|drop|]] == Coalesced(es) <==> AllAgree(rs)
  {
    RecordedDistinct(rs);
    CoalescesExactly(es, drop, ElementDedupKey);
    AllFlagsAgreeExactly(rs);
  }

  /**
   * For an agent run with fresh ids, the online log equals the batch coalescing of the raw stream if and only if
   * the two identities take the same decision on every pair of consecutive requests.
   */
  lemma OnlineEqualsBatchExactly(rs: seq<Request>)
    requires AllAgent(rs) && FreshIds(rs)
    ensures Run([], rs).log == Coalesced(Recorded(rs)) <==> AllAgree(rs)
  {
    if rs != [] {
      OnlineKeepsUnreplaced(rs, Recorded(rs), Replaced(rs), |rs|);
      ChoiceEqualsBatchExactly(rs, Recorded(rs), Replaced(rs));
    }
  }

  /** The two key functions agree on every stored entry that the online recorder can identify. */
  lemma KeysAgree(r: Request)
    ensures var e := FromRecord(r);
            StoredIdentity(e).Some? ==> ElementDedupKey(e) == Element(StoredIdentity(e).value)
  {
  }

  /** A path of `b` locates the element that `a`'s entry is known by. */
  predicate SamePlace(a: Request, b: Request, path: string) {
    path == StoredPath(a) && (path != "" || ByText(a) == ByText(b))
  }

  /** What the two recorders need to decide alike, on the paths and texts of two unlabelled requests. */
  predicate PlacesAgree(a: Request, b: Request) {
    LabelledField(a) || LabelledField(b) || (SamePlace(a, b, CapturedPath(b)) <==> SamePlace(a, b, StoredPath(b)))
  }

  ghost predicate AllIdentified(rs: seq<Request>) {
    forall i | 0 <= i < |rs| :: StoredIdentity(FromRecord(rs[i])).Some?
  }

  lemma AgreeOnIdentities(a: Request, b: Request)
    requires StoredIdentity(FromRecord(a)).Some? && StoredIdentity(FromRecord(b)).Some?
    ensures Agree(a, b) <==>
              (RawIdentity(b) == StoredIdentity(FromRecord(a)) <==> StoredIdentity(FromRecord(b)) == StoredIdentity(FromRecord(a)))
  {
    KeysAgree(a);
    KeysAgree(b);
  }

  /** Two identified requests: both recorders decide alike exactly when the captured and the stored path do. */
  lemma AgreeExactly(a: Request, b: Request)
    requires StoredIdentity(FromRecord(a)).Some? && StoredIdentity(FromRecord(b)).Some?
    ensures Agree(a, b) <==> PlacesAgree(a, b)
  {
    AgreeOnIdentities(a, b);
    IdentitiesByPath(a);
    IdentitiesByPath(b);
    if LabelledField(a) && !LabelledField(b) {
      FieldIsNoPlace(a, b, CapturedPath(b));
      FieldIsNoPlace(a, b, StoredPath(b));
    } else if !LabelledField(a) && !LabelledField(b) {
      ByPathInjective(a, StoredPath(a), b, CapturedPath(b));
      ByPathInjective(a, StoredPath(a), b, StoredPath(b));
    }
  }

  lemma FieldIsNoPlace(a: Request, b: Request, path: string)
    requires LabelledField(a)
    ensures ByPath(b, path) != RawIdentity(a)
  {
    IdentitiesByPath(a);
    TextIsNoPath(b, path);
    assert RawIdentity(a).value[0] == 'f' && ("xpath:" + path)[0] == 'x';
  }

  /**
   * For an identified agent run with fresh ids, the online log equals the batch coalescing if and only if, for each
   * two consecutive unlabelled requests, the second one's captured path is where the first was stored exactly when
   * its own stored path is.
   */
  lemma OnlineEqualsBatchOnPaths(rs: seq<Request>)
    requires AllAgent(rs) && FreshIds(rs) && AllIdentified(rs)
    ensures Run([], rs).log == Coalesced(Recorded(rs)) <==> forall i | 0 <= i < |rs| - 1 :: PlacesAgree(rs[i], rs[i + 1])
  {
    OnlineEqualsBatchExactly(rs);
    forall i | 0 <= i < |rs| - 1 ensures Agree(rs[i], rs[i + 1]) <==> PlacesAgree(rs[i], rs[i + 1]) {
      AgreeExactly(rs[i], rs[i + 1]);
    }
  }

  /** Two clicks on one element whose smart xpath differs from its plain one: the online log is not the batch one. */
  lemma SmartXpathRunDiffers()
    ensures var el := Capture("/html/a", "//a[1]", "", "", "");
            var a := Request("1", "click_element_by_index", map[], Some(el), Agent);
            var rs := [a, a.(id := "2")];
            AllAgent(rs) && FreshIds(rs) && Run([], rs).log != Coalesced(Recorded(rs))
  {
    var el := Capture("/html/a", "//a[1]", "", "", "");
    var a := Request("1", "click_element_by_index", map[], Some(el), Agent);
    var rs := [a, a.(id := "2")];
    SmartXpathDiffers();
    assert !PlacesAgree(rs[0], rs[1]);
    IdentitiesByPath(a);
    IdentitiesByPath(rs[1]);
    AgreeExactly(rs[0], rs[1]);
    assert !AllAgree(rs);
    OnlineEqualsBatchExactly(rs);
  }

  lemma SettledAgree(a: Request, b: Request)
    requires Settled(b) && StoredIdentity(FromRecord(a)).Some? && StoredIdentity(FromRecord(b)).Some?
    ensures Agree(a, b)
  {
    KeysAgree(a);
    KeysAgree(b);
  }

  /**
   * Every agent run whose requests are settled and identified leaves the batch coalescing of its raw stream, and
   * coalescing that log again changes nothing.
   */
  lemma OnlineRefinesBatch(rs: seq<Request>)
    requires AllAgent(rs) && FreshIds(rs)
    requires forall r <- rs :: Settled(r) && StoredIdentity(FromRecord(r)).Some?
    ensures Run([], rs).log == Coalesced(Recorded(rs))
    ensures Coalesced(Run([], rs).log) == Run([], rs).log
  {
    forall i | 0 <= i < |rs| - 1 ensures Agree(rs[i], rs[i + 1]) { SettledAgree(rs[i], rs[i + 1]); }
    assert AllAgree(rs);
    OnlineEqualsBatchExactly(rs);
    Idempotent(Recorded(rs));
  }
}
