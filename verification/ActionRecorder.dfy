/** The recorder's global log, updated in place by `_record_action`. */
module ActionRecorders {
  import opened Options
  import opened Actions
  import opened ActionLog
  import opened ActionRuns
  import opened ActionRules

  ghost predicate Accounted(h: History) {
    Identified(h.log) && multiset(h.appended) == multiset(Ids(h.log)) + multiset(h.reported)
  }

  lemma RecordingKeeps(h: History, r: Request)
    requires Accounted(h) && r.id != ""
    ensures Accounted(Extend(h, r))
    ensures NoRepeats(h.log) && Settled(r) ==> NoRepeats(Extend(h, r).log)
    ensures if EchoesDate(h.log, r) then Extend(h, r) == h
            else var (kept, removed) := Cleared(h.log, r);
                 Extend(h, r) == History(kept + [FromRecord(r)], h.appended + [r.id], h.reported + removed)
  {
    ExtendAccounts(multiset{}, h, r);
    assert h.appended + [] == h.appended && h.reported + [] == h.reported;
    if NoRepeats(h.log) && Settled(r) { RecordKeepsNoRepeats(h.log, r); }
  }

  class ActionRecorder {
    var log: seq<Entry>
    ghost var appended: seq<string>
    ghost var reported: seq<string>

    /** Every id ever appended is either still logged or was reported as removed, exactly once. */
    ghost predicate Valid()
      reads this
    {
      Accounted(History(log, appended, reported))
    }

    constructor ()
      ensures Valid() && log == []
    {
      log, appended, reported := [], [], [];
    }

    /** Records one action; `message` is the emitted `action_log_sync`, if any. */
    method RecordAction(r: Request) returns (message: Option<Sync>)
      requires Valid() && r.id != ""
      modifies this
      ensures Valid() && History(log, appended, reported) == Extend(old(History(log, appended, reported)), r)
      ensures message.None? <==> old(log) != [] && RepeatsFill(old(log)[|old(log)| - 1], r)
      ensures message.Some? ==> message.value == Sync(log, Record(old(log), r).removedIds)
      ensures NoRepeats(old(log)) && Settled(r) ==> NoRepeats(log)
    {
      ghost var was := log;
      message := RecordUnlessEcho(r);
      EchoMeans(was, r);
    }

    method RecordUnlessEcho(r: Request) returns (message: Option<Sync>)
      requires Valid() && r.id != ""
      modifies this
      ensures Valid() && History(log, appended, reported) == Extend(old(History(log, appended, reported)), r)
      ensures message.None? <==> EchoesDate(old(log), r)
      ensures message.Some? ==> message.value == Sync(log, Record(old(log), r).removedIds)
      ensures NoRepeats(old(log)) && Settled(r) ==> NoRepeats(log)
    {
      RecordingKeeps(History(log, appended, reported), r);
      if EchoesDate(log, r) {
        return None;
      }
      var removedIds := Clear(r);
      log := log + [FromRecord(r)];
      appended, reported := appended + [r.id], reported + removedIds;
      return Some(Sync(log, removedIds));
    }

    /** The two removals before an entry is appended. */
    method Clear(r: Request) returns (removedIds: seq<string>)
      modifies `log
      ensures (log, removedIds) == Cleared(old(log), r)
    {
      removedIds := [];
      assert forall s: seq<string> :: [] + s == s && s + [] == s;
      if ReplacesPickerClick(log, r) {
        removedIds := removedIds + LastId(log);
        log := Front(log);
      }
      if Coalesces(log, r) {
        removedIds := removedIds + LastId(log);
        log := Front(log);
      }
    }
  }
}
