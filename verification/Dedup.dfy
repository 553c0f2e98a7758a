/** Batch coalescing of consecutive actions on the same page element (`src/dedup.js`). */
module Dedup {
  import opened Options
  import opened Actions
  import opened Coalescing

  const FIELD_ACTIONS: set<string> := {"fill_form_field", "select_option", "select_tree_option", "click_radio"}

  /** A prefixed element key, or the whole action as the fallback. */
  datatype Key = Element(text: string) | Whole(action: string, params: map<string, string>)

  /** `elementDedupKey`. */
  function ElementDedupKey(e: Entry): Key {
    var labelText := Text(e.params, "label_text");
    if e.action in FIELD_ACTIONS && labelText != "" then Element("field:" + labelText)
    else
      var path := match e.element case Some(el) => Or(el.xpath, el.xpathSmart) case None => "";
      var xpath := Trim(Or(path, e.target));
      if xpath != "" then Element("xpath:" + xpath)
      else if e.action == "click_button" && Text(e.params, "button_text") != ""
      then Element("icon:" + Text(e.params, "button_text"))
      else if e.action == "click_menu_item" && Text(e.params, "menu_text") != ""
      then Element("menu:" + Text(e.params, "menu_text"))
      else if e.action == "switch_tab" && Text(e.params, "tab_name") != ""
      then Element("tab:" + Text(e.params, "tab_name"))
      else if e.action == "click_adjacent_button" && labelText != "" then Element("adjacent:" + labelText)
      else Whole(e.action, e.params)
  }

  function Coalesced(entries: seq<Entry>): seq<Entry> {
    CoalescedTo(entries, ElementDedupKey, |entries|)
  }

  /** `deduplicateByXPath`. */
  method DeduplicateByXPath(entries: seq<Entry>) returns (result: seq<Entry>)
    ensures result == Coalesced(entries)
  {
    result := [];
    for i := 0 to |entries|
      invariant result == CoalescedTo(entries, ElementDedupKey, i)
    {
      var cur := entries[i];
      if result != [] && ElementDedupKey(result[|result| - 1]) == ElementDedupKey(cur) {
        result := result[|result| - 1 := cur]; // keep later
      } else {
        result := result + [cur];
      }
    }
  }

  predicate NoEqualNeighbours(entries: seq<Entry>) {
    NoMatchingNeighbours(entries, ElementDedupKey)
  }

  /** Coalescing changes nothing exactly when no two neighbours have the same key. */
  lemma FixedExactly(entries: seq<Entry>)
    ensures Coalesced(entries) == entries <==> NoEqualNeighbours(entries)
  {
    LeavesNoMatchingNeighbours(entries, ElementDedupKey, |entries|);
    if NoEqualNeighbours(entries) {
      NoMatchingStays(entries, ElementDedupKey, |entries|);
    }
  }

  /** The result has no equal neighbours, and coalescing it again changes nothing. */
  lemma Idempotent(entries: seq<Entry>)
    ensures NoEqualNeighbours(Coalesced(entries)) && Coalesced(Coalesced(entries)) == Coalesced(entries)
  {
    LeavesNoMatchingNeighbours(entries, ElementDedupKey, |entries|);
    FixedExactly(Coalesced(entries));
  }

  /** A prefix may be coalesced before the rest arrives. */
  lemma Compositional(a: seq<Entry>, b: seq<Entry>)
    ensures Coalesced(a + b) == Coalesced(Coalesced(a) + b)
  {
    PrefixFirst(a, b, ElementDedupKey);
  }

  // ---------------------------------------------------------------- action files

  /** A recorded action file; only the first test's commands matter to the coalescing. */
  class ActionFile {
    var hasTest: bool
    var commands: Option<seq<Entry>> // of the first test
    var actions: Option<seq<Entry>>

    constructor (hasTest: bool, commands: Option<seq<Entry>>, actions: Option<seq<Entry>>)
      ensures this.hasTest == hasTest && this.commands == commands && this.actions == actions
    {
      this.hasTest, this.commands, this.actions := hasTest, commands, actions;
    }

    /** The list that is coalesced: the first test's commands, else the flat actions, else nothing. */
    function Input(): seq<Entry>
      reads this
    {
      if hasTest && commands.Some? then commands.value
      else if actions.Some? then actions.value else []
    }

    /** `deduplicateActionFile`: rewrites the file in place and reports `_meta`; a second call removes nothing. */
    method Deduplicate() returns (originalCount: nat, dedupedCount: nat, removedCount: nat)
      modifies this
      ensures Input() == Coalesced(old(Input())) && Coalesced(Input()) == Input()
      ensures old(hasTest) && old(commands).Some? ==>
                commands == Some(Coalesced(old(commands).value)) && originalCount == |old(commands).value|
      ensures !(old(hasTest) && old(commands).Some?) && old(actions).Some? ==>
                (if old(hasTest) then commands else actions) == Some(Coalesced(old(actions).value))
      ensures originalCount == |old(Input())| && dedupedCount == |Input()| && removedCount + dedupedCount == originalCount
      ensures removedCount == 0 <==> NoEqualNeighbours(old(Input()))
      ensures old(hasTest) ==> commands == Some(Input()) && actions == old(actions)
      ensures !old(hasTest) && old(actions).Some? ==> actions == Some(Input()) && commands == old(commands)
      ensures hasTest <==> old(hasTest) || old(actions).None?
    {
      var entries := if hasTest && commands.Some? then commands.value
                     else if actions.Some? then actions.value else [];
      var deduped := DeduplicateByXPath(entries);
      LengthExact(entries, ElementDedupKey);
      Idempotent(entries);
      if hasTest {
        commands := Some(deduped);
      } else if actions.Some? {
        actions := Some(deduped);
      } else {
        hasTest, commands := true, Some(deduped);
      }
      originalCount, dedupedCount, removedCount := |entries|, |deduped|, |entries| - |deduped|;
    }
  }
}
