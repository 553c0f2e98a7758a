/** The online action log: `_record_action` of `scripts/state.py` with `ActionEntry.from_record`. */
module ActionLog {
  import opened Options
  import opened Actions

  const FIELD_COALESCE_ACTIONS: set<string> := {"fill_form_field", "select_option", "select_tree_option", "click_radio"}

  datatype Request = Request(id: string, action: string, params: map<string, string>, element: Option<Capture>, source: Source)

  // ---------------------------------------------------------------- identities

  /** `_element_identity`, given the element's first non-empty xpath field. */
  function ElementIdentity(action: string, params: map<string, string>, path: string): Option<string> {
    var labelText := Text(params, "label_text");
    var xpath := Trim(path);
    if action in FIELD_COALESCE_ACTIONS && labelText != "" then Some("field:" + labelText)
    else if xpath != "" then Some("xpath:" + xpath)
    else if action == "click_button" && Text(params, "button_text") != "" then Some("icon:" + Text(params, "button_text"))
    else if action == "click_menu_item" && Text(params, "menu_text") != "" then Some("menu:" + Text(params, "menu_text"))
    else if action == "switch_tab" && Text(params, "tab_name") != "" then Some("tab:" + Text(params, "tab_name"))
    else if action == "click_adjacent_button" && labelText != "" then Some("adjacent:" + labelText)
    else None
  }

  function RecordedParams(r: Request): map<string, string> {
    r.params - {"xpath_smart"}
  }

  /** The identity of a new action, read from the element as captured. */
  function RawIdentity(r: Request): Option<string> {
    var path := match r.element case Some(el) => Or(Or(el.xpath, el.xpathSmart), el.buXpath) case None => "";
    ElementIdentity(r.action, RecordedParams(r), path)
  }

  /** The identity of a logged action, read from the element as stored; stored elements have no `bu_xpath`. */
  function StoredIdentity(e: Entry): Option<string> {
    var path := match e.element case Some(el) => Or(el.xpath, el.xpathSmart) case None => "";
    ElementIdentity(e.action, e.params, path)
  }

  /** `ActionEntry.from_record`: the smart xpath replaces the captured one, the full xpath fills in for none. */
  function FromRecord(r: Request): Entry {
    match r.element
    case None => Entry(r.id, r.action, RecordedParams(r), None, "", Some(r.source))
    case Some(el) =>
      var xpath := Or(el.xpathSmart, Or(el.xpath, el.xpathFull));
      var params := RecordedParams(r);
      Entry(
        r.id, r.action,
        if r.action == "click_element_by_index" && el.text != "" && Param(params, "text") == ""
        then params["text" := el.text] else params,
        Some(StoredElement(xpath, el.xpathSmart, el.xpathFull)), xpath, Some(r.source))
  }

  function SourceOf(e: Entry): Source {
    if e.source.Some? then e.source.value else Agent
  }

  /** The identity a new action is compared by is the one its entry will be known by. */
  predicate Settled(r: Request) {
    StoredIdentity(FromRecord(r)).Some? ==> RawIdentity(r) == StoredIdentity(FromRecord(r))
  }

  // ---------------------------------------------------------------- dates

  predicate IsDigit(c: char) { '0' <= c <= '9' }

  /** Matches `^\d{4}-\d{2}-\d{2}`. */
  predicate StartsWithDate(s: string) {
    |s| >= 10 && s[4] == '-' && s[7] == '-'
    && forall i | 0 <= i < 10 && i != 4 && i != 7 :: IsDigit(s[i])
  }

  predicate IsDate(s: string) {
    StartsWithDate(s) && |s| == 10
  }

  function DigitsValue(s: string): nat {
    if s == "" then 0
    else DigitsValue(s[..|s| - 1]) * 10 + if IsDigit(s[|s| - 1]) then s[|s| - 1] as nat - '0' as nat else 0
  }

  predicate IsDayOfMonth(s: string) {
    s != "" && (forall c <- s :: IsDigit(c)) && 1 <= DigitsValue(s) <= 31
  }

  predicate ManualOrUnset(e: Entry) {
    e.source.None? || e.source.value.Manual?
  }

  /** A manual click that only repeats the date just filled in is noise and is not recorded. */
  predicate EchoesDate(log: seq<Entry>, r: Request) {
    && r.source.Manual? && r.action == "click_element_by_index" && log != []
    && var last := log[|log| - 1];
       var click, value := Text(RecordedParams(r), "text"), Text(last.params, "value");
       last.action == "fill_form_field" && ManualOrUnset(last)
       && click != "" && value != "" && (click == value || (StartsWithDate(value) && IsDate(click)))
  }

  /** A manual date fill removes the picker click logged just before it. */
  predicate ReplacesPickerClick(log: seq<Entry>, r: Request) {
    && r.source.Manual? && r.action == "fill_form_field" && log != []
    && var last := log[|log| - 1];
       var date, click := Text(RecordedParams(r), "value"), Text(last.params, "text");
       StartsWithDate(date) && last.action == "click_element_by_index" && ManualOrUnset(last)
       && (IsDayOfMonth(click) || IsDate(click) || click == date)
  }

  /** Agent and manual actions replace a last entry of the same source and identity. */
  predicate Coalesces(log: seq<Entry>, r: Request) {
    && (r.source.Agent? || r.source.Manual?) && log != []
    && var last := log[|log| - 1];
       RawIdentity(r).Some? && SourceOf(last) == r.source && StoredIdentity(last) == RawIdentity(r)
  }

  // ---------------------------------------------------------------- recording

  function Front(log: seq<Entry>): seq<Entry>
    requires log != []
  {
    log[..|log| - 1]
  }

  function LastId(log: seq<Entry>): seq<string>
    requires log != []
  {
    if log[|log| - 1].id != "" then [log[|log| - 1].id] else []
  }

  /** An optional removal from the end of the log, with the id reported for it. */
  function PopIf(log: seq<Entry>, pop: bool): (seq<Entry>, seq<string>)
    requires pop ==> log != []
  {
    if pop then (Front(log), LastId(log)) else (log, [])
  }

  function AfterPicker(log: seq<Entry>, r: Request): seq<Entry> {
    PopIf(log, ReplacesPickerClick(log, r)).0
  }

  /** The log after both removals, and the ids reported as removed. */
  function Cleared(log: seq<Entry>, r: Request): (seq<Entry>, seq<string>) {
    var (log1, removed1) := PopIf(log, ReplacesPickerClick(log, r));
    var (log2, removed2) := PopIf(log1, Coalesces(log1, r));
    (log2, removed1 + removed2)
  }

  datatype Outcome = Outcome(log: seq<Entry>, removedIds: seq<string>, recorded: bool)

  /** `_record_action`. */
  function Record(log: seq<Entry>, r: Request): Outcome {
    if EchoesDate(log, r) then Outcome(log, [], false)
    else
      var (kept, removed) := Cleared(log, r);
      Outcome(kept + [FromRecord(r)], removed, true)
  }

  // ---------------------------------------------------------------- no echoes

  /** Two neighbours that the coalescing should not have left behind. */
  predicate Repeats(a: Entry, b: Entry) {
    SourceOf(a) == SourceOf(b) && (SourceOf(a).Agent? || SourceOf(a).Manual?)
    && StoredIdentity(a).Some? && StoredIdentity(a) == StoredIdentity(b)
  }

  predicate NoRepeats(log: seq<Entry>) {
    forall i | 0 <= i < |log| - 1 :: !Repeats(log[i], log[i + 1])
  }

  lemma PopKeepsNoRepeats(log: seq<Entry>, pop: bool)
    requires NoRepeats(log) && (pop ==> log != [])
    ensures NoRepeats(PopIf(log, pop).0)
  {
  }

  lemma AppendKeepsNoRepeats(log: seq<Entry>, e: Entry)
    requires NoRepeats(log) && (log != [] ==> !Repeats(log[|log| - 1], e))
    ensures NoRepeats(log + [e])
  {
  }

  /** What is left after the removals does not end in a repetition of the new entry. */
  lemma ClearedDoesNotRepeat(log: seq<Entry>, r: Request)
    requires NoRepeats(log) && Settled(r)
    ensures var kept := PopIf(log, Coalesces(log, r)).0;
            kept != [] ==> !Repeats(kept[|kept| - 1], FromRecord(r))
  {
    var n := |log|;
    if Coalesces(log, r) && n > 1 {
      assert !Repeats(log[n - 2], log[n - 2 + 1]);
    }
  }

  /** Recording a settled request leaves no repeating neighbours, even after a picker click was removed. */
  lemma RecordKeepsNoRepeats(log: seq<Entry>, r: Request)
    requires NoRepeats(log) && Settled(r)
    ensures NoRepeats(Record(log, r).log)
  {
    if !EchoesDate(log, r) {
      var log1 := AfterPicker(log, r);
      PopKeepsNoRepeats(log, ReplacesPickerClick(log, r));
      PopKeepsNoRepeats(log1, Coalesces(log1, r));
      ClearedDoesNotRepeat(log1, r);
      AppendKeepsNoRepeats(PopIf(log1, Coalesces(log1, r)).0, FromRecord(r));
    }
  }

  lemma NotCoalesced(a: Entry, r: Request, id: string)
    requires !Settled(r) && (r.source.Agent? || r.source.Manual?) && a == FromRecord(r.(id := id))
    ensures Record([a], r).log == [a, FromRecord(r)]
  {
    assert a == FromRecord(r).(id := id) && a.action == r.action;
  }

  lemma RecordTwice(r: Request, id: string)
    requires !Settled(r) && (r.source.Agent? || r.source.Manual?)
    ensures var first := Record([], r.(id := id)).log;
            && NoRepeats(first)
            && Record(first, r).log == [FromRecord(r.(id := id)), FromRecord(r)] && !NoRepeats(Record(first, r).log)
  {
    var a, e := FromRecord(r.(id := id)), FromRecord(r);
    assert Record([], r.(id := id)).log == [a];
    NotCoalesced(a, r, id);
    assert a == e.(id := id);
    assert Repeats([a, e][0], [a, e][1]);
  }

  ghost predicate IdIsFresh(log: seq<Entry>, id: string) {
    forall e <- log :: e.id != id
  }

  /**
   * Which requests keep the log free of repeating neighbours whatever it holds under other ids: exactly the settled
   * ones, and those of sources that are never coalesced.
   */
  lemma KeepsNoRepeatsExactly(r: Request)
    ensures (forall log: seq<Entry> | NoRepeats(log) && IdIsFresh(log, r.id) :: NoRepeats(Record(log, r).log))
            <==> Settled(r) || !(r.source.Agent? || r.source.Manual?)
  {
    if Settled(r) {
      forall log: seq<Entry> | NoRepeats(log) ensures NoRepeats(Record(log, r).log) { RecordKeepsNoRepeats(log, r); }
    } else if r.source.Agent? || r.source.Manual? {
      var other := r.(id := r.id + "'");
      RecordTwice(r, other.id);
      assert Record([], other).log == [FromRecord(other)];
      assert IdIsFresh([FromRecord(other)], r.id);
    } else {
      forall log: seq<Entry> | NoRepeats(log) ensures NoRepeats(Record(log, r).log) {
        assert SourceOf(FromRecord(r)) == r.source;
      }
    }
  }

  // ---------------------------------------------------------------- identities by path

  /** The trimmed xpath a new action is compared by. */
  function CapturedPath(r: Request): string {
    match r.element case Some(el) => Trim(Or(Or(el.xpath, el.xpathSmart), el.buXpath)) case None => ""
  }

  /** The trimmed xpath its entry will be known by. */
  function StoredPath(r: Request): string {
    match r.element case Some(el) => Trim(Or(el.xpathSmart, Or(el.xpath, el.xpathFull))) case None => ""
  }

  predicate LabelledField(r: Request) {
    r.action in FIELD_COALESCE_ACTIONS && Text(RecordedParams(r), "label_text") != ""
  }

  /** The identity of an unlabelled action without an xpath: its button, menu item, tab or neighbouring label. */
  function ByText(r: Request): Option<string> {
    var params := RecordedParams(r);
    if r.action == "click_button" && Text(params, "button_text") != "" then Some("icon:" + Text(params, "button_text"))
    else if r.action == "click_menu_item" && Text(params, "menu_text") != "" then Some("menu:" + Text(params, "menu_text"))
    else if r.action == "switch_tab" && Text(params, "tab_name") != "" then Some("tab:" + Text(params, "tab_name"))
    else if r.action == "click_adjacent_button" && Text(params, "label_text") != ""
    then Some("adjacent:" + Text(params, "label_text"))
    else None
  }

  function ByPath(r: Request, path: string): Option<string> {
    if path != "" then Some("xpath:" + path) else ByText(r)
  }

  lemma IdentitiesByPath(r: Request)
    ensures !LabelledField(r) ==>
              RawIdentity(r) == ByPath(r, CapturedPath(r)) && StoredIdentity(FromRecord(r)) == ByPath(r, StoredPath(r))
    ensures LabelledField(r) ==>
              && RawIdentity(r) == Some("field:" + Text(RecordedParams(r), "label_text"))
              && StoredIdentity(FromRecord(r)) == RawIdentity(r)
  {
    assert Trim("") == "";
  }

  lemma ByPathInjective(a: Request, p: string, b: Request, q: string)
    ensures ByPath(a, p) == ByPath(b, q) <==> p == q && (p != "" || ByText(a) == ByText(b))
  {
    if p != "" && q != "" && p != q {
      assert p == ("xpath:" + p)[6..] && q == ("xpath:" + q)[6..];
    } else if p != "" && q == "" {
      TextIsNoPath(b, p);
    } else if q != "" && p == "" {
      TextIsNoPath(a, q);
    }
  }

  lemma TextIsNoPath(r: Request, path: string)
    ensures ByText(r) != Some("xpath:" + path)
    ensures ByText(r).Some? ==> ByText(r).value[0] != 'f'
  {
    assert ("xpath:" + path)[0] == 'x';
  }

  /** A capture whose smart xpath differs from its plain one is not settled: the same click is logged twice. */
  lemma SmartXpathIsNotSettled()
    ensures var el := Capture("/html/a", "//a[1]", "", "", "");
            var a := Request("1", "click_element_by_index", map[], Some(el), Agent);
            var b := a.(id := "2");
            var log := Record(Record([], a).log, b).log;
            !Settled(b) && log == [FromRecord(a), FromRecord(b)] && !NoRepeats(log)
  {
    var el := Capture("/html/a", "//a[1]", "", "", "");
    var b := Request("2", "click_element_by_index", map[], Some(el), Agent);
    SmartXpathDiffers();
    DifferingPathsAreNotSettled(b);
    RecordTwice(b, "1");
    assert b.(id := "1") == Request("1", "click_element_by_index", map[], Some(el), Agent);
  }

  lemma DifferingPathsAreNotSettled(r: Request)
    requires !LabelledField(r) && StoredPath(r) != "" && CapturedPath(r) != StoredPath(r)
    ensures !Settled(r)
  {
    IdentitiesByPath(r);
    ByPathInjective(r, CapturedPath(r), r, StoredPath(r));
  }

  lemma SmartXpathDiffers()
    ensures Trim("/html/a") == "/html/a" && Trim("//a[1]") == "//a[1]" && "xpath:" + "/html/a" != "xpath:" + "//a[1]"
  {
    assert TrimLeft("/html/a") == "/html/a" && TrimRight("/html/a") == "/html/a";
    assert TrimLeft("//a[1]") == "//a[1]" && TrimRight("//a[1]") == "//a[1]";
    assert ("xpath:" + "/html/a")[7] == 'h' && ("xpath:" + "//a[1]")[7] == '/';
  }
}
