/** What one recording skips, removes and stores, read off the log and the request (`_record_action`, `from_record`). */
module ActionRules {
  import opened Options
  import opened Actions
  import opened ActionLog
  import SlotLeases

  // ---------------------------------------------------------------- dates and days

  ghost predicate Digits(s: string, n: nat) {
    |s| == n && forall c <- s :: '0' <= c <= '9'
  }

  /** Begins with four digits, two and two, joined by dashes. */
  ghost predicate DatePrefix(s: string) {
    exists y, m, d, rest :: Digits(y, 4) && Digits(m, 2) && Digits(d, 2) && s == y + "-" + m + "-" + d + rest
  }

  ghost predicate WholeDate(s: string) {
    exists y, m, d :: Digits(y, 4) && Digits(m, 2) && Digits(d, 2) && s == y + "-" + m + "-" + d
  }

  lemma DateParts(y: string, m: string, d: string, rest: string)
    requires Digits(y, 4) && Digits(m, 2) && Digits(d, 2)
    ensures StartsWithDate(y + "-" + m + "-" + d + rest)
  {
    var s := y + "-" + m + "-" + d + rest;
    forall i | 0 <= i < 10 && i != 4 && i != 7 ensures IsDigit(s[i]) {
      assert i < 4 ==> s[i] == y[i] && y[i] in y;
      assert 4 < i < 7 ==> s[i] == m[i - 5] && m[i - 5] in m;
      assert 7 < i ==> s[i] == d[i - 8] && d[i - 8] in d;
    }
    assert s[4] == '-' && s[7] == '-';
  }

  lemma DateShape(s: string)
    ensures StartsWithDate(s) <==> DatePrefix(s)
    ensures IsDate(s) <==> WholeDate(s)
  {
    if StartsWithDate(s) {
      var y, m, d, rest := s[..4], s[5..7], s[8..10], s[10..];
      assert Digits(y, 4) && Digits(m, 2) && Digits(d, 2);
      assert s == y + "-" + m + "-" + d + rest;
      if |s| == 10 { assert s == y + "-" + m + "-" + d; }
    }
    if y, m, d, rest :| Digits(y, 4) && Digits(m, 2) && Digits(d, 2) && s == y + "-" + m + "-" + d + rest {
      DateParts(y, m, d, rest);
    }
    if y, m, d :| Digits(y, 4) && Digits(m, 2) && Digits(d, 2) && s == y + "-" + m + "-" + d {
      DateParts(y, m, d, "");
      assert s == y + "-" + m + "-" + d + "";
    }
  }

  /** A printed number is read back, with or without leading zeros. */
  lemma {:induction false} DigitsRead(n: nat)
    ensures DigitsValue(SlotLeases.Digits(n)) == n
  {
    var s := SlotLeases.Digits(n);
    if n >= 10 {
      DigitsRead(n / 10);
      assert s[..|s| - 1] == SlotLeases.Digits(n / 10);
    } else {
      assert s[..|s| - 1] == "" && DigitsValue("") == 0;
    }
  }

  lemma {:induction false} ZerosAreIgnored(s: string)
    ensures DigitsValue("0" + s) == DigitsValue(s)
  {
    var t := "0" + s;
    if s == "" {
      assert t == "0" && t[..|t| - 1] == "" && DigitsValue("") == 0;
    } else {
      ZerosAreIgnored(s[..|s| - 1]);
      assert t[..|t| - 1] == "0" + s[..|s| - 1];
    }
  }

  ghost predicate DayOfMonth(s: string) {
    s != "" && (forall c <- s :: '0' <= c <= '9') && 1 <= DigitsValue(s) <= 31
  }

  // ---------------------------------------------------------------- what is skipped and removed

  function TextOf(params: map<string, string>, key: string): string {
    Trim(if key in params then params[key] else "")
  }

  predicate ByHand(e: Entry) {
    e.source == None || e.source == Some(Manual)
  }

  /** A manual click that repeats what was just filled in by hand: the same text, or both are dates. */
  ghost predicate RepeatsFill(last: Entry, r: Request) {
    && r.source == Manual && r.action == "click_element_by_index"
    && last.action == "fill_form_field" && ByHand(last)
    && TextOf(r.params, "text") != "" && TextOf(last.params, "value") != ""
    && (TextOf(r.params, "text") == TextOf(last.params, "value")
        || (DatePrefix(TextOf(last.params, "value")) && WholeDate(TextOf(r.params, "text"))))
  }

  /** A manual fill of a date, right after a click by hand on a day, on a date or on that very text. */
  ghost predicate FillsClickedDate(last: Entry, r: Request) {
    && r.source == Manual && r.action == "fill_form_field"
    && last.action == "click_element_by_index" && ByHand(last)
    && DatePrefix(TextOf(r.params, "value"))
    && (DayOfMonth(TextOf(last.params, "text")) || WholeDate(TextOf(last.params, "text"))
        || TextOf(last.params, "text") == TextOf(r.params, "value"))
  }

  /** An agent's or a manual action on the element that the same kind of source acted on last. */
  predicate SameElement(last: Entry, r: Request) {
    && (r.source == Agent || r.source == Manual)
    && (if last.source == None then Agent else last.source.value) == r.source
    && RawIdentity(r) != None && StoredIdentity(last) == RawIdentity(r)
  }

  lemma EchoMeans(log: seq<Entry>, r: Request)
    ensures EchoesDate(log, r) <==> log != [] && RepeatsFill(log[|log| - 1], r)
  {
    if log != [] {
      DateShape(TextOf(log[|log| - 1].params, "value"));
      DateShape(TextOf(r.params, "text"));
    }
  }

  /** A request is passed over, without touching the log, exactly when it repeats what the last entry filled in. */
  lemma SkippedExactly(log: seq<Entry>, r: Request)
    ensures !Record(log, r).recorded <==> log != [] && RepeatsFill(log[|log| - 1], r)
    ensures !Record(log, r).recorded ==> Record(log, r).log == log && Record(log, r).removedIds == []
  {
    EchoMeans(log, r);
  }

  lemma PickerMeans(log: seq<Entry>, r: Request)
    ensures ReplacesPickerClick(log, r) <==> log != [] && FillsClickedDate(log[|log| - 1], r)
  {
    if log != [] {
      DateShape(TextOf(r.params, "value"));
      DateShape(TextOf(log[|log| - 1].params, "text"));
    }
  }

  lemma CoalescesMeans(log: seq<Entry>, r: Request)
    ensures Coalesces(log, r) <==> log != [] && SameElement(log[|log| - 1], r)
  {
  }

  function IdsOf(e: Entry): seq<string> {
    if e.id == "" then [] else [e.id]
  }

  function Shorter(log: seq<Entry>, pop: bool): seq<Entry>
    requires pop ==> log != []
  {
    if pop then log[..|log| - 1] else log
  }

  function Reports(log: seq<Entry>, pop: bool): seq<string>
    requires pop ==> log != []
  {
    if pop then IdsOf(log[|log| - 1]) else []
  }

  lemma RemovedBy(log: seq<Entry>, r: Request, picker: bool, same: bool)
    requires !EchoesDate(log, r) && picker == ReplacesPickerClick(log, r)
    requires same == Coalesces(Shorter(log, picker), r)
    ensures var log1, out := Shorter(log, picker), Record(log, r);
            && out.log == Shorter(log1, same) + [FromRecord(r)]
            && out.removedIds == Reports(log, picker) + Reports(log1, same)
  {
  }

  /**
   * A recorded request loses the log its last entry exactly if that is a picker click the fill replaces, then the
   * one that is last by now exactly if it was on the same element, reports their ids in that order, and is appended.
   */
  lemma RemovedExactly(log: seq<Entry>, r: Request, picker: bool, same: bool)
    requires Record(log, r).recorded
    requires picker <==> log != [] && FillsClickedDate(log[|log| - 1], r)
    requires var log1 := Shorter(log, picker); same <==> log1 != [] && SameElement(log1[|log1| - 1], r)
    ensures var log1, out := Shorter(log, picker), Record(log, r);
            && out.log == Shorter(log1, same) + [FromRecord(r)]
            && out.removedIds == Reports(log, picker) + Reports(log1, same)
  {
    PickerMeans(log, r);
    CoalescesMeans(Shorter(log, picker), r);
    RemovedBy(log, r, picker, same);
  }

  // ---------------------------------------------------------------- what is stored

  /** The text a click is stored with: its own, or the element's when it has none. */
  predicate StoresText(r: Request, e: Entry) {
    match r.element
    case Some(el) =>
      if r.action == "click_element_by_index" && el.text != "" && ("text" !in r.params || r.params["text"] == "")
      then "text" in e.params && e.params["text"] == el.text
      else ("text" in e.params <==> "text" in r.params) && ("text" in r.params ==> e.params["text"] == r.params["text"])
    case None => ("text" in e.params <==> "text" in r.params) && ("text" in r.params ==> e.params["text"] == r.params["text"])
  }

  /** The entry is the request: its id, action, source and parameters, less the smart xpath one, and its paths. */
  lemma EntryCarriesRequest(r: Request)
    ensures var e := FromRecord(r);
            && e.id == r.id && e.action == r.action && e.source == Some(r.source)
            && (forall k | k != "text" :: k in e.params <==> k in r.params && k != "xpath_smart")
            && (forall k | k != "text" && k in e.params :: e.params[k] == r.params[k])
            && StoresText(r, e)
            && (e.element.None? <==> r.element.None?)
            && (r.element.Some? ==>
                  var el := r.element.value;
                  && e.element.value.xpathSmart == el.xpathSmart && e.element.value.xpathFull == el.xpathFull
                  && e.target == e.element.value.xpath
                  && e.target == if el.xpathSmart != "" then el.xpathSmart else if el.xpath != "" then el.xpath else el.xpathFull)
  {
  }
}
