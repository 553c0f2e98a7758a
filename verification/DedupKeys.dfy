/** When two actions are on the same element: the batch key by kind and text (`elementDedupKey` of `src/dedup.js`). */
module DedupKeys {
  import opened Options
  import opened Actions
  import opened Dedup

  datatype Kind = Field | Path | Button | MenuItem | Tab | Adjacent | Other

  function TextOf(e: Entry, key: string): string {
    Trim(if key in e.params then e.params[key] else "")
  }

  /** The first non-empty one of the element's two xpaths and the entry's target, trimmed. */
  function PathOf(e: Entry): string {
    var smart := if e.element.Some? && e.element.value.xpath == "" then e.element.value.xpathSmart else "";
    Trim(if e.element.Some? && e.element.value.xpath != "" then e.element.value.xpath
         else if smart != "" then smart else e.target)
  }

  function KindOf(e: Entry): Kind {
    if (e.action == "fill_form_field" || e.action == "select_option" || e.action == "select_tree_option" || e.action == "click_radio")
       && TextOf(e, "label_text") != "" then Field
    else if PathOf(e) != "" then Path
    else if e.action == "click_button" && TextOf(e, "button_text") != "" then Button
    else if e.action == "click_menu_item" && TextOf(e, "menu_text") != "" then MenuItem
    else if e.action == "switch_tab" && TextOf(e, "tab_name") != "" then Tab
    else if e.action == "click_adjacent_button" && TextOf(e, "label_text") != "" then Adjacent
    else Other
  }

  /** What an action of its kind is known by. */
  function NameOf(e: Entry): string {
    match KindOf(e)
    case Field => TextOf(e, "label_text")
    case Path => PathOf(e)
    case Button => TextOf(e, "button_text")
    case MenuItem => TextOf(e, "menu_text")
    case Tab => TextOf(e, "tab_name")
    case Adjacent => TextOf(e, "label_text")
    case Other => ""
  }

  function Prefix(k: Kind): string {
    match k
    case Field => "field:"
    case Path => "xpath:"
    case Button => "icon:"
    case MenuItem => "menu:"
    case Tab => "tab:"
    case Adjacent => "adjacent:"
    case Other => ""
  }

  lemma KeyByKind(e: Entry)
    ensures ElementDedupKey(e) == if KindOf(e) == Other then Whole(e.action, e.params) else Element(Prefix(KindOf(e)) + NameOf(e))
  {
  }

  lemma PrefixesTell(j: Kind, x: string, k: Kind, y: string)
    requires j != Other && k != Other
    ensures Prefix(j) + x == Prefix(k) + y <==> j == k && x == y
  {
    assert (Prefix(j) + x)[0] == Prefix(j)[0] && (Prefix(k) + y)[0] == Prefix(k)[0];
    if j == k && Prefix(j) + x == Prefix(k) + y {
      assert x == (Prefix(j) + x)[|Prefix(j)|..] && y == (Prefix(k) + y)[|Prefix(k)|..];
    }
  }

  /**
   * Two actions have the same key exactly when they are of one kind and known by the same label, path or text, or
   * are both of no kind and agree in action and every parameter.
   */
  lemma SameKeyExactly(a: Entry, b: Entry)
    ensures ElementDedupKey(a) == ElementDedupKey(b) <==>
              && KindOf(a) == KindOf(b) && NameOf(a) == NameOf(b)
              && (KindOf(a) == Other ==> a.action == b.action && a.params == b.params)
  {
    KeyByKind(a);
    KeyByKind(b);
    if KindOf(a) != Other && KindOf(b) != Other { PrefixesTell(KindOf(a), NameOf(a), KindOf(b), NameOf(b)); }
  }
}
