/** Recorded controller actions: what is captured, what is stored, and the text helpers both recorders share. */
module Actions {
  import opened Options

  datatype Source = Agent | Manual | Cdp | Named(name: string)

  /** A captured DOM element; `xpathFull` is the absolute path under either of its two names. */
  datatype Capture = Capture(xpath: string, xpathSmart: string, xpathFull: string, buXpath: string, text: string)

  datatype StoredElement = StoredElement(xpath: string, xpathSmart: string, xpathFull: string)

  datatype Entry = Entry(
    id: string,
    action: string,
    params: map<string, string>,
    element: Option<StoredElement>,
    target: string,
    source: Option<Source>)

  predicate IsSpace(c: char) {
    c == ' ' || '\t' <= c <= '\r'
  }

  function TrimLeft(s: string): string {
    if s != "" && IsSpace(s[0]) then TrimLeft(s[1..]) else s
  }

  function TrimRight(s: string): string {
    if s != "" && IsSpace(s[|s| - 1]) then TrimRight(s[..|s| - 1]) else s
  }

  function Trim(s: string): string {
    TrimRight(TrimLeft(s))
  }

  /** `a or b` on strings: blank text that is not empty still wins. */
  function Or(a: string, b: string): string {
    if a != "" then a else b
  }

  function Param(params: map<string, string>, key: string): string {
    if key in params then params[key] else ""
  }

  function Text(params: map<string, string>, key: string): string {
    Trim(Param(params, key))
  }

  ghost predicate Blank(s: string) {
    forall c <- s :: c == ' ' || '\t' <= c <= '\r'
  }

  /** Trimming cuts white space off both ends and nothing else. */
  ghost predicate TrimsTo(s: string, t: string) {
    && (exists left, right :: Blank(left) && Blank(right) && s == left + t + right)
    && (t != "" ==> !Blank(t[..1]) && !Blank(t[|t| - 1..]))
  }

  lemma {:induction false} TrimLeftCuts(s: string) returns (left: string)
    ensures Blank(left) && s == left + TrimLeft(s)
    ensures TrimLeft(s) != "" ==> !IsSpace(TrimLeft(s)[0])
  {
    if s != "" && IsSpace(s[0]) {
      var rest := TrimLeftCuts(s[1..]);
      left := [s[0]] + rest;
      ConsCut(s[0], rest, TrimLeft(s[1..]), s);
    } else {
      left := "";
    }
  }

  lemma ConsCut(c: char, rest: string, t: string, s: string)
    requires s != "" && s[0] == c && s[1..] == rest + t
    ensures s == [c] + rest + t
  {
  }

  lemma {:induction false} TrimRightCuts(s: string) returns (right: string)
    ensures Blank(right) && s == TrimRight(s) + right
    ensures TrimRight(s) != "" ==> !IsSpace(TrimRight(s)[|TrimRight(s)| - 1])
  {
    if s != "" && IsSpace(s[|s| - 1]) {
      var rest := TrimRightCuts(s[..|s| - 1]);
      right := rest + [s[|s| - 1]];
      assert s == s[..|s| - 1] + [s[|s| - 1]];
    } else {
      right := "";
    }
  }

  lemma TrimExact(s: string)
    ensures TrimsTo(s, Trim(s))
  {
    var left := TrimLeftCuts(s);
    var right := TrimRightCuts(TrimLeft(s));
    var t := Trim(s);
    assert s == left + t + right;
    if t != "" {
      assert t[0] == TrimLeft(s)[0] && t[..1][0] == t[0] && t[|t| - 1..][0] == t[|t| - 1];
      assert t[0] in t[..1] && t[|t| - 1] in t[|t| - 1..];
    }
  }

  lemma BordersAgree(l: string, t: string, r: string, l': string, u: string, r': string)
    requires l + t + r == l' + u + r' && Blank(l') && Blank(r') && t != ""
    requires !Blank(t[..1]) && !Blank(t[|t| - 1..])
    ensures |l'| <= |l| && |r'| <= |r|
  {
    var s := l + t + r;
    assert s[|l|] == t[0] && s[|l| + |t| - 1] == t[|t| - 1];
    assert s == l' + (u + r') && s == l' + u + r';
    BlankPrefix(l', u + r', |l|);
    BlankSuffix(l' + u, r', |l| + |t| - 1);
  }

  lemma BlankPrefix(a: string, b: string, k: nat)
    requires Blank(a) && k < |a + b|
    ensures k < |a| ==> IsSpace((a + b)[k])
  {
    if k < |a| { assert a[k] in a; }
  }

  lemma BlankSuffix(a: string, b: string, k: nat)
    requires Blank(b) && k < |a + b|
    ensures k >= |a| ==> IsSpace((a + b)[k])
  {
    if k >= |a| { assert b[k - |a|] in b; }
  }

  lemma TrimUnique(s: string, t: string, u: string)
    requires TrimsTo(s, t) && TrimsTo(s, u)
    ensures t == u
  {
    var l, r :| Blank(l) && Blank(r) && s == l + t + r;
    var l', r' :| Blank(l') && Blank(r') && s == l' + u + r';
    if t != "" { BordersAgree(l, t, r, l', u, r'); }
    if u != "" { BordersAgree(l', u, r', l, t, r); }
    if t != "" && u != "" {
      assert t == s[|l|..|s| - |r|] && u == s[|l'|..|s| - |r'|];
    }
  }
}
