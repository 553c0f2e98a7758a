/** Trimming the agent's message history: `compile_message_window` of `scripts/context_compiler.py`. */
module MessageWindow {
  /** A managed message; `keepalive` is the caller's verdict on it. */
  datatype Message = Message(text: string, isTool: bool, keepalive: bool)

  predicate Fits(total: nat, maxRecent: int) {
    total <= maxRecent + 2
  }

  /** Kept for itself: the first message, a keepalive, or one of the last `maxRecent`. */
  predicate Pinned(ms: seq<Message>, maxRecent: int, i: int)
    requires 0 <= i < |ms|
  {
    i == 0 || ms[i].keepalive || i >= |ms| - maxRecent
  }

  /** Kept at all: pinned, or right before a pinned tool message; the rule is not applied to its own results. */
  predicate Kept(ms: seq<Message>, maxRecent: int, i: int)
    requires 0 <= i < |ms|
  {
    Pinned(ms, maxRecent, i) || (i + 1 < |ms| && ms[i + 1].isTool && Pinned(ms, maxRecent, i + 1))
  }

  function Selected(ms: seq<Message>, keep: set<int>, wanted: bool, upTo: nat): seq<int>
    requires upTo <= |ms|
  {
    if upTo == 0 then []
    else if (upTo - 1 in keep) == wanted then Selected(ms, keep, wanted, upTo - 1) + [upTo - 1]
    else Selected(ms, keep, wanted, upTo - 1)
  }

  predicate Increasing(s: seq<int>) {
    forall a, b | 0 <= a < b < |s| :: s[a] < s[b]
  }

  lemma {:induction false} SelectedExact(ms: seq<Message>, keep: set<int>, wanted: bool, upTo: nat)
    requires upTo <= |ms|
    ensures var s := Selected(ms, keep, wanted, upTo);
            Increasing(s) && (forall i :: i in s <==> 0 <= i < upTo && ((i in keep) == wanted))
  {
    if upTo > 0 {
      SelectedExact(ms, keep, wanted, upTo - 1);
      var s := Selected(ms, keep, wanted, upTo - 1);
      assert forall a | 0 <= a < |s| :: s[a] in s;
    }
  }

  /**
   * The indices of the kept and of the dropped messages. The source demands a non-empty list unless the size
   * threshold already lets it through.
   */
  method CompileMessageWindow(ms: seq<Message>, maxRecent: int) returns (kept: seq<int>, dropped: seq<int>)
    requires ms != [] || 0 <= maxRecent + 2
    ensures Increasing(kept) && Increasing(dropped)
    ensures forall i :: i in kept || i in dropped <==> 0 <= i < |ms|
    ensures forall i :: !(i in kept && i in dropped)
    ensures |ms| <= maxRecent + 2 ==> dropped == []
    ensures |ms| > maxRecent + 2 ==>
              forall i | 0 <= i < |ms| :: i in kept <==>
                || i == 0 || ms[i].keepalive || i >= |ms| - maxRecent
                || (i + 1 < |ms| && ms[i + 1].isTool && (ms[i + 1].keepalive || i + 1 >= |ms| - maxRecent))
    ensures |ms| > maxRecent + 2 ==> forall i | 0 <= i < |ms| :: i in kept <==> Kept(ms, maxRecent, i)
    ensures IsWindow(ms, maxRecent, kept)
  {
    var total := |ms|;
    if total <= maxRecent + 2 {
      kept, dropped := seq(total, i => i), [];
      forall i | 0 <= i < total ensures i in kept { assert kept[i] == i; }
      return;
    }
    var pinned := PinnedIndices(ms, maxRecent);
    var keep := KeepToolPairs(ms, pinned);
    SelectedExact(ms, keep, true, total);
    SelectedExact(ms, keep, false, total);
    kept := Indices(ms, keep, true);
    dropped := Indices(ms, keep, false);
    forall i | 0 <= i < total ensures i in kept <==> Kept(ms, maxRecent, i) {
      assert Precedes(ms, pinned, i) <==> i + 1 < total && ms[i + 1].isTool && Pinned(ms, maxRecent, i + 1);
    }
  }

  /** The three rules that keep a message for its own sake. */
  method PinnedIndices(ms: seq<Message>, maxRecent: int) returns (keep: set<int>)
    requires ms != []
    ensures forall i :: i in keep <==> 0 <= i < |ms| && Pinned(ms, maxRecent, i)
  {
    keep := {};
    for i := 0 to |ms|
      invariant forall k :: k in keep <==> 0 <= k < i && ms[k].keepalive
    {
      if ms[i].keepalive { keep := keep + {i}; }
    }
    keep := keep + {0};
    var recentStart := if |ms| - maxRecent > 0 then |ms| - maxRecent else 0;
    ghost var before := keep;
    var j := recentStart;
    while j < |ms|
      invariant recentStart <= j && (j <= |ms| || j == recentStart)
      invariant forall k :: k in keep <==> k in before || recentStart <= k < j
    {
      keep := keep + {j};
      j := j + 1;
    }
  }

  /** Message `k` comes right before a tool message of `s`. */
  predicate Precedes(ms: seq<Message>, s: set<int>, k: int) {
    0 <= k < |ms| - 1 && k + 1 in s && ms[k + 1].isTool
  }

  /** Keeps the predecessor of each tool message of the set, reading a sorted snapshot of it. */
  method KeepToolPairs(ms: seq<Message>, keep: set<int>) returns (paired: set<int>)
    requires forall k <- keep :: 0 <= k < |ms|
    ensures forall k :: k in paired <==> k in keep || Precedes(ms, keep, k)
  {
    paired := keep;
    var snapshot := Indices(ms, keep, true);
    SelectedExact(ms, keep, true, |ms|);
    ghost var seen: set<int> := {};
    for n := 0 to |snapshot|
      invariant forall k :: k in seen <==> k in snapshot[..n]
      invariant forall k :: k in paired <==> k in keep || Precedes(ms, seen, k)
    {
      var i := snapshot[n];
      assert i in snapshot;
      assert snapshot[..n + 1] == snapshot[..n] + [i];
      ghost var was := seen;
      seen := seen + {i};
      forall k ensures Precedes(ms, seen, k) <==> Precedes(ms, was, k) || (k == i - 1 && i > 0 && ms[i].isTool) {}
      if ms[i].isTool && i > 0 { paired := paired + {i - 1}; }
    }
    assert snapshot[..|snapshot|] == snapshot;
    forall k ensures k in seen <==> k in keep {
      assert k in snapshot <==> 0 <= k < |ms| && ((k in keep) == true);
    }
    assert seen == keep;
  }

  method Indices(ms: seq<Message>, keep: set<int>, wanted: bool) returns (s: seq<int>)
    ensures s == Selected(ms, keep, wanted, |ms|)
  {
    s := [];
    for i := 0 to |ms|
      invariant s == Selected(ms, keep, wanted, i)
    {
      if (i in keep) == wanted { s := s + [i]; }
    }
  }

  // ---------------------------------------------------------------- the inline window

  const MAX_RECENT := 16

  /** `kept` lists, in order, what a window of `maxRecent` keeps: everything below the threshold. */
  predicate IsWindow(ms: seq<Message>, maxRecent: int, kept: seq<int>) {
    && Increasing(kept)
    && (forall i <- kept :: 0 <= i < |ms| && InWindow(ms, maxRecent, i))
    && (forall i | 0 <= i < |ms| && InWindow(ms, maxRecent, i) :: i in kept)
  }

  predicate InWindow(ms: seq<Message>, maxRecent: int, i: int)
    requires 0 <= i < |ms|
  {
    Fits(|ms|, maxRecent) || Kept(ms, maxRecent, i)
  }

  /** The inline fallback of the patched `get_messages`, and the number of messages it drops. */
  method InlineWindow(ms: seq<Message>) returns (kept: seq<int>, dropped: nat)
    ensures IsWindow(ms, MAX_RECENT, kept) && dropped == |ms| - |kept|
  {
    var total := |ms|;
    if total <= MAX_RECENT + 2 {
      kept, dropped := seq(total, i => i), 0;
      forall i | 0 <= i < total ensures i in kept { assert kept[i] == i; }
      return;
    }
    var pinned := PinnedIndices(ms, MAX_RECENT);
    var keep := KeepToolPairs(ms, pinned);
    SelectedExact(ms, keep, true, total);
    SelectedLength(ms, keep, true, total);
    kept := Indices(ms, keep, true);
    dropped := total - |kept|;
    forall i | 0 <= i < total ensures i in kept <==> Kept(ms, MAX_RECENT, i) {
      assert Precedes(ms, pinned, i) <==> i + 1 < total && ms[i + 1].isTool && Pinned(ms, MAX_RECENT, i + 1);
    }
  }

  lemma {:induction false} SelectedLength(ms: seq<Message>, keep: set<int>, wanted: bool, upTo: nat)
    requires upTo <= |ms|
    ensures |Selected(ms, keep, wanted, upTo)| <= upTo
  {
    if upTo > 0 { SelectedLength(ms, keep, wanted, upTo - 1); }
  }

  /** The patched `get_messages` on a non-empty list: the compiled window, or the inline one if the compiler fails. */
  method GetMessages(ms: seq<Message>, budget: int, compilerFails: bool) returns (kept: seq<int>)
    requires ms != []
    ensures IsWindow(ms, if compilerFails then MAX_RECENT else budget, kept)
  {
    if compilerFails {
      var dropped;
      kept, dropped := InlineWindow(ms);
    } else {
      var dropped;
      kept, dropped := CompileMessageWindow(ms, budget);
    }
  }

  lemma HeadIsMember(s: seq<int>)
    ensures s == [] || s[0] in s
  {
  }

  lemma {:induction false} SameMembers(p: seq<int>, q: seq<int>)
    requires Increasing(p) && Increasing(q) && forall i :: i in p <==> i in q
    ensures p == q
    decreases |p|
  {
    if p == [] {
      HeadIsMember(q);
    } else {
      var x := p[|p| - 1];
      assert x in p && x in q;
      var y := q[|q| - 1];
      assert y in q && y in p;
      assert x == y;
      BelowLast(p);
      BelowLast(q);
      var pf, qf := p[..|p| - 1], q[..|q| - 1];
      forall i | i in pf ensures i in qf { assert i in p && i in q; }
      forall i | i in qf ensures i in pf { assert i in q && i in p; }
      SameMembers(pf, qf);
      assert p == p[..|p| - 1] + [x] && q == q[..|q| - 1] + [y];
    }
  }

  lemma BelowLast(p: seq<int>)
    requires p != [] && Increasing(p)
    ensures forall i :: i in p[..|p| - 1] <==> i in p && i != p[|p| - 1]
  {
    assert p == p[..|p| - 1] + [p[|p| - 1]];
  }

  lemma WindowUnique(ms: seq<Message>, maxRecent: int, p: seq<int>, q: seq<int>)
    requires IsWindow(ms, maxRecent, p) && IsWindow(ms, maxRecent, q)
    ensures p == q
  {
    SameMembers(p, q);
  }

  lemma WindowExists(ms: seq<Message>, maxRecent: int) returns (kept: seq<int>)
    ensures IsWindow(ms, maxRecent, kept)
  {
    var keep := set i | 0 <= i < |ms| && InWindow(ms, maxRecent, i);
    SelectedExact(ms, keep, true, |ms|);
    kept := Selected(ms, keep, true, |ms|);
    forall i ensures i in kept <==> 0 <= i < |ms| && ((i in keep) == true) {}
  }

  ghost predicate SameWindows(budget: int) {
    forall ms, p, q | ms != [] && IsWindow(ms, budget, p) && IsWindow(ms, MAX_RECENT, q) :: p == q
  }

  lemma BudgetsDiffer(small: nat, large: nat) returns (ms: seq<Message>, i: nat)
    requires small < large
    ensures i < |ms| && InWindow(ms, large, i) && !InWindow(ms, small, i)
  {
    ms := seq(large + 3, _ => Message("", false, false));
    i := 3;
  }

  /** A failing compiler changes no result, on any list, exactly when the configured budget is the inline one. */
  lemma FallbackAgreesExactly(budget: nat)
    ensures SameWindows(budget) <==> budget == MAX_RECENT
  {
    if budget == MAX_RECENT {
      forall ms, p, q | ms != [] && IsWindow(ms, budget, p) && IsWindow(ms, MAX_RECENT, q) ensures p == q {
        WindowUnique(ms, budget, p, q);
      }
    } else {
      var small, large := if budget < MAX_RECENT then budget else MAX_RECENT, if budget < MAX_RECENT then MAX_RECENT else budget;
      var ms, i := BudgetsDiffer(small, large);
      var p := WindowExists(ms, budget);
      var q := WindowExists(ms, MAX_RECENT);
      assert (i in p) != (i in q);
    }
  }
}
