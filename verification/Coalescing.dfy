/** Collapsing runs of neighbours that match, by overwriting the last entry kept so far. */
module Coalescing {

  /** One round: overwrite a matching last entry, or append. */
  function Push<E, K(==)>(result: seq<E>, cur: E, key: E -> K): seq<E> {
    if result != [] && key(result[|result| - 1]) == key(cur) then result[|result| - 1 := cur] else result + [cur]
  }

  /** The result after the first `n` rounds. */
  function CoalescedTo<E, K(==)>(entries: seq<E>, key: E -> K, n: nat): seq<E>
    requires n <= |entries|
  {
    if n == 0 then [] else Push(CoalescedTo(entries, key, n - 1), entries[n - 1], key)
  }

  /** The first `n` entries without those whose flag is set, in order. */
  function Chosen<E>(entries: seq<E>, drop: seq<bool>, n: nat): seq<E>
    requires n <= |entries| && n <= |drop|
  {
    if n == 0 then []
    else if drop[n - 1] then Chosen(entries, drop, n - 1)
    else Chosen(entries, drop, n - 1) + [entries[n - 1]]
  }

  /** Whether an entry is followed by one it matches. */
  function Followed<E, K(==)>(entries: seq<E>, key: E -> K): (drop: seq<bool>)
    requires entries != []
    ensures |drop| == |entries| - 1
    ensures forall i | 0 <= i < |entries| - 1 :: drop[i] == (key(entries[i]) == key(entries[i + 1]))
  {
    seq(|entries| - 1, i requires 0 <= i < |entries| - 1 => key(entries[i]) == key(entries[i + 1]))
  }

  predicate NoMatchingNeighbours<E, K(==)>(entries: seq<E>, key: E -> K) {
    forall i | 0 <= i < |entries| - 1 :: key(entries[i]) != key(entries[i + 1])
  }

  lemma PushAfter<E, K>(kept: seq<E>, last: E, cur: E, key: E -> K)
    ensures Push(kept + [last], cur, key) == (if key(last) == key(cur) then kept else kept + [last]) + [cur]
  {
  }

  /** Exactly the last entry of each maximal run of matching neighbours is kept, in the original order. */
  lemma {:induction false} KeepsLastOfEachRun<E, K>(entries: seq<E>, key: E -> K, n: nat)
    requires 0 < n <= |entries|
    ensures CoalescedTo(entries, key, n) == Chosen(entries, Followed(entries, key), n - 1) + [entries[n - 1]]
  {
    if n == 1 {
      assert CoalescedTo(entries, key, 0) == [];
    } else {
      KeepsLastOfEachRun(entries, key, n - 1);
      PushAfter(Chosen(entries, Followed(entries, key), n - 2), entries[n - 2], entries[n - 1], key);
    }
  }

  lemma PushKeepsNoMatching<E, K>(result: seq<E>, cur: E, key: E -> K)
    requires NoMatchingNeighbours(result, key)
    ensures NoMatchingNeighbours(Push(result, cur, key), key)
  {
  }

  lemma {:induction false} LeavesNoMatchingNeighbours<E, K>(entries: seq<E>, key: E -> K, n: nat)
    requires n <= |entries|
    ensures NoMatchingNeighbours(CoalescedTo(entries, key, n), key)
  {
    if n > 0 {
      LeavesNoMatchingNeighbours(entries, key, n - 1);
      PushKeepsNoMatching(CoalescedTo(entries, key, n - 1), entries[n - 1], key);
    }
  }

  lemma {:induction false} NoMatchingStays<E, K>(entries: seq<E>, key: E -> K, n: nat)
    requires n <= |entries| && NoMatchingNeighbours(entries, key)
    ensures CoalescedTo(entries, key, n) == entries[..n]
  {
    if n > 0 {
      NoMatchingStays(entries, key, n - 1);
      assert entries[..n] == entries[..n - 1] + [entries[n - 1]];
    }
  }

  lemma {:induction false} SamePrefix<E, K>(a: seq<E>, b: seq<E>, key: E -> K, n: nat)
    requires n <= |a| && n <= |b| && forall i | 0 <= i < n :: a[i] == b[i]
    ensures CoalescedTo(a, key, n) == CoalescedTo(b, key, n)
  {
    if n > 0 { SamePrefix(a, b, key, n - 1); }
  }

  lemma {:induction false} SameRest<E, K>(a: seq<E>, c: seq<E>, b: seq<E>, key: E -> K, n: nat)
    requires n <= |b| && CoalescedTo(a, key, |a|) == CoalescedTo(c, key, |c|)
    ensures CoalescedTo(a + b, key, |a| + n) == CoalescedTo(c + b, key, |c| + n)
  {
    if n == 0 {
      SamePrefix(a + b, a, key, |a|);
      SamePrefix(c + b, c, key, |c|);
    } else {
      SameRest(a, c, b, key, n - 1);
      assert (a + b)[|a| + n - 1] == b[n - 1] == (c + b)[|c| + n - 1];
    }
  }

  /** A prefix may be coalesced before the rest arrives. */
  lemma PrefixFirst<E, K>(a: seq<E>, b: seq<E>, key: E -> K)
    ensures var c := CoalescedTo(a, key, |a|);
            CoalescedTo(a + b, key, |a + b|) == CoalescedTo(c + b, key, |c + b|)
  {
    var c := CoalescedTo(a, key, |a|);
    LeavesNoMatchingNeighbours(a, key, |a|);
    NoMatchingStays(c, key, |c|);
    SameRest(a, c, b, key, |b|);
  }

  lemma {:induction false} ChosenLength<E>(entries: seq<E>, drop: seq<bool>, n: nat)
    requires n <= |entries| && n <= |drop|
    ensures |Chosen(entries, drop, n)| <= n
    ensures |Chosen(entries, drop, n)| == n <==> forall i | 0 <= i < n :: !drop[i]
  {
    if n > 0 { ChosenLength(entries, drop, n - 1); }
  }

  /** As many entries as before means that no neighbours matched. */
  lemma LengthExact<E, K>(entries: seq<E>, key: E -> K)
    ensures |CoalescedTo(entries, key, |entries|)| <= |entries|
    ensures |CoalescedTo(entries, key, |entries|)| == |entries| <==> NoMatchingNeighbours(entries, key)
  {
    if entries != [] {
      KeepsLastOfEachRun(entries, key, |entries|);
      var f := Followed(entries, key);
      ChosenLength(entries, f, |f|);
      if i :| 0 <= i < |entries| - 1 && key(entries[i]) == key(entries[i + 1]) {
        assert f[i];
      }
    }
  }

  // ---------------------------------------------------------------- what a choice tells

  ghost predicate Distinct<E>(es: seq<E>) {
    forall i, j | 0 <= i < j < |es| :: es[i] != es[j]
  }

  lemma {:induction false} OnlyChosenBelow<E>(es: seq<E>, drop: seq<bool>, n: nat, i: nat)
    requires n <= i < |es| && n <= |drop| && Distinct(es)
    ensures es[i] !in Chosen(es, drop, n)
  {
    if n > 0 { OnlyChosenBelow(es, drop, n - 1, i); }
  }

  /** Of distinct entries, exactly those without a flag are chosen. */
  lemma {:induction false} ChosenMember<E>(es: seq<E>, drop: seq<bool>, n: nat, i: nat)
    requires i < n <= |es| && n <= |drop| && Distinct(es)
    ensures es[i] in Chosen(es, drop, n) <==> !drop[i]
  {
    if i == n - 1 {
      OnlyChosenBelow(es, drop, n - 1, i);
    } else {
      ChosenMember(es, drop, n - 1, i);
      assert es[i] != es[n - 1];
    }
  }

  lemma SnocInjective<E>(a: seq<E>, b: seq<E>, e: E)
    requires a + [e] == b + [e]
    ensures a == b
  {
    assert a == (a + [e])[..|a|] && b == (b + [e])[..|b|];
  }

  lemma {:induction false} ChosenCongruent<E>(es: seq<E>, f: seq<bool>, g: seq<bool>, n: nat)
    requires n <= |f| && n <= |g| && n <= |es| && forall i | 0 <= i < n :: f[i] == g[i]
    ensures Chosen(es, f, n) == Chosen(es, g, n)
  {
    if n > 0 { ChosenCongruent(es, f, g, n - 1); }
  }

  /** Of distinct entries, two choices agree exactly when their flags do. */
  lemma SameChoiceExactly<E>(es: seq<E>, f: seq<bool>, g: seq<bool>, n: nat)
    requires n <= |f| && n <= |g| && n <= |es| && Distinct(es)
    ensures Chosen(es, f, n) == Chosen(es, g, n) <==> forall i | 0 <= i < n :: f[i] == g[i]
  {
    if Chosen(es, f, n) == Chosen(es, g, n) {
      forall i | 0 <= i < n ensures f[i] == g[i] {
        ChosenMember(es, f, n, i);
        ChosenMember(es, g, n, i);
      }
    } else if forall i | 0 <= i < n :: f[i] == g[i] {
      ChosenCongruent(es, f, g, n);
    }
  }

  /** A choice that always keeps the last entry is the coalescing exactly when it drops what a match follows. */
  lemma CoalescesExactly<E, K>(es: seq<E>, drop: seq<bool>, key: E -> K)
    requires es != [] && |drop| == |es| - 1 && Distinct(es)
    ensures Chosen(es, drop, |drop|) + [es[|drop|]] == CoalescedTo(es, key, |es|)
            <==> drop == Followed(es, key)
  {
    var n, f := |drop|, Followed(es, key);
    KeepsLastOfEachRun(es, key, |es|);
    SameChoiceExactly(es, drop, f, n);
    if Chosen(es, drop, n) + [es[n]] == Chosen(es, f, n) + [es[n]] {
      SnocInjective(Chosen(es, drop, n), Chosen(es, f, n), es[n]);
    }
  }
}
