/** The last frame of each remote session, kept for late viewers: `lastRscfByUuid` of `src/executor-ws.js`. */
module FrameCache {
  import opened Options
  import opened Rscf

  const LAST_RSCF_MAX: nat := 16

  /** A JavaScript map keeps insertion order, so the cache is a sequence, oldest entry first. */
  datatype Item = Item(uuid: bytes, packet: bytes)

  predicate Has(items: seq<Item>, uuid: bytes) {
    exists i | 0 <= i < |items| :: items[i].uuid == uuid
  }

  function Without(items: seq<Item>, uuid: bytes): seq<Item> {
    if items == [] then []
    else if items[|items| - 1].uuid == uuid then Without(items[..|items| - 1], uuid)
    else Without(items[..|items| - 1], uuid) + [items[|items| - 1]]
  }

  /** Delete, re-insert at the end, and drop the oldest entry above the limit. */
  function Store(cache: seq<Item>, x: Item): seq<Item> {
    var c := Without(cache, x.uuid) + [x];
    if |c| > LAST_RSCF_MAX then c[1..] else c
  }

  function Get(cache: seq<Item>, uuid: bytes): Option<bytes> {
    if cache == [] then None
    else if cache[|cache| - 1].uuid == uuid then Some(cache[|cache| - 1].packet)
    else Get(cache[..|cache| - 1], uuid)
  }

  function Cached(history: seq<Item>): seq<Item> {
    if history == [] then [] else Store(Cached(history[..|history| - 1]), history[|history| - 1])
  }

  // ---------------------------------------------------------------- the reference: a search through the history

  /** The newest packet of every uuid ever seen, ordered by when it was last seen. */
  function Latest(history: seq<Item>): seq<Item> {
    if history == [] then []
    else Without(Latest(history[..|history| - 1]), history[|history| - 1].uuid) + [history[|history| - 1]]
  }

  function Uuids(items: seq<Item>): set<bytes> {
    set x <- items :: x.uuid
  }

  /** Walk back through the history: the newest packet, unless 16 other sessions have been seen since. */
  function Search(history: seq<Item>, since: set<bytes>, uuid: bytes): Option<bytes> {
    if history == [] then None
    else
      var last := history[|history| - 1];
      if last.uuid == uuid then if |since| < LAST_RSCF_MAX then Some(last.packet) else None
      else Search(history[..|history| - 1], since + {last.uuid}, uuid)
  }

  predicate Distinct(items: seq<Item>) {
    forall i, j | 0 <= i < j < |items| :: items[i].uuid != items[j].uuid
  }

  function LastN(items: seq<Item>, n: nat): seq<Item> {
    if |items| <= n then items else items[|items| - n..]
  }

  lemma {:induction false} WithoutMembers(items: seq<Item>, uuid: bytes, x: Item)
    ensures x in Without(items, uuid) <==> x in items && x.uuid != uuid
  {
    if items != [] {
      WithoutMembers(items[..|items| - 1], uuid, x);
      assert items == items[..|items| - 1] + [items[|items| - 1]];
    }
  }

  lemma {:induction false} WithoutSplit(a: seq<Item>, b: seq<Item>, uuid: bytes)
    ensures Without(a + b, uuid) == Without(a, uuid) + Without(b, uuid)
  {
    if b == [] {
      assert a + b == a;
    } else {
      assert (a + b)[..|a + b| - 1] == a + b[..|b| - 1];
      WithoutSplit(a, b[..|b| - 1], uuid);
    }
  }

  lemma {:induction false} WithoutDistinct(items: seq<Item>, uuid: bytes)
    requires Distinct(items)
    ensures Distinct(Without(items, uuid))
    ensures |Without(items, uuid)| == |items| - if Has(items, uuid) then 1 else 0
  {
    if items != [] {
      var front, last := items[..|items| - 1], items[|items| - 1];
      WithoutDistinct(front, uuid);
      forall x | x in Without(front, uuid) ensures x.uuid != last.uuid {
        WithoutMembers(front, uuid, x);
        var i :| 0 <= i < |front| && front[i] == x;
        assert items[i] == x;
      }
      assert last.uuid == uuid ==> !Has(front, uuid);
      assert Has(front, uuid) ==> Has(items, uuid);
    }
  }

  lemma {:induction false} LatestDistinct(history: seq<Item>)
    ensures Distinct(Latest(history))
  {
    if history != [] {
      var front, last := history[..|history| - 1], history[|history| - 1];
      LatestDistinct(front);
      WithoutDistinct(Latest(front), last.uuid);
      forall x | x in Without(Latest(front), last.uuid) ensures x.uuid != last.uuid {
        WithoutMembers(Latest(front), last.uuid, x);
      }
    }
  }

  lemma LastOfSplit(p: seq<Item>, q: seq<Item>, n: nat)
    ensures |q| == n ==> LastN(p + q, n) == q
    ensures |q| == n + 1 ==> LastN(p + q, n) == q[1..]
  {
    if |q| == n { assert (p + q)[|p + q| - n..] == q; }
    if |q| == n + 1 { assert (p + q)[|p + q| - n..] == q[1..]; }
  }

  /** Keeping the newest 16 commutes with storing one more frame. */
  lemma StoreKeepsLast(items: seq<Item>, x: Item)
    requires Distinct(items)
    ensures Store(LastN(items, LAST_RSCF_MAX), x) == LastN(Without(items, x.uuid) + [x], LAST_RSCF_MAX)
  {
    var n := LAST_RSCF_MAX;
    if |items| > n {
      StoreIntoFull(items[..|items| - n], items[|items| - n..], x);
      assert items == items[..|items| - n] + items[|items| - n..];
    } else {
      WithoutDistinct(items, x.uuid);
      var c := Without(items, x.uuid) + [x];
      assert |c| > n ==> c[1..] == LastN(c, n);
    }
  }

  lemma StoreIntoFull(a: seq<Item>, b: seq<Item>, x: Item)
    requires |b| == LAST_RSCF_MAX && Distinct(b) && (Has(b, x.uuid) ==> !Has(a, x.uuid))
    ensures Store(b, x) == LastN(Without(a + b, x.uuid) + [x], LAST_RSCF_MAX)
  {
    var wa, wb := Without(a, x.uuid), Without(b, x.uuid);
    WithoutSplit(a, b, x.uuid);
    WithoutDistinct(b, x.uuid);
    assert wa + wb + [x] == wa + (wb + [x]);
    LastOfSplit(wa, wb + [x], LAST_RSCF_MAX);
  }

  /** For any history, the cache is exactly the newest packets of the 16 most recently seen sessions, in that order. */
  lemma {:induction false} CacheHoldsLatest16(history: seq<Item>)
    ensures Cached(history) == LastN(Latest(history), LAST_RSCF_MAX)
  {
    if history != [] {
      var front := history[..|history| - 1];
      CacheHoldsLatest16(front);
      LatestDistinct(front);
      StoreKeepsLast(Latest(front), history[|history| - 1]);
    }
  }

  // ---------------------------------------------------------------- lookups

  lemma {:induction false} DistinctUuids(items: seq<Item>)
    requires Distinct(items)
    ensures |Uuids(items)| == |items|
  {
    if items != [] {
      var front, last := items[..|items| - 1], items[|items| - 1];
      DistinctUuids(front);
      assert items == front + [last];
      assert Uuids(items) == Uuids(front) + {last.uuid};
      assert last.uuid !in Uuids(front);
    }
  }

  lemma {:induction false} GetAt(p: seq<Item>, y: Item, q: seq<Item>)
    requires !Has(q, y.uuid)
    ensures Get(p + [y] + q, y.uuid) == Some(y.packet)
  {
    if q == [] {
      assert p + [y] + q == p + [y];
    } else {
      var front := q[..|q| - 1];
      assert forall i | 0 <= i < |front| :: front[i] == q[i];
      GetAt(p, y, front);
      assert (p + [y] + q)[..|p + [y] + q| - 1] == p + [y] + front;
    }
  }

  lemma {:induction false} GetMissing(items: seq<Item>, uuid: bytes)
    requires !Has(items, uuid)
    ensures Get(items, uuid) == None
  {
    if items != [] {
      var front := items[..|items| - 1];
      assert forall i | 0 <= i < |front| :: front[i] == items[i];
      GetMissing(front, uuid);
    }
  }

  lemma AbsentAfter(p: seq<Item>, y: Item, q: seq<Item>)
    requires Distinct(p + [y] + q)
    ensures !Has(q, y.uuid) && Distinct(q)
  {
    var items := p + [y] + q;
    assert forall i | 0 <= i < |q| :: q[i] == items[|p| + 1 + i];
    assert items[|p|] == y;
  }

  lemma AbsentInSuffix(q: seq<Item>, n: nat, uuid: bytes)
    requires !Has(q, uuid) && n <= |q|
    ensures !Has(q[n..], uuid)
  {
  }

  /** In the newest-16 window, an item is found exactly when fewer than 16 come after it. */
  lemma GetInWindow(p: seq<Item>, y: Item, q: seq<Item>)
    requires !Has(q, y.uuid)
    ensures Get(LastN(p + [y] + q, LAST_RSCF_MAX), y.uuid) == if |q| < LAST_RSCF_MAX then Some(y.packet) else None
  {
    var items, n := p + [y] + q, LAST_RSCF_MAX;
    if |items| <= n {
      GetAt(p, y, q);
    } else if |q| < n {
      assert items[|items| - n..] == p[|items| - n..] + [y] + q;
      GetAt(p[|items| - n..], y, q);
    } else {
      assert items[|items| - n..] == q[|q| - n..];
      AbsentInSuffix(q, |q| - n, y.uuid);
      GetMissing(q[|q| - n..], y.uuid);
    }
  }

  lemma SplitAt(items: seq<Item>, uuid: bytes) returns (p: seq<Item>, y: Item, q: seq<Item>)
    requires Has(items, uuid)
    ensures items == p + [y] + q && y.uuid == uuid
  {
    var i :| 0 <= i < |items| && items[i].uuid == uuid;
    p, y, q := items[..i], items[i], items[i + 1..];
  }

  lemma SplitUnique(p: seq<Item>, y: Item, q: seq<Item>, p': seq<Item>, y': Item, q': seq<Item>)
    requires p + [y] + q == p' + [y'] + q' && y.uuid == y'.uuid && Distinct(p + [y] + q)
    ensures p == p' && y == y' && q == q'
  {
    var items := p + [y] + q;
    assert items[|p|] == y && items[|p'|] == y';
    assert |p| == |p'|;
    assert p == items[..|p|] && p' == items[..|p'|];
    assert q == items[|p| + 1..] && q' == items[|p'| + 1..];
  }

  lemma UuidsAfterStore(q: seq<Item>, last: Item)
    ensures Uuids(Without(q, last.uuid) + [last]) == Uuids(q) + {last.uuid}
  {
    var r := Without(q, last.uuid) + [last];
    forall u ensures u in Uuids(r) <==> u in Uuids(q) + {last.uuid} {
      if u in Uuids(q) && u != last.uuid {
        var x :| x in q && x.uuid == u;
        WithoutMembers(q, last.uuid, x);
        assert x in r;
      }
      if u in Uuids(r) && u != last.uuid {
        var x :| x in r && x.uuid == u;
        WithoutMembers(q, last.uuid, x);
      }
      assert last in r;
    }
  }

  lemma LatestStep(front: seq<Item>, last: Item, p: seq<Item>, y: Item, q: seq<Item>)
    requires Latest(front) == p + [y] + q && y.uuid != last.uuid
    ensures Latest(front + [last]) == Without(p, last.uuid) + [y] + (Without(q, last.uuid) + [last])
  {
    assert (front + [last])[..|front|] == front;
    WithoutSplit(p + [y], q, last.uuid);
    WithoutSplit(p, [y], last.uuid);
    assert Without([y], last.uuid) == [y];
  }

  lemma SeenEarlier(front: seq<Item>, last: Item, p: seq<Item>, y: Item, q: seq<Item>)
    requires Without(Latest(front), last.uuid) + [last] == p + [y] + q && y.uuid != last.uuid
    ensures Has(Latest(front), y.uuid)
  {
    assert (p + [y] + q)[|p|] == y;
    assert y in Without(Latest(front), last.uuid) + [last];
    WithoutMembers(Latest(front), last.uuid, y);
    var i :| 0 <= i < |Latest(front)| && Latest(front)[i] == y;
  }

  /** Where an item that is not the newest stood before the newest one arrived. */
  lemma BeforeLast(front: seq<Item>, last: Item, p: seq<Item>, y: Item, q: seq<Item>)
    returns (p0: seq<Item>, q0: seq<Item>)
    requires Latest(front + [last]) == p + [y] + q && y.uuid != last.uuid
    ensures Latest(front) == p0 + [y] + q0 && Uuids(q) == Uuids(q0) + {last.uuid}
  {
    var y0;
    assert (front + [last])[..|front|] == front;
    SeenEarlier(front, last, p, y, q);
    p0, y0, q0 := SplitAt(Latest(front), y.uuid);
    LatestStep(front, last, p0, y0, q0);
    LatestDistinct(front + [last]);
    SplitUnique(p, y, q, Without(p0, last.uuid), y0, Without(q0, last.uuid) + [last]);
    UuidsAfterStore(q0, last);
  }

  /** The backward search stops at the newest packet and has by then met exactly the sessions seen after it. */
  lemma {:induction false} SearchAt(h: seq<Item>, since: set<bytes>, p: seq<Item>, y: Item, q: seq<Item>)
    requires Latest(h) == p + [y] + q
    ensures Search(h, since, y.uuid) == if |since + Uuids(q)| < LAST_RSCF_MAX then Some(y.packet) else None
  {
    var front, last := h[..|h| - 1], h[|h| - 1];
    assert h == front + [last];
    if last.uuid == y.uuid {
      LatestDistinct(h);
      SplitUnique(p, y, q, Without(Latest(front), last.uuid), last, []);
      assert since + Uuids(q) == since;
    } else {
      var p0, q0 := BeforeLast(front, last, p, y, q);
      SearchAt(front, since + {last.uuid}, p0, y, q0);
      assert since + {last.uuid} + Uuids(q0) == since + Uuids(q);
    }
  }

  lemma SeenStaysSeen(items: seq<Item>, last: Item, uuid: bytes)
    ensures Has(items, uuid) ==> Has(Without(items, last.uuid) + [last], uuid)
  {
    var r := Without(items, last.uuid) + [last];
    assert r[|r| - 1] == last;
    if i :| 0 <= i < |items| && items[i].uuid == uuid && uuid != last.uuid {
      WithoutMembers(items, last.uuid, items[i]);
      assert items[i] in r;
    }
  }

  lemma {:induction false} SearchMissing(h: seq<Item>, since: set<bytes>, uuid: bytes)
    requires !Has(Latest(h), uuid)
    ensures Search(h, since, uuid) == None
  {
    if h != [] {
      var front, last := h[..|h| - 1], h[|h| - 1];
      assert Latest(h)[|Latest(h)| - 1] == last;
      SeenStaysSeen(Latest(front), last, uuid);
      SearchMissing(front, since + {last.uuid}, uuid);
    }
  }

  /** For any history and session, the cache answers what a search through the whole history would. */
  lemma CacheAnswersAsHistory(history: seq<Item>, uuid: bytes)
    ensures Get(Cached(history), uuid) == Search(history, {}, uuid)
  {
    CacheHoldsLatest16(history);
    LatestDistinct(history);
    if Has(Latest(history), uuid) {
      var p, y, q := SplitAt(Latest(history), uuid);
      AbsentAfter(p, y, q);
      GetInWindow(p, y, q);
      SearchAt(history, {}, p, y, q);
      DistinctUuids(q);
      assert {} + Uuids(q) == Uuids(q);
    } else {
      var w := Cached(history);
      assert forall i | 0 <= i < |w| :: w[i] in Latest(history);
      GetMissing(w, uuid);
      SearchMissing(history, {}, uuid);
    }
  }

  lemma UuidsSnoc(q: seq<Item>, last: Item)
    ensures Uuids(q + [last]) == Uuids(q) + {last.uuid}
  {
    forall x | x in q ensures x.uuid in Uuids(q + [last]) { assert x in q + [last]; }
    assert last in q + [last];
  }

  lemma SearchSnoc(front: seq<Item>, last: Item, since: set<bytes>, uuid: bytes)
    requires last.uuid != uuid
    ensures Search(front + [last], since, uuid) == Search(front, since + {last.uuid}, uuid)
  {
    assert (front + [last])[..|front + [last]| - 1] == front;
  }

  lemma TailSnoc(front: seq<Item>, last: Item, i: nat, since: set<bytes>)
    requires i < |front|
    ensures since + Uuids((front + [last])[i + 1..]) == since + {last.uuid} + Uuids(front[i + 1..])
  {
    assert (front + [last])[i + 1..] == front[i + 1..] + [last];
    UuidsSnoc(front[i + 1..], last);
  }

  lemma {:induction false} SearchFrom(h: seq<Item>, since: set<bytes>, i: nat)
    requires i < |h| && forall j | i < j < |h| :: h[j].uuid != h[i].uuid
    ensures Search(h, since, h[i].uuid) == if |since + Uuids(h[i + 1..])| < LAST_RSCF_MAX then Some(h[i].packet) else None
  {
    if i == |h| - 1 {
      assert since + Uuids(h[i + 1..]) == since;
    } else {
      var front, last := h[..|h| - 1], h[|h| - 1];
      assert h == front + [last];
      SearchFrom(front, since + {last.uuid}, i);
      SearchSnoc(front, last, since, front[i].uuid);
      TailSnoc(front, last, i, since);
    }
  }

  lemma {:induction false} NeverSeen(h: seq<Item>, since: set<bytes>, uuid: bytes)
    requires forall x <- h :: x.uuid != uuid
    ensures Search(h, since, uuid) == None
  {
    if h != [] {
      assert forall x <- h[..|h| - 1] :: x in h;
      NeverSeen(h[..|h| - 1], since + {h[|h| - 1].uuid}, uuid);
    }
  }

  /** The cache finds the newest packet of a session exactly if fewer than 16 other sessions have been seen since. */
  lemma CacheFindsRecent(history: seq<Item>, uuid: bytes, i: nat)
    requires i < |history| && history[i].uuid == uuid && forall j | i < j < |history| :: history[j].uuid != uuid
    ensures Get(Cached(history), uuid) == if |set x <- history[i + 1..] :: x.uuid| < 16 then Some(history[i].packet) else None
  {
    CacheAnswersAsHistory(history, uuid);
    SearchFrom(history, {}, i);
    assert {} + Uuids(history[i + 1..]) == set x <- history[i + 1..] :: x.uuid;
  }

  /** It finds nothing for a session without a frame, and never holds more than 16. */
  lemma CacheFindsNothingElse(history: seq<Item>, uuid: bytes)
    ensures |Cached(history)| <= 16
    ensures (forall x <- history :: x.uuid != uuid) ==> Get(Cached(history), uuid) == None
  {
    CacheHoldsLatest16(history);
    CacheAnswersAsHistory(history, uuid);
    if forall x <- history :: x.uuid != uuid { NeverSeen(history, {}, uuid); }
  }

  // ---------------------------------------------------------------- the handler

  class LastFrames {
    var cache: seq<Item>
    ghost var history: seq<Item>

    ghost predicate Valid()
      reads this
    {
      cache == Cached(history)
    }

    constructor ()
      ensures Valid() && history == []
    {
      cache, history := [], [];
    }

    /** The binary branch of the `message` handler; `handled` says whether the buffer was taken for a frame. */
    method OnBinary(raw: bytes) returns (handled: bool)
      requires Valid()
      modifies this
      ensures Valid()
      ensures history == match CacheUuid(raw) case Some(u) => old(history) + [Item(u, raw)] case None => old(history)
      ensures handled <==> HasMagic(raw) && |raw| >= 10
      ensures |old(cache)| <= LAST_RSCF_MAX ==> |cache| <= LAST_RSCF_MAX
    {
      if |raw| < 4 || raw[..4] != MAGIC || |raw| < 10 { return false; } // a short frame fails to parse
      var uuidLen := ReadU16(raw, 8);
      if uuidLen > 0 && |raw| > 10 + uuidLen {
        var uuid := raw[10..10 + uuidLen];
        CacheHoldsLatest16(history);
        LatestDistinct(history);
        history := history + [Item(uuid, raw)];
        assert history[..|history| - 1] == old(history);
        cache := Without(cache, uuid) + [Item(uuid, raw)];
        if |cache| > LAST_RSCF_MAX { cache := cache[1..]; }
        CacheHoldsLatest16(history);
      }
      return true;
    }

    /** `getLastRscfPacket`. */
    method GetLastRscfPacket(uuid: bytes) returns (packet: Option<bytes>)
      requires Valid()
      ensures packet == if uuid == [] then None else Search(history, {}, uuid)
    {
      CacheAnswersAsHistory(history, uuid);
      packet := if uuid == [] then None else Get(cache, uuid);
    }
  }
}
