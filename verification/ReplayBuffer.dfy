/**
 * The executor's outbound messages: direct sends, the byte-bounded buffer of a disconnected client, and its
 * replay after registration (`send` and `flushPending` of `executor/ws-client.js`).
 */
module ReplayBuffer {
  /** A serialised message and its byte length; `no` tells submissions of equal texts apart and is history only. */
  datatype Msg = Msg(text: string, bytes: nat, no: nat)

  const PENDING_MAX_BYTES: nat := 32 * 1024 * 1024

  /** The bytes of the messages from index `i` on. */
  function TotalFrom(q: seq<Msg>, i: nat): nat
    requires i <= |q|
    decreases |q| - i
  {
    if i == |q| then 0 else q[i].bytes + TotalFrom(q, i + 1)
  }

  function Total(q: seq<Msg>): nat {
    TotalFrom(q, 0)
  }

  /** The overflow loop, having dropped `i` messages: how many are dropped before one of `bytes` bytes is queued. */
  function OverflowFrom(q: seq<Msg>, i: nat, bytes: nat, limit: nat): (k: nat)
    requires i <= |q|
    ensures i <= k <= |q|
    ensures k < |q| ==> TotalFrom(q, k) + bytes <= limit
    ensures k > i ==> TotalFrom(q, k - 1) + bytes > limit
    decreases |q| - i
  {
    if i == |q| || TotalFrom(q, i) + bytes <= limit then i else OverflowFrom(q, i + 1, bytes, limit)
  }

  function Overflow(q: seq<Msg>, bytes: nat, limit: nat): (k: nat)
    ensures k <= |q|
  {
    OverflowFrom(q, 0, bytes, limit)
  }

  /** The buffer after queueing `m`. */
  function Enqueue(q: seq<Msg>, m: Msg, limit: nat): seq<Msg> {
    q[Overflow(q, m.bytes, limit)..] + [m]
  }

  /** The longest suffix of `history` that fits starts at `i`; a last message that is too big stays alone. */
  ghost predicate LongestFrom(history: seq<Msg>, i: nat, limit: nat) {
    && i <= |history|
    && (history != [] ==> i < |history|)
    && (TotalFrom(history, i) <= limit || i == |history| - 1)
    && (i > 0 ==> TotalFrom(history, i - 1) > limit)
  }

  ghost predicate LongestFittingSuffix(history: seq<Msg>, q: seq<Msg>, limit: nat) {
    |q| <= |history| && q == history[|history| - |q|..] && LongestFrom(history, |history| - |q|, limit)
  }

  lemma {:induction false} TotalShrinks(h: seq<Msg>, i: nat, j: nat)
    requires i <= j <= |h|
    ensures TotalFrom(h, j) <= TotalFrom(h, i)
    decreases j - i
  {
    if i < j { TotalShrinks(h, i + 1, j); }
  }

  lemma {:induction false} TotalOfSuffix(h: seq<Msg>, q: seq<Msg>, s: nat, k: nat)
    requires s + |q| == |h| && q == h[s..] && k <= |q|
    ensures TotalFrom(q, k) == TotalFrom(h, s + k)
    decreases |q| - k
  {
    if k < |q| { TotalOfSuffix(h, q, s, k + 1); }
  }

  lemma {:induction false} TotalSnoc(h: seq<Msg>, m: Msg, i: nat)
    requires i <= |h|
    ensures TotalFrom(h + [m], i) == TotalFrom(h, i) + m.bytes
    decreases |h| - i
  {
    if i < |h| {
      TotalSnoc(h, m, i + 1);
    } else {
      assert TotalFrom(h + [m], i + 1) == 0;
    }
  }

  lemma LongestFromUnique(history: seq<Msg>, i: nat, j: nat, limit: nat)
    requires LongestFrom(history, i, limit) && LongestFrom(history, j, limit)
    ensures i == j
  {
    if i < j {
      TotalShrinks(history, i, j - 1);
    } else if j < i {
      TotalShrinks(history, j, i - 1);
    }
  }

  /** At most one buffer satisfies the description, so it determines the buffer. */
  lemma LongestFittingSuffixUnique(history: seq<Msg>, p: seq<Msg>, q: seq<Msg>, limit: nat)
    requires LongestFittingSuffix(history, p, limit) && LongestFittingSuffix(history, q, limit)
    ensures p == q
  {
    LongestFromUnique(history, |history| - |p|, |history| - |q|, limit);
  }

  lemma DroppingMovesStart(history: seq<Msg>, q: seq<Msg>, m: Msg, k: nat, limit: nat)
    requires LongestFittingSuffix(history, q, limit) && k == Overflow(q, m.bytes, limit)
    ensures LongestFrom(history + [m], |history| - |q| + k, limit)
  {
    var s := |history| - |q|;
    TotalOfSuffix(history, q, s, k);
    TotalSnoc(history, m, s + k);
    if s + k > 0 {
      TotalSnoc(history, m, s + k - 1);
      if k > 0 { TotalOfSuffix(history, q, s, k - 1); }
    }
  }

  lemma SuffixOfSnoc(h: seq<Msg>, q: seq<Msg>, m: Msg, s: nat, k: nat)
    requires s + |q| == |h| && q == h[s..] && k <= |q|
    ensures q[k..] + [m] == (h + [m])[s + k..]
  {
  }

  /** One disconnected send keeps the buffer the longest fitting suffix of everything submitted. */
  lemma EnqueueKeepsLongest(history: seq<Msg>, q: seq<Msg>, m: Msg, limit: nat)
    requires LongestFittingSuffix(history, q, limit)
    ensures LongestFittingSuffix(history + [m], Enqueue(q, m, limit), limit)
  {
    var k := Overflow(q, m.bytes, limit);
    DroppingMovesStart(history, q, m, k, limit);
    SuffixOfSnoc(history, q, m, |history| - |q|, k);
  }

  // ---------------------------------------------------------------- runs of the client

  /** The parts of the client that decide a message's fate; `handed`, `dropped`, `refused` and `thrown` are history. */
  datatype Client = Client(
    open: bool,
    stopping: bool,
    queue: seq<Msg>,
    bytes: nat,
    handed: seq<Msg>,
    dropped: seq<Msg>,
    refused: seq<Msg>,
    thrown: seq<Msg>)

  const Fresh := Client(false, false, [], 0, [], [], [], [])

  /** `send`; `accepts` says whether the socket takes the message or throws at the caller. */
  function Send(c: Client, m: Msg, accepts: bool, limit: nat): Client {
    if c.open then
      if accepts then c.(handed := c.handed + [m]) else c.(thrown := c.thrown + [m])
    else if c.stopping then c.(refused := c.refused + [m])
    else
      var k := Overflow(c.queue, m.bytes, limit);
      var q := Enqueue(c.queue, m, limit);
      c.(queue := q, bytes := Total(q), dropped := c.dropped + c.queue[..k])
  }

  /** Of the first `n` messages, those whose flag is `which`, in order. */
  function SelectedTo(q: seq<Msg>, accepts: seq<bool>, which: bool, n: nat): seq<Msg>
    requires |accepts| == |q| && n <= |q|
  {
    if n == 0 then []
    else if accepts[n - 1] == which then SelectedTo(q, accepts, which, n - 1) + [q[n - 1]]
    else SelectedTo(q, accepts, which, n - 1)
  }

  function Selected(q: seq<Msg>, accepts: seq<bool>, which: bool): seq<Msg>
    requires |accepts| == |q|
  {
    SelectedTo(q, accepts, which, |q|)
  }

  /** `flushPending`: accepted messages leave in buffer order, the others stay in their order. */
  function Flush(c: Client, accepts: seq<bool>): Client
    requires |accepts| == |c.queue|
  {
    if !c.open then c
    else
      var left := Selected(c.queue, accepts, false);
      c.(handed := c.handed + Selected(c.queue, accepts, true), queue := left, bytes := Total(left))
  }

  datatype Event =
    | Submit(m: Msg, accepts: bool)
    | Registered(taken: seq<bool>)
    | SocketOpens
    | SocketCloses
    | Stop

  predicate Enabled(c: Client, e: Event) {
    e.Registered? ==> |e.taken| == |c.queue|
  }

  function Do(c: Client, e: Event, limit: nat): Client
    requires Enabled(c, e)
  {
    match e
    case Submit(m, accepts) => Send(c, m, accepts, limit)
    case Registered(taken) => Flush(c, taken)
    case SocketOpens => c.(open := true)
    case SocketCloses => c.(open := false)
    case Stop => c.(stopping := true)
  }

  predicate IsRun(states: seq<Client>, events: seq<Event>, limit: nat) {
    && |states| == |events| + 1
    && states[0] == Fresh
    && forall i | 0 <= i < |events| :: Enabled(states[i], events[i]) && states[i + 1] == Do(states[i], events[i], limit)
  }

  /** What the first `n` events give to `send`. */
  function Submitted(events: seq<Event>, n: nat): seq<Msg>
    requires n <= |events|
  {
    if n == 0 then []
    else if events[n - 1].Submit? then Submitted(events, n - 1) + [events[n - 1].m]
    else Submitted(events, n - 1)
  }

  /** What the buffer must hold: leftovers of the last flush that found an open socket, then every buffered send. */
  function SinceFlush(states: seq<Client>, events: seq<Event>, n: nat): seq<Msg>
    requires n <= |events| && |states| == |events| + 1
  {
    if n == 0 then []
    else
      var before := SinceFlush(states, events, n - 1);
      match events[n - 1]
      case Submit(m, _) => if states[n - 1].open || states[n - 1].stopping then before else before + [m]
      case Registered(_) => if states[n - 1].open then states[n].queue else before
      case _ => before
  }

  /** The buffer matches its history, and the byte counter is the buffer's exact size. */
  ghost predicate Buffered(history: seq<Msg>, c: Client, limit: nat) {
    LongestFittingSuffix(history, c.queue, limit) && c.bytes == Total(c.queue)
  }

  function Fates(c: Client): multiset<Msg> {
    multiset(c.handed) + multiset(c.queue) + multiset(c.dropped) + multiset(c.refused) + multiset(c.thrown)
  }

  lemma PrefixSnoc(q: seq<Msg>, n: nat)
    requires 0 < n <= |q|
    ensures multiset(q[..n]) == multiset(q[..n - 1]) + multiset{q[n - 1]}
  {
    assert q[..n] == q[..n - 1] + [q[n - 1]];
  }

  lemma {:induction false} SelectedSplits(q: seq<Msg>, accepts: seq<bool>, n: nat)
    requires |accepts| == |q| && n <= |q|
    ensures multiset(SelectedTo(q, accepts, true, n)) + multiset(SelectedTo(q, accepts, false, n)) == multiset(q[..n])
  {
    if n > 0 {
      SelectedSplits(q, accepts, n - 1);
      PrefixSnoc(q, n);
    }
  }

  lemma {:induction false} SelectedShrinks(q: seq<Msg>, accepts: seq<bool>, which: bool, n: nat)
    requires |accepts| == |q| && n <= |q|
    ensures |SelectedTo(q, accepts, which, n)| <= n
    ensures Total(SelectedTo(q, accepts, which, n)) + TotalFrom(q, n) <= Total(q)
  {
    if n > 0 {
      var before := SelectedTo(q, accepts, which, n - 1);
      SelectedShrinks(q, accepts, which, n - 1);
      TotalSnoc(before, q[n - 1], 0);
    }
  }

  lemma EnqueueConserves(queue: seq<Msg>, dropped: seq<Msg>, m: Msg, k: nat)
    requires k <= |queue|
    ensures multiset(queue[k..] + [m]) + multiset(dropped + queue[..k]) == multiset(queue) + multiset(dropped) + multiset{m}
  {
    assert queue == queue[..k] + queue[k..];
  }

  lemma Rearranged(h: multiset<Msg>, q: multiset<Msg>, d: multiset<Msg>, q': multiset<Msg>, d': multiset<Msg>, m: Msg)
    requires q' + d' == q + d + multiset{m}
    ensures h + q' + d' == h + q + d + multiset{m}
  {
    assert h + q' + d' == h + (q' + d');
  }

  lemma SendConserves(c: Client, m: Msg, accepts: bool, limit: nat)
    ensures Fates(Send(c, m, accepts, limit)) == Fates(c) + multiset{m}
  {
    if !c.open && !c.stopping {
      var k := Overflow(c.queue, m.bytes, limit);
      var t := Send(c, m, accepts, limit);
      EnqueueConserves(c.queue, c.dropped, m, k);
      assert t.queue == c.queue[k..] + [m] && t.dropped == c.dropped + c.queue[..k];
      Rearranged(multiset(c.handed), multiset(c.queue), multiset(c.dropped), multiset(t.queue), multiset(t.dropped), m);
    }
  }

  /** Exactly one fate per step: whatever is submitted is added to one fate, and nothing else changes the total. */
  lemma StepConserves(c: Client, e: Event, limit: nat)
    requires Enabled(c, e)
    ensures Fates(Do(c, e, limit)) == Fates(c) + if e.Submit? then multiset{e.m} else multiset{}
  {
    match e
    case Submit(m, accepts) => SendConserves(c, m, accepts, limit);
    case Registered(taken) =>
      SelectedSplits(c.queue, taken, |taken|);
      assert c.queue[..|taken|] == c.queue;
    case _ =>
  }

  /**
   * Which fate a message meets: an open socket takes it or throws it back, a stopping client without one refuses it,
   * and else it goes to the end of the buffer, where only the oldest messages make room.
   */
  lemma SendFate(c: Client, m: Msg, accepts: bool, limit: nat)
    ensures var t := Send(c, m, accepts, limit);
            && (t.handed == if c.open && accepts then c.handed + [m] else c.handed)
            && (t.thrown == if c.open && !accepts then c.thrown + [m] else c.thrown)
            && (t.refused == if !c.open && c.stopping then c.refused + [m] else c.refused)
            && (c.open || c.stopping ==> t.queue == c.queue && t.bytes == c.bytes && t.dropped == c.dropped)
            && (!c.open && !c.stopping ==>
                  && t.queue != [] && t.queue[|t.queue| - 1] == m && c.dropped <= t.dropped
                  && t.dropped + t.queue == c.dropped + c.queue + [m])
            && t.open == c.open && t.stopping == c.stopping
  {
    if !c.open && !c.stopping {
      var k := Overflow(c.queue, m.bytes, limit);
      var t := Send(c, m, accepts, limit);
      assert c.queue == c.queue[..k] + c.queue[k..];
      assert t.queue == c.queue[k..] + [m] && t.dropped == c.dropped + c.queue[..k];
    }
  }

  /** A replay into an open socket hands over exactly the messages it takes and keeps exactly the others. */
  lemma FlushFate(c: Client, taken: seq<bool>, i: nat)
    requires |taken| == |c.queue| && i < |taken|
    ensures var t := Flush(c, taken);
            && (!c.open ==> t == c)
            && (c.open ==>
                  && |t.handed| + |t.queue| == |c.handed| + |c.queue| && c.handed <= t.handed
                  && (taken[i] ==> c.queue[i] in t.handed[|c.handed|..])
                  && (!taken[i] ==> c.queue[i] in t.queue))
            && t.open == c.open && t.stopping == c.stopping && t.dropped == c.dropped && t.refused == c.refused
            && t.thrown == c.thrown
  {
    ReplayKeepsOrder(c.queue, taken, taken[i], i);
    SplitLength(c.queue, taken, |taken|);
    assert Flush(c, taken).handed[|c.handed|..] == if c.open then Selected(c.queue, taken, true) else [];
  }

  lemma {:induction false} SplitLength(q: seq<Msg>, taken: seq<bool>, n: nat)
    requires |taken| == |q| && n <= |q|
    ensures |SelectedTo(q, taken, true, n)| + |SelectedTo(q, taken, false, n)| == n
  {
    if n > 0 { SplitLength(q, taken, n - 1); }
  }

  /** The other events change the socket or the stopping flag and no message. */
  lemma StepOnSocket(c: Client, e: Event, limit: nat)
    requires Enabled(c, e)
    ensures var t := Do(c, e, limit);
            && t.open == (match e case SocketOpens => true case SocketCloses => false case _ => c.open)
            && t.stopping == (c.stopping || e == Stop)
            && (e.SocketOpens? || e.SocketCloses? || e.Stop? ==> t == c.(open := t.open, stopping := t.stopping))
            && (e.Submit? ==> t == Send(c, e.m, e.accepts, limit))
            && (e.Registered? ==> t == Flush(c, e.taken))
  {
  }

  /** In every run, each message given to `send` has exactly one fate. */
  lemma {:induction false} EveryMessageHasOneFate(states: seq<Client>, events: seq<Event>, limit: nat, n: nat)
    requires IsRun(states, events, limit) && n <= |events|
    ensures Fates(states[n]) == multiset(Submitted(events, n))
  {
    if n > 0 {
      assert Enabled(states[n - 1], events[n - 1]) && states[n - 1 + 1] == Do(states[n - 1], events[n - 1], limit);
      EveryMessageHasOneFate(states, events, limit, n - 1);
      StepConserves(states[n - 1], events[n - 1], limit);
    }
  }

  /**
   * In every run, the buffer is the longest suffix that fits of what was submitted to it since the last flush
   * (leftovers included), or just the last message when that alone is too big; the byte counter is its exact size.
   */
  lemma {:induction false} BufferIsLongestFittingSuffix(states: seq<Client>, events: seq<Event>, limit: nat, n: nat)
    requires IsRun(states, events, limit) && n <= |events|
    ensures Buffered(SinceFlush(states, events, n), states[n], limit)
  {
    if n > 0 {
      var c, h, e := states[n - 1], SinceFlush(states, events, n - 1), events[n - 1];
      assert Enabled(c, e) && states[n - 1 + 1] == Do(c, e, limit);
      BufferIsLongestFittingSuffix(states, events, limit, n - 1);
      match e
      case Submit(m, accepts) => if !c.open && !c.stopping { SendKeepsBuffered(h, c, m, accepts, limit); }
      case Registered(taken) => if c.open { FlushLeavesBuffered(h, c, taken, limit); }
      case _ =>
    }
  }

  lemma SendKeepsBuffered(h: seq<Msg>, c: Client, m: Msg, accepts: bool, limit: nat)
    requires Buffered(h, c, limit) && !c.open && !c.stopping
    ensures Buffered(h + [m], Send(c, m, accepts, limit), limit)
  {
    EnqueueKeepsLongest(h, c.queue, m, limit);
  }

  lemma FlushLeavesBuffered(h: seq<Msg>, c: Client, taken: seq<bool>, limit: nat)
    requires Buffered(h, c, limit) && |taken| == |c.queue| && c.open
    ensures Buffered(Flush(c, taken).queue, Flush(c, taken), limit)
  {
    TotalOfSuffix(h, c.queue, |h| - |c.queue|, 0);
    SelectedShrinks(c.queue, taken, false, |taken|);
    var q := Flush(c, taken).queue;
    assert q[0..] == q;
  }

  // ---------------------------------------------------------------- order

  function Rank(accepts: seq<bool>, which: bool, i: nat): nat
    requires i <= |accepts|
  {
    if i == 0 then 0 else Rank(accepts, which, i - 1) + if accepts[i - 1] == which then 1 else 0
  }

  lemma {:induction false} RankIsLength(q: seq<Msg>, accepts: seq<bool>, which: bool, n: nat)
    requires |accepts| == |q| && n <= |q|
    ensures |SelectedTo(q, accepts, which, n)| == Rank(accepts, which, n)
  {
    if n > 0 { RankIsLength(q, accepts, which, n - 1); }
  }

  lemma {:induction false} OrderKept(q: seq<Msg>, accepts: seq<bool>, which: bool, i: nat, n: nat)
    requires |accepts| == |q| && i < n <= |q| && accepts[i] == which
    ensures Rank(accepts, which, i) < |SelectedTo(q, accepts, which, n)|
    ensures SelectedTo(q, accepts, which, n)[Rank(accepts, which, i)] == q[i]
  {
    if i == n - 1 {
      RankIsLength(q, accepts, which, i);
    } else {
      OrderKept(q, accepts, which, i, n - 1);
    }
  }

  /** One replay keeps buffer order on both sides: the message at `i` lands behind exactly those before it. */
  lemma ReplayKeepsOrder(q: seq<Msg>, accepts: seq<bool>, which: bool, i: nat)
    requires |accepts| == |q| && i < |q| && accepts[i] == which
    ensures Rank(accepts, which, i) < |Selected(q, accepts, which)|
    ensures Selected(q, accepts, which)[Rank(accepts, which, i)] == q[i]
  {
    OrderKept(q, accepts, which, i, |q|);
  }

  /** Messages are numbered by the event that submits them, so numbers follow the order of submission. */
  predicate Numbered(events: seq<Event>) {
    forall i | 0 <= i < |events| :: events[i].Submit? ==> events[i].m.no == i
  }

  predicate Increasing(ms: seq<Msg>) {
    forall i, j | 0 <= i < j < |ms| :: ms[i].no < ms[j].no
  }

  /** What has been handed over, followed by what still waits, is in the order of submission. */
  predicate Ordered(c: Client) {
    Increasing(c.handed + c.queue)
  }

  predicate Below(ms: seq<Msg>, n: nat) {
    forall i | 0 <= i < |ms| :: ms[i].no < n
  }

  /** A replay hands over a message that stands behind one it leaves in the buffer. */
  predicate Skips(taken: seq<bool>) {
    exists a, b | 0 <= a < b < |taken| :: !taken[a] && taken[b]
  }

  /** The two ways to overtake: a direct send past a filled buffer, and a replay that skips. */
  predicate Overtakes(c: Client, e: Event) {
    match e
    case Submit(_, accepts) => c.open && accepts && c.queue != []
    case Registered(taken) => c.open && Skips(taken)
    case _ => false
  }

  lemma {:induction false} SelectedPrefix(q: seq<Msg>, taken: seq<bool>, p: nat, n: nat)
    requires |taken| == |q| && p <= |q| && n <= |q| && forall i | 0 <= i < |q| :: taken[i] <==> i < p
    ensures SelectedTo(q, taken, true, n) == q[..if n < p then n else p]
    ensures SelectedTo(q, taken, false, n) == if n < p then [] else q[p..n]
  {
    if n > 0 { SelectedPrefix(q, taken, p, n - 1); }
  }

  lemma {:induction false} SplitOf(taken: seq<bool>, n: nat) returns (p: nat)
    requires n <= |taken| && !Skips(taken)
    ensures p <= n && forall i | 0 <= i < n :: taken[i] <==> i < p
  {
    if n == 0 {
      p := 0;
    } else {
      p := SplitOf(taken, n - 1);
      if taken[n - 1] {
        p := n;
      }
    }
  }

  /** A replay that does not skip only moves the boundary between what is handed over and what waits. */
  lemma FlushMovesBoundary(c: Client, taken: seq<bool>)
    requires |taken| == |c.queue| && c.open && !Skips(taken)
    ensures Flush(c, taken).handed + Flush(c, taken).queue == c.handed + c.queue
  {
    var q, n := c.queue, |taken|;
    var p := SplitOf(taken, n);
    SelectedPrefix(q, taken, p, n);
    assert Selected(q, taken, true) == q[..p] && Selected(q, taken, false) == q[p..];
    assert c.handed + q[..p] + q[p..] == c.handed + q;
  }

  /** A replay that skips breaks the order. */
  lemma SkippingBreaksOrder(c: Client, taken: seq<bool>)
    requires |taken| == |c.queue| && c.open && Skips(taken) && Ordered(c)
    ensures !Ordered(Flush(c, taken))
  {
    var q := c.queue;
    var a, b :| 0 <= a < b < |taken| && !taken[a] && taken[b];
    ReplayKeepsOrder(q, taken, true, b);
    ReplayKeepsOrder(q, taken, false, a);
    var handed, left := Selected(q, taken, true), Selected(q, taken, false);
    var x, y := |c.handed| + Rank(taken, true, b), |c.handed + handed| + Rank(taken, false, a);
    var all, before := c.handed + handed + left, c.handed + q;
    assert all[x] == q[b] && all[y] == q[a] && x < y;
    assert before[|c.handed| + a] == q[a] && before[|c.handed| + b] == q[b];
  }

  lemma DirectKeepsOrderExactly(handed: seq<Msg>, queue: seq<Msg>, m: Msg)
    requires Increasing(handed + queue) && Below(handed + queue, m.no)
    ensures Increasing(handed + [m] + queue) <==> queue == []
  {
    var all := handed + [m] + queue;
    if queue == [] {
      assert all == handed + queue + [m];
    } else {
      assert all[|handed|] == m && all[|handed| + 1] == queue[0] && (handed + queue)[|handed|] == queue[0];
    }
  }

  lemma EnqueueKeepsOrder(handed: seq<Msg>, queue: seq<Msg>, k: nat, m: Msg)
    requires k <= |queue| && Increasing(handed + queue) && Below(handed + queue, m.no)
    ensures Increasing(handed + (queue[k..] + [m]))
  {
    var was, now := handed + queue, handed + (queue[k..] + [m]);
    forall i | 0 <= i < |now| - 1 ensures now[i] == was[if i < |handed| then i else i + k] {}
  }

  /** From an ordered state, a step keeps the order exactly when it does not overtake. */
  lemma StepKeepsOrderExactly(c: Client, e: Event, limit: nat)
    requires Enabled(c, e) && Ordered(c) && (e.Submit? ==> Below(c.handed + c.queue, e.m.no))
    ensures Ordered(Do(c, e, limit)) <==> !Overtakes(c, e)
  {
    match e
    case Submit(m, accepts) =>
      if c.open && accepts {
        DirectKeepsOrderExactly(c.handed, c.queue, m);
      } else if !c.open && !c.stopping {
        EnqueueKeepsOrder(c.handed, c.queue, Overflow(c.queue, m.bytes, limit), m);
      }
    case Registered(taken) =>
      if c.open {
        if Skips(taken) { SkippingBreaksOrder(c, taken); } else { FlushMovesBoundary(c, taken); }
      }
    case _ =>
  }

  lemma {:induction false} SelectedBelow(q: seq<Msg>, taken: seq<bool>, which: bool, k: nat, n: nat)
    requires |taken| == |q| && k <= |q| && Below(q, n)
    ensures Below(SelectedTo(q, taken, which, k), n)
  {
    if k > 0 { SelectedBelow(q, taken, which, k - 1, n); }
  }

  lemma StepKeepsBelow(c: Client, e: Event, limit: nat, n: nat)
    requires Enabled(c, e) && Below(c.handed, n) && Below(c.queue, n) && (e.Submit? ==> e.m.no == n)
    ensures Below(Do(c, e, limit).handed, n + 1) && Below(Do(c, e, limit).queue, n + 1)
  {
    if e.Registered? {
      SelectedBelow(c.queue, e.taken, true, |e.taken|, n);
      SelectedBelow(c.queue, e.taken, false, |e.taken|, n);
    }
  }

  lemma {:induction false} RunsStayBelow(states: seq<Client>, events: seq<Event>, limit: nat, i: nat)
    requires IsRun(states, events, limit) && Numbered(events) && i < |states|
    ensures Below(states[i].handed, i) && Below(states[i].queue, i)
  {
    if i > 0 {
      RunsStayBelow(states, events, limit, i - 1);
      assert Enabled(states[i - 1], events[i - 1]) && states[i - 1 + 1] == Do(states[i - 1], events[i - 1], limit);
      StepKeepsBelow(states[i - 1], events[i - 1], limit, i - 1);
    }
  }

  lemma {:induction false} OrderedWithoutOvertaking(states: seq<Client>, events: seq<Event>, limit: nat, i: nat)
    requires IsRun(states, events, limit) && Numbered(events) && i < |states|
    requires forall j | 0 <= j < |events| :: !Overtakes(states[j], events[j])
    ensures Ordered(states[i])
  {
    if i > 0 {
      OrderedWithoutOvertaking(states, events, limit, i - 1);
      RunsStayBelow(states, events, limit, i - 1);
      assert Enabled(states[i - 1], events[i - 1]) && states[i - 1 + 1] == Do(states[i - 1], events[i - 1], limit);
      StepKeepsOrderExactly(states[i - 1], events[i - 1], limit);
    }
  }

  /**
   * In every run, messages leave in the order of submission, buffered ones before later ones, exactly as long as
   * no direct send passes a filled buffer and no replay hands over a message behind one it leaves.
   */
  lemma OrderKeptExactly(states: seq<Client>, events: seq<Event>, limit: nat)
    requires IsRun(states, events, limit) && Numbered(events)
    ensures (forall i | 0 <= i < |states| :: Ordered(states[i]))
            <==> forall j | 0 <= j < |events| :: !Overtakes(states[j], events[j])
  {
    if forall j | 0 <= j < |events| :: !Overtakes(states[j], events[j]) {
      forall i | 0 <= i < |states| ensures Ordered(states[i]) { OrderedWithoutOvertaking(states, events, limit, i); }
    } else {
      var j :| 0 <= j < |events| && Overtakes(states[j], events[j]);
      assert Enabled(states[j], events[j]) && states[j + 1] == Do(states[j], events[j], limit);
      RunsStayBelow(states, events, limit, j);
      if Ordered(states[j]) { StepKeepsOrderExactly(states[j], events[j], limit); }
    }
  }

  /** There is no order across the two paths: a direct send before registration overtakes the buffer. */
  lemma DirectSendOvertakes(a: Msg, b: Msg, limit: nat)
    ensures var c := Send(Send(Fresh, a, true, limit).(open := true), b, true, limit);
            |c.queue| == 1 && Flush(c, [true]).handed == [b, a]
  {
    var c1 := Send(Fresh, a, true, limit);
    assert c1.queue == [a] && c1.handed == [];
    assert SelectedTo([a], [true], true, 0) == [] && SelectedTo([a], [true], true, 1) == [a];
  }
}
