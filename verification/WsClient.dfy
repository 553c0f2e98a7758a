/** The executor's WebSocket client: buffering and replay in place, each method tied to its `ReplayBuffer` function. */
module WsClients {
  import opened ReplayBuffer

  class WsClient {
    var open: bool
    var stopping: bool
    var pendingQueue: seq<Msg>
    var pendingBytes: nat
    const pendingMaxBytes: nat := PENDING_MAX_BYTES
    ghost var handed: seq<Msg>
    ghost var dropped: seq<Msg>
    ghost var refused: seq<Msg>
    ghost var thrown: seq<Msg>
    ghost var history: seq<Msg> // submitted to the buffer since the last replay, leftovers first

    ghost function Value(): Client
      reads this
    {
      Client(open, stopping, pendingQueue, pendingBytes, handed, dropped, refused, thrown)
    }

    ghost predicate Valid()
      reads this
    {
      Buffered(history, Value(), pendingMaxBytes)
    }

    constructor ()
      ensures Valid() && Value() == Fresh && history == [] && pendingMaxBytes == 33554432
    {
      open, stopping, pendingQueue, pendingBytes := false, false, [], 0;
      handed, dropped, refused, thrown, history := [], [], [], [], [];
    }

    /** The socket's `open` and `close` events, as far as messages see them. */
    method OnSocket(isOpen: bool)
      requires Valid()
      modifies `open
      ensures Valid() && Value() == Do(old(Value()), if isOpen then SocketOpens else SocketCloses, pendingMaxBytes)
      ensures open == isOpen
    {
      open := isOpen;
    }

    method BeginStop()
      requires Valid()
      modifies `stopping
      ensures Valid() && Value() == Do(old(Value()), Stop, pendingMaxBytes) && stopping
    {
      stopping := true;
    }

    method SendMessage(m: Msg, accepts: bool) returns (ok: bool)
      requires Valid()
      modifies this
      ensures Valid() && Value() == Send(old(Value()), m, accepts, pendingMaxBytes)
      ensures history == if old(open) || old(stopping) then old(history) else old(history) + [m]
      ensures ok <==> (if old(open) then accepts else !old(stopping))
    {
      if open {
        if accepts { handed := handed + [m]; } else { thrown := thrown + [m]; }
        return accepts;
      }
      if stopping {
        refused := refused + [m];
        return false;
      }
      SendKeepsBuffered(history, Value(), m, accepts, pendingMaxBytes);
      ghost var before := pendingQueue;
      DropOldest(m.bytes);
      dropped := dropped + before[..Overflow(before, m.bytes, pendingMaxBytes)];
      TotalSnoc(pendingQueue, m, 0);
      pendingQueue := pendingQueue + [m];
      history := history + [m];
      return true;
    }

    /** Counts `bytes` more in, and drops the oldest messages until they fit or none is left. */
    method DropOldest(bytes: nat)
      requires pendingBytes == Total(pendingQueue)
      modifies `pendingQueue, `pendingBytes
      ensures pendingQueue == old(pendingQueue)[Overflow(old(pendingQueue), bytes, pendingMaxBytes)..]
      ensures pendingBytes == Total(pendingQueue) + bytes
    {
      ghost var before, k := pendingQueue, 0;
      pendingBytes := pendingBytes + bytes;
      while pendingQueue != [] && pendingBytes > pendingMaxBytes
        invariant k <= |before| && pendingQueue == before[k..]
        invariant pendingBytes == TotalFrom(before, k) + bytes
        invariant Overflow(before, bytes, pendingMaxBytes) == OverflowFrom(before, k, bytes, pendingMaxBytes)
        decreases |pendingQueue|
      {
        var oldest := pendingQueue[0];
        pendingQueue := pendingQueue[1..];
        pendingBytes := pendingBytes - oldest.bytes;
        k := k + 1;
      }
      TotalOfSuffix(before, pendingQueue, k, 0);
    }

    /** Replays the buffer; `accepts[i]` says whether the socket takes the i-th buffered message or throws. */
    method FlushPending(accepts: seq<bool>)
      requires Valid() && |accepts| == |pendingQueue|
      modifies this
      ensures Valid() && Value() == Flush(old(Value()), accepts)
      ensures history == if old(open) then pendingQueue else old(history)
    {
      ghost var before, was := Value(), history;
      if pendingQueue == [] {
        if open { history := []; }
        assert Value() == Flush(before, accepts);
        return;
      }
      if !open { return; }
      var remaining := Replay(pendingQueue, accepts);
      handed := handed + Selected(pendingQueue, accepts, true);
      pendingQueue := remaining;
      pendingBytes := SumBytes(remaining);
      history := remaining;
      FlushLeavesBuffered(was, before, accepts, pendingMaxBytes);
    }

    static method Replay(queue: seq<Msg>, accepts: seq<bool>) returns (remaining: seq<Msg>)
      requires |accepts| == |queue|
      ensures remaining == Selected(queue, accepts, false)
    {
      remaining := [];
      for i := 0 to |queue|
        invariant remaining == SelectedTo(queue, accepts, false, i)
      {
        if !accepts[i] {
          remaining := remaining + [queue[i]]; // the socket threw: kept for the next replay
        }
      }
    }

    static method SumBytes(q: seq<Msg>) returns (n: nat)
      ensures n == Total(q)
    {
      n := 0;
      for i := 0 to |q|
        invariant n + TotalFrom(q, i) == Total(q)
      {
        n := n + q[i].bytes;
      }
    }
  }
}
