/** The executor client's connection life cycle: connect, open, close, backoff and stop (`executor/ws-client.js`). */
module Reconnect {
  datatype Socket = NoSocket | Connecting | Open | Dead

  /** Timers are flags here: armed or not. `closes` counts closes since the last open and is history only. */
  datatype State = State(
    stopping: bool,
    socket: Socket,
    registered: bool,
    heartbeat: bool,
    watchdog: bool,
    reconnect: bool,
    attempt: nat,
    delay: nat,
    closes: nat)

  const Idle := State(false, NoSocket, false, false, false, false, 0, 0, 0)

  datatype Config = Config(reconnectMinMs: nat, reconnectMaxMs: nat)

  function Min(a: nat, b: nat): nat { if a <= b then a else b }

  function Pow2(n: nat): (p: nat)
    ensures p > 0
  {
    if n == 0 then 1 else 2 * Pow2(n - 1)
  }

  function Backoff(c: Config, attempt: nat): nat {
    Min(c.reconnectMaxMs, c.reconnectMinMs * Pow2(attempt))
  }

  /** `connect`. */
  function Connect(s: State): State {
    if s.stopping then s else s.(reconnect := false, socket := Connecting)
  }

  function OnOpen(s: State): State {
    s.(socket := Open, attempt := 0, watchdog := false, closes := 0)
  }

  /** The `executor.registered` message. */
  function OnRegistered(s: State): State {
    s.(registered := true, heartbeat := true)
  }

  /** `scheduleReconnect`: a timer that is already armed is left alone. */
  function ScheduleReconnect(c: Config, s: State): State {
    if s.stopping || s.reconnect then s
    else s.(delay := Backoff(c, s.attempt), attempt := s.attempt + 1, reconnect := true)
  }

  function OnClose(c: Config, s: State): State {
    var down := s.(socket := Dead, registered := false, heartbeat := false, closes := s.closes + 1);
    if s.stopping then down else ScheduleReconnect(c, down.(watchdog := true))
  }

  function Stop(s: State): State {
    s.(stopping := true, reconnect := false, heartbeat := false)
  }

  datatype Event = SocketOpens | Registers | SocketCloses | ReconnectFires | WatchdogFires | Stops

  predicate Enabled(s: State, e: Event) {
    match e
    case SocketOpens => s.socket.Connecting?
    case Registers => s.socket.Open?
    case SocketCloses => s.socket.Connecting? || s.socket.Open?
    case ReconnectFires => s.reconnect
    case WatchdogFires => s.watchdog
    case Stops => !s.stopping
  }

  function Do(c: Config, s: State, e: Event): State
    requires Enabled(s, e)
  {
    match e
    case SocketOpens => OnOpen(s)
    case Registers => OnRegistered(s)
    case SocketCloses => OnClose(c, s)
    case ReconnectFires => Connect(s.(reconnect := false))
    case WatchdogFires => s.(watchdog := false)
    case Stops => Stop(s)
  }

  /** A run starts with the one `connect` call of the agent. */
  predicate IsRun(c: Config, states: seq<State>, events: seq<Event>) {
    && |states| == |events| + 1
    && states[0] == Connect(Idle)
    && forall i | 0 <= i < |events| :: Enabled(states[i], events[i]) && states[i + 1] == Do(c, states[i], events[i])
  }

  predicate Live(s: State) {
    s.socket.Connecting? || s.socket.Open?
  }

  /**
   * While the client is not stopping it has either one live socket or one armed reconnect timer, never both and
   * never neither; the watchdog never runs against an open socket; heartbeats run exactly while registered; and
   * the pending delay is the backoff of the closes since the last open.
   */
  predicate Healthy(c: Config, s: State) {
    && (!s.stopping ==> (Live(s) <==> !s.reconnect) && (s.heartbeat <==> s.registered))
    && (s.stopping ==> !s.reconnect)
    && (s.registered ==> s.socket.Open?)
    && (s.watchdog ==> !s.socket.Open?)
    && (!s.stopping ==> s.attempt == s.closes)
    && (s.reconnect ==> s.attempt > 0 && s.delay == Backoff(c, s.closes - 1))
  }

  lemma StepKeepsHealthy(c: Config, s: State, e: Event)
    requires Healthy(c, s) && Enabled(s, e)
    ensures Healthy(c, Do(c, s, e))
  {
  }

  lemma {:induction false} ClientNeverStalls(c: Config, states: seq<State>, events: seq<Event>, i: nat)
    requires IsRun(c, states, events) && i < |states|
    ensures Healthy(c, states[i])
  {
    if i > 0 {
      ClientNeverStalls(c, states, events, i - 1);
      assert Enabled(states[i - 1], events[i - 1]) && states[i - 1 + 1] == Do(c, states[i - 1], events[i - 1]);
      StepKeepsHealthy(c, states[i - 1], events[i - 1]);
    }
  }

  /** Once stopping, no run dials again. */
  lemma {:induction false} StopIsFinal(c: Config, states: seq<State>, events: seq<Event>, i: nat, j: nat)
    requires IsRun(c, states, events) && i <= j < |states| && states[i].stopping
    ensures states[j].stopping && !states[j].reconnect
    ensures states[j].socket.Connecting? ==> states[i].socket.Connecting?
  {
    ClientNeverStalls(c, states, events, i);
    if i < j {
      StopIsFinal(c, states, events, i, j - 1);
      assert Enabled(states[j - 1], events[j - 1]) && states[j - 1 + 1] == Do(c, states[j - 1], events[j - 1]);
    }
  }

  lemma {:induction false} Pow2Monotone(m: nat, n: nat)
    requires m <= n
    ensures Pow2(m) <= Pow2(n)
  {
    if m < n { Pow2Monotone(m, n - 1); }
  }

  lemma Scaled(a: nat, p: nat, q: nat)
    requires p <= q
    ensures a * p <= a * q
  {
  }

  /** Delays never shrink between opens and stay between the two configured bounds. */
  lemma BackoffBounds(c: Config, m: nat, n: nat)
    requires m <= n
    ensures Backoff(c, m) <= Backoff(c, n) <= c.reconnectMaxMs
    ensures Min(c.reconnectMinMs, c.reconnectMaxMs) <= Backoff(c, m)
  {
    Pow2Monotone(m, n);
    Scaled(c.reconnectMinMs, Pow2(m), Pow2(n));
    Scaled(c.reconnectMinMs, 1, Pow2(m));
  }

  /** The delay starts at the lower bound and doubles with each close, until it stays at the upper one. */
  lemma BackoffDoubles(c: Config, n: nat)
    ensures Backoff(c, 0) == if c.reconnectMinMs <= c.reconnectMaxMs then c.reconnectMinMs else c.reconnectMaxMs
    ensures Backoff(c, n + 1) == if 2 * Backoff(c, n) <= c.reconnectMaxMs then 2 * Backoff(c, n) else c.reconnectMaxMs
  {
    var a, p := c.reconnectMinMs, Pow2(n);
    assert Pow2(n + 1) == 2 * p;
    Doubled(a, p);
    assert Pow2(0) == 1 && a * 1 == a;
  }

  lemma Doubled(a: nat, p: nat)
    ensures a * (2 * p) == 2 * (a * p)
  {
  }

  /**
   * What each callback does to the timers: a close arms both, keeping a reconnect timer that is armed already; an
   * open disarms the watchdog and starts the back-off afresh; dialling and stopping disarm the reconnect timer.
   */
  lemma StepOnTimers(c: Config, s: State, e: Event)
    requires Healthy(c, s) && Enabled(s, e)
    ensures var t := Do(c, s, e);
            match e
            case SocketOpens => !t.watchdog && t.attempt == 0 && t.socket == Open && t.reconnect == s.reconnect
            case Registers => t.registered && t.heartbeat && t.watchdog == s.watchdog && t.reconnect == s.reconnect
            case SocketCloses =>
              && !t.registered && !t.heartbeat && t.socket == Dead
              && (s.stopping ==> t.watchdog == s.watchdog && !t.reconnect)
              && (!s.stopping ==> t.watchdog && t.reconnect && t.delay == Backoff(c, s.closes) && t.attempt == s.attempt + 1)
            case ReconnectFires => !t.reconnect && (!s.stopping ==> t.socket == Connecting) && t.watchdog == s.watchdog
            case WatchdogFires => t == s.(watchdog := false)
            case Stops => t.stopping && !t.reconnect && !t.heartbeat && t.socket == s.socket
  {
  }
}
