/** The connection fields of the executor's client, updated in place by its socket and timer callbacks. */
module Connections {
  import opened Reconnect

  class Connection {
    const config: Config
    var stopping: bool
    var socket: Socket
    var registered: bool
    var heartbeatTimer: bool
    var disconnectWatchdog: bool
    var reconnectTimer: bool
    var reconnectAttempt: nat
    var reconnectDelay: nat
    ghost var closes: nat

    ghost function Value(): State
      reads this
    {
      State(stopping, socket, registered, heartbeatTimer, disconnectWatchdog, reconnectTimer, reconnectAttempt, reconnectDelay, closes)
    }

    ghost predicate Valid()
      reads this
    {
      Healthy(config, Value())
    }

    /** The client together with the agent's one `connect` call. */
    constructor (config: Config)
      ensures Valid() && this.config == config && Value() == Connect(Idle)
    {
      this.config := config;
      stopping, socket, registered, heartbeatTimer := false, Connecting, false, false;
      disconnectWatchdog, reconnectTimer, reconnectAttempt, reconnectDelay, closes := false, false, 0, 0, 0;
    }

    method DelayMs(attempt: nat) returns (delay: nat)
      ensures delay == Backoff(config, attempt)
    {
      var factor := 1;
      for i := 0 to attempt
        invariant factor == Pow2(i)
      {
        factor := 2 * factor;
      }
      var uncapped := config.reconnectMinMs * factor;
      delay := if config.reconnectMaxMs <= uncapped then config.reconnectMaxMs else uncapped;
    }

    method Schedule()
      modifies this
      ensures Value() == ScheduleReconnect(config, old(Value()))
    {
      if stopping || reconnectTimer { return; }
      reconnectDelay := DelayMs(reconnectAttempt);
      reconnectAttempt := reconnectAttempt + 1;
      reconnectTimer := true;
    }

    method OnSocketOpen()
      requires Valid() && socket.Connecting?
      modifies this
      ensures Valid() && Value() == Do(config, old(Value()), SocketOpens)
    {
      StepKeepsHealthy(config, Value(), SocketOpens);
      socket, reconnectAttempt, disconnectWatchdog, closes := Open, 0, false, 0;
    }

    method OnRegisteredMessage()
      requires Valid() && socket.Open?
      modifies this
      ensures Valid() && Value() == Do(config, old(Value()), Registers)
    {
      StepKeepsHealthy(config, Value(), Registers);
      registered, heartbeatTimer := true, true;
    }

    /** The socket's `close` event: the watchdog is armed again and a reconnect is scheduled, unless stopping. */
    method OnSocketClose()
      requires Valid() && (socket.Connecting? || socket.Open?)
      modifies this
      ensures Valid() && Value() == Do(config, old(Value()), SocketCloses)
      ensures !stopping ==> reconnectTimer && disconnectWatchdog && reconnectDelay == Backoff(config, old(closes))
    {
      StepKeepsHealthy(config, Value(), SocketCloses);
      socket, registered, heartbeatTimer, closes := Dead, false, false, closes + 1;
      if !stopping { disconnectWatchdog := true; }
      if !stopping { Schedule(); }
    }

    method OnReconnectTimer()
      requires Valid() && reconnectTimer
      modifies this
      ensures Valid() && Value() == Do(config, old(Value()), ReconnectFires)
      ensures socket.Connecting?
    {
      StepKeepsHealthy(config, Value(), ReconnectFires);
      reconnectTimer := false;
      if stopping { return; }
      socket := Connecting;
    }

    method OnWatchdogTimer()
      requires Valid() && disconnectWatchdog
      modifies this
      ensures Valid() && Value() == Do(config, old(Value()), WatchdogFires)
    {
      StepKeepsHealthy(config, Value(), WatchdogFires);
      disconnectWatchdog := false;
    }

    /** The first part of `stop`: nothing is dialled any more. */
    method BeginStop()
      requires Valid() && !stopping
      modifies this
      ensures Valid() && Value() == Do(config, old(Value()), Stops)
    {
      StepKeepsHealthy(config, Value(), Stops);
      stopping, reconnectTimer, heartbeatTimer := true, false, false;
    }
  }
}
