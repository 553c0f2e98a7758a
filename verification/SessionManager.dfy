/** The session manager's maps and the stretches of code between awaits that update them in place. */
module SessionManagers {
  import opened Options
  import opened SessionLock

  class SessionManager {
    var attachLocks: map<string, nat>
    var calls: map<nat, Call>
    var nextCall: nat
    var sessions: set<string>
    var bibs: set<string>

    constructor ()
      ensures Value() == Start && LockInv(Value()) && Protected(Value())
    {
      attachLocks, calls, nextCall, sessions, bibs := map[], map[], 0, {}, {};
    }

    function Value(): State
      reads this
    {
      State(attachLocks, calls, nextCall, sessions, bibs)
    }

    /** `attachBib` or `close` up to `await prev`. */
    method Queue(sessionId: string, kind: Kind) returns (call: nat)
      requires LockInv(Value())
      modifies this
      ensures Steps(old(Value()), Arrive(sessionId, kind), Value()) && LockInv(Value())
      ensures call == old(nextCall) && calls[call].phase.Waiting? && attachLocks[sessionId] == call
    {
      StepKeepsLock(Value(), Arrive(sessionId, kind));
      call := nextCall;
      var prev := if sessionId in attachLocks then Some(attachLocks[sessionId]) else None;
      calls := calls[call := Call(sessionId, kind, prev, Waiting)];
      attachLocks := attachLocks[sessionId := call];
      nextCall := nextCall + 1;
    }

    method SetPhase(call: nat, phase: Phase)
      requires call in calls
      modifies `calls
      ensures Value() == Move(old(Value()), call, phase)
    {
      calls := calls[call := calls[call].(phase := phase)];
    }

    /** The `finally` block. */
    method Release(call: nat)
      requires call in calls
      modifies `calls, `attachLocks
      ensures Value() == Exit(old(Value()), call)
    {
      var id := calls[call].sessionId;
      SetPhase(call, Done);
      if id in attachLocks && attachLocks[id] == call {
        attachLocks := attachLocks - {id};
      }
    }

    /** A body from its start to its first await. */
    method StartBody(call: nat)
      requires LockInv(Value()) && Protected(Value()) && call in calls && MayEnter(Value(), call)
      modifies this
      ensures Steps(old(Value()), Enter(call), Value()) && LockInv(Value()) && Protected(Value())
      ensures sessions == old(sessions)
      ensures var id := old(calls)[call].sessionId;
              bibs == if id !in old(sessions) || old(calls)[call].kind == Attach(false) then old(bibs) else old(bibs) - {id}
    {
      StepKeepsLock(Value(), Enter(call));
      StepKeepsProtected(Value(), Enter(call));
      var id, kind := calls[call].sessionId, calls[call].kind;
      if id !in sessions || kind == Attach(false) {
        Release(call);
        return;
      }
      var replaced := id in bibs;
      bibs := bibs - {id};
      SetPhase(call, if kind.Close? then ClosingBridge else if replaced then DetachingOld else Attaching);
    }

    /** A body from the settling of an awaited operation to its next await or its end. */
    method ContinueBody(call: nat, ok: bool)
      requires LockInv(Value()) && Protected(Value()) && call in calls && Running(calls[call])
      modifies this
      ensures Steps(old(Value()), Resume(call, ok), Value()) && LockInv(Value()) && Protected(Value())
      ensures var was := old(calls)[call];
              && sessions == (if was.phase == ClosingSlot && ok then old(sessions) - {was.sessionId} else old(sessions))
              && bibs == (if was.phase == Attaching && ok then old(bibs) + {was.sessionId} else old(bibs))
    {
      StepKeepsLock(Value(), Resume(call, ok));
      StepKeepsProtected(Value(), Resume(call, ok));
      var id := calls[call].sessionId;
      match calls[call].phase
      case DetachingOld => SetPhase(call, Attaching);
      case Attaching =>
        if ok {
          bibs := bibs + {id};
          SetPhase(call, Listing);
        } else {
          SetPhase(call, Aborting);
        }
      case ClosingBridge => SetPhase(call, ClosingSlot);
      case ClosingSlot =>
        if ok { sessions := sessions - {id}; }
        Release(call);
      case Listing => Release(call);
      case Aborting => Release(call);
    }

    /** The `session.process_exit` callback: the bridge goes first, then the session. */
    method OnProcessExit(sessionId: string)
      requires LockInv(Value()) && Protected(Value())
      modifies `bibs, `sessions
      ensures Steps(old(Value()), ProcessExit(sessionId), Value()) && LockInv(Value())
      ensures Protected(Value()) <==> Harmless(old(Value()), ProcessExit(sessionId))
      ensures sessions == old(sessions) - {sessionId} && bibs == old(bibs) - {sessionId}
    {
      StepKeepsLock(Value(), ProcessExit(sessionId));
      LossProtectsExactly(Value(), ProcessExit(sessionId));
      bibs := bibs - {sessionId};
      sessions := sessions - {sessionId};
    }
  }
}
