/** The state machine and the device lock as objects updated in place, proved against `SboProtocol`. */
module SboMachines {
  import opened Bytes
  import P = SboProtocol

  /** The process-wide number sequence behind all sequence ids. */
  class SequenceSource {
    var next: nat

    constructor ()
      ensures next == 0
    {
      next := 0;
    }

    method Draw() returns (n: nat)
      modifies this
      ensures n == old(next) && next == old(next) + 1
    {
      n := next;
      next := next + 1;
    }
  }

  class DeviceSboGuard {
    var buckets: P.Buckets

    constructor ()
      ensures buckets == map[]
    {
      buckets := map[];
    }

    /** Takes the lock of a free key; a taken one is reported with its holder. */
    method TryAcquire(key: P.Key, seqId: P.SeqId, operator: string, now: int) returns (ok: bool, busyBy: string)
      modifies this
      ensures ok == (key !in old(buckets)) && buckets == P.Acquire(old(buckets), key, seqId, operator, now)
      ensures !ok ==> busyBy == buckets[key].operator
    {
      if key in buckets {
        return false, buckets[key].operator;
      }
      buckets := buckets[key := P.Occupant(seqId, operator, now, 5000)];
      return true, "";
    }

    /** Only the holder's own sequence id releases. */
    method Release(key: P.Key, seqId: P.SeqId)
      modifies this
      ensures buckets == P.Release(old(buckets), key, seqId)
    {
      if key !in buckets {
        return;
      }
      if buckets[key].seqId != seqId {
        return;
      }
      buckets := buckets - {key};
    }

    method Query(key: P.Key) returns (occupant: Option<P.Occupant>)
      ensures occupant == if key in buckets then Some(buckets[key]) else None
    {
      occupant := if key in buckets then Some(buckets[key]) else None;
    }
  }

  class SboStateMachine {
    const guard: DeviceSboGuard?
    const ids: SequenceSource
    var phase: P.Phase
    var seqId: P.SeqId
    var operator: string
    var pending: P.Command
    var held: Option<P.Key>
    var armedTimer: Option<nat>
    var flapTimer: bool
    var execTimer: bool
    var linkUp: bool

    /** Machine, lock and counter as one value. */
    ghost function Value(): P.Context
      reads this, guard, ids
    {
      P.Context(P.Machine(guard != null, phase, seqId, operator, pending, held, armedTimer, flapTimer, execTimer,
                          linkUp),
                if guard != null then guard.buckets else map[], ids.next)
    }

    constructor (guard: DeviceSboGuard?, ids: SequenceSource)
      ensures this.guard == guard && this.ids == ids
      ensures Value().m == P.NewMachine(guard != null)
    {
      this.guard := guard;
      this.ids := ids;
      phase, seqId, operator, pending, held := P.Idle, P.Empty, "", P.Command(0, 0, 0, 0), None;
      armedTimer, flapTimer, execTimer, linkUp := None, false, false, true;
    }

    method SubmitSelect(req: P.SelectRequest, operatorName: string, now: int)
      returns (accepted: bool, signals: seq<P.Signal>)
      modifies this, guard, ids
      ensures P.Outcome(Value(), accepted, signals) == P.Select(old(Value()), req, operatorName, now)
    {
      var key := P.KeyOf(req);
      if phase != P.Idle {
        if guard != null {
          var n := ids.Draw();
          var _, _ := guard.TryAcquire(key, P.Rejected(n), operatorName, now);
        }
        return false, [];
      }
      var n := ids.Draw();
      seqId := P.Sbo(n);
      operator := operatorName;
      pending := P.Command(req.link, req.slave, req.register, req.value);
      if guard == null {
        seqId, operator := P.Empty, "";
        return false, [];
      }
      var ok, _ := guard.TryAcquire(key, seqId, operatorName, now);
      if !ok {
        seqId, operator := P.Empty, "";
        return false, [];
      }
      held := Some(key);
      phase := P.Armed;
      armedTimer := Some(if req.emergency then 3000 else 5000);
      return true, [P.StateChanged(P.Armed), P.ArmedAcquired(seqId, key)];
    }

    method SubmitOperate(id: P.SeqId) returns (accepted: bool, signals: seq<P.Signal>)
      modifies this, guard
      ensures P.Outcome(Value(), accepted, signals) == P.Operate(old(Value()), id)
    {
      if phase != P.Armed { return false, []; }
      if id != seqId { return false, []; }
      armedTimer := None;
      phase := P.Executed;
      execTimer := true;
      if guard != null && held.Some? {
        guard.Release(held.value, seqId);
      }
      return true, [P.StateChanged(P.Executed), P.CommandReady(pending)];
    }

    method ForceAbort(reason: string) returns (signals: seq<P.Signal>)
      modifies this, guard
      ensures (Value(), signals) == P.ForceAbort(old(Value()), reason)
    {
      if phase != P.Armed {
        held, seqId, operator := None, P.Empty, "";
        return [];
      }
      armedTimer := None;
      execTimer := false;
      if guard != null && held.Some? {
        guard.Release(held.value, seqId);
      }
      held, seqId, operator := None, P.Empty, "";
      phase := P.Idle;
      return [P.StateChanged(P.Aborted), P.ArmedCleared(reason), P.StateChanged(P.Idle)];
    }

    method SubmitCancel(id: P.SeqId) returns (accepted: bool, signals: seq<P.Signal>)
      modifies this, guard
      ensures P.Outcome(Value(), accepted, signals) == P.Cancel(old(Value()), id)
    {
      if id != seqId { return false, []; }
      if phase != P.Armed && phase != P.Selecting { return false, []; }
      signals := ForceAbort("user_cancel");
      accepted := true;
    }

    method OnDeviceAck(id: P.SeqId, success: bool, reason: string) returns (accepted: bool, signals: seq<P.Signal>)
      modifies this
      ensures P.Outcome(Value(), accepted, signals) == P.Ack(old(Value()), id, success, reason)
    {
      if id != seqId { return false, []; }
      if phase != P.Executed { return false, []; }
      execTimer := false;
      signals := [if success then P.Succeeded(id) else P.Failed(id, if reason == "" then "unknown" else reason)];
      held, seqId, operator := None, P.Empty, "";
      phase := P.Idle;
      return true, signals + [P.StateChanged(P.Idle)];
    }

    method OnLinkStatusChanged(up: bool)
      modifies this
      ensures P.Outcome(Value(), true, []) == P.Link(old(Value()), up)
    {
      linkUp := up;
      flapTimer := !up;
    }

    /** The single-shot countdown has fired. */
    method OnArmedTimeout() returns (handled: bool, signals: seq<P.Signal>)
      modifies this, guard
      ensures P.Outcome(Value(), handled, signals) == P.ArmedTimeout(old(Value()))
    {
      armedTimer := None;
      if phase != P.Armed { return false, []; }
      if guard != null && held.Some? {
        guard.Release(held.value, seqId);
      }
      held, seqId, operator := None, P.Empty, "";
      phase := P.Idle;
      return true, [P.StateChanged(P.Timeout), P.ArmedCleared("timeout"), P.StateChanged(P.Idle)];
    }

    method OnFlappingTimeout() returns (handled: bool, signals: seq<P.Signal>)
      modifies this, guard
      ensures P.Outcome(Value(), handled, signals) == P.FlappingTimeout(old(Value()))
    {
      flapTimer := false;
      if linkUp { return false, []; }
      signals := ForceAbort("link_down");
      handled := true;
    }

    method OnExecutingTimeout() returns (handled: bool, signals: seq<P.Signal>)
      modifies this
      ensures P.Outcome(Value(), handled, signals) == P.ExecutingTimeout(old(Value()))
    {
      execTimer := false;
      if phase != P.Executed { return false, []; }
      signals := [P.Failed(seqId, "device_ack_timeout")];
      held, seqId, operator := None, P.Empty, "";
      phase := P.Idle;
      return true, signals + [P.StateChanged(P.Idle)];
    }
  }
}
