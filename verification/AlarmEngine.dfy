/** The alarm engine as an object whose rule, state and batch fields are updated in place, proved
    against `AlarmRules`. Clock readings are arguments; emitted signals are results. */
module AlarmEngines {
  import R = AlarmRules
  import S = Storm

  class AlarmEngine {
    var rules: map<nat, R.Rule>
    var states: map<nat, R.PointState>
    var suppressed: set<nat>
    var config: S.Config
    const ring: array<int>
    var ringHead: nat
    var ringCount: nat
    var pendingStorm: seq<R.AlarmEvent>
    var stormDropped: nat
    var stormActive: bool
    var idSeq: nat
    var flushRunning: bool

    ghost predicate Shape()
      reads this
    {
      ring.Length == S.RING_SIZE && ringHead < S.RING_SIZE && ringCount <= S.RING_SIZE
    }

    ghost predicate Valid()
      reads this
    {
      Shape() && R.TableOk(states, idSeq)
    }

    ghost function Value(): R.Engine
      reads this, ring
    {
      R.Engine(rules, states, suppressed, config, S.Ring(ring[..], ringHead, ringCount),
               S.Batch(stormActive, pendingStorm, stormDropped), idSeq, flushRunning)
    }

    constructor ()
      ensures Valid() && Value() == R.NEW_ENGINE && fresh(ring)
    {
      rules, states, suppressed, config := map[], map[], {}, S.Config(1000, 200);
      ring := new int[S.RING_SIZE](_ => 0);
      ringHead, ringCount, pendingStorm, stormDropped, stormActive, idSeq := 0, 0, [], 0, false, 0;
      flushRunning := false;
    }

    /** Loop over the valid part of the ring. */
    method CountInWindow(now: int, windowMs: nat) returns (count: nat)
      requires Shape()
      ensures count == S.Within(ring[..ringCount], now, windowMs)
    {
      count := 0;
      for i := 0 to ringCount
        invariant count == S.Within(ring[..i], now, windowMs)
      {
        assert ring[..i + 1][..i] == ring[..i];
        if now - ring[i] <= windowMs {
          count := count + 1;
        }
      }
    }

    method RecordTime(now: int)
      requires Shape()
      modifies this`ringHead, this`ringCount, ring
      ensures Shape()
        && S.Ring(ring[..], ringHead, ringCount) == S.Record(S.Ring(old(ring[..]), old(ringHead), old(ringCount)), now)
    {
      if ringCount < ring.Length {
        ring[(ringHead + ringCount) % ring.Length] := now;
        ringCount := ringCount + 1;
      } else {
        ring[ringHead] := now;
        ringHead := (ringHead + 1) % ring.Length;
      }
    }

    method IsStormTriggered(now: int) returns (active: bool)
      requires Shape()
      modifies this`ringHead, this`ringCount, this`stormActive, ring
      ensures Shape() && Value() == R.StormCheck(old(Value()), now)
      ensures active == (config.windowMs > 0 && stormActive)
    {
      if config.windowMs == 0 {
        return false;
      }
      RecordTime(now);
      hide S.Record;
      var count := CountInWindow(now, config.windowMs);
      active := count > config.threshold;
      stormActive := active;
    }

    method RaiseAlarm(pid: nat, r: R.Rule, value: real, now: int) returns (signals: seq<R.Signal>)
      requires pid in states
      modifies this`idSeq, this`states, this`pendingStorm, this`stormDropped
      ensures Value() == R.RaiseAlarm(old(Value()), pid, r, value, now).0
      ensures signals == R.RaiseAlarm(old(Value()), pid, r, value, now).1
    {
      var st := states[pid];
      if r.suppressWindowMs > 0 && now - st.lastRaise < r.suppressWindowMs {
        return [];
      }
      idSeq := idSeq + 1;
      var evt := R.EventOf(idSeq, pid, r, value);
      states := states[pid := st.(activeId := evt.id, status := R.Active, lastRaise := now)];
      if stormActive {
        if |pendingStorm| >= S.MAX_PENDING {
          stormDropped := stormDropped + 1;
        } else {
          pendingStorm := pendingStorm + [evt];
        }
        signals := if r.level == R.Critical then [R.Triggered(evt), R.BlackBoxRequested(pid, r.level)] else [];
      } else {
        signals := [R.Triggered(evt)];
        if r.level == R.Critical {
          signals := signals + [R.BlackBoxRequested(pid, r.level)];
        }
      }
    }

    method RecoverAlarm(pid: nat) returns (signals: seq<R.Signal>)
      requires pid in states
      modifies this`states
      ensures states == old(states)[pid := R.RecoverAlarm(old(states)[pid]).0]
      ensures signals == R.RecoverAlarm(old(states)[pid]).1
    {
      var st := states[pid];
      if !R.IsActive(st) {
        return [];
      }
      var calm := st.(inBand := false, pendingOn := false, pendingOff := false);
      states := states[pid := calm.(status := R.Recovered, activeId := 0)];
      return [R.AlarmRecovered(st.activeId)];
    }

    /** The sample is on the alarm side: storm detection, on-delay, raise. */
    method EvaluateOnSide(pid: nat, r: R.Rule, was: R.PointState, value: real, now: int)
      returns (signals: seq<R.Signal>)
      requires Shape() && R.OnSide(r, value)
      modifies this`ringHead, this`ringCount, this`stormActive, ring
      modifies this`idSeq, this`states, this`pendingStorm, this`stormDropped
      ensures var (st, decision) := R.Decide(was, r, value, now);
        var e := R.StormCheck(old(Value()), now);
        var e1 := e.(states := e.states[pid := st]);
        (Value(), signals) == if decision == R.Raise then R.RaiseAlarm(e1, pid, r, value, now) else (e1, [])
    {
      hide R.OnSide;
      hide R.OffSide;
      hide R.StormCheck;
      hide R.RaiseAlarm;
      signals := [];
      var _ := IsStormTriggered(now);
      var st := was;
      if !st.pendingOn && !st.inBand {
        st := st.(pendingOn := true, onSince := now);
      }
      var due := st.pendingOn && now - st.onSince >= r.onDelayMs;
      if due {
        st := st.(pendingOn := false, inBand := true);
      }
      states := states[pid := st];
      if due {
        signals := RaiseAlarm(pid, r, value, now);
      }
    }

    /** The sample is on the recovery side: off-delay, recovery. */
    method EvaluateOffSide(pid: nat, r: R.Rule, was: R.PointState, value: real, now: int)
      returns (signals: seq<R.Signal>)
      requires !R.OnSide(r, value) && R.OffSide(r, value)
      modifies this`states
      ensures var (st, decision) := R.Decide(was, r, value, now);
        var (st1, more) := if decision == R.Recover then R.RecoverAlarm(st) else (st, []);
        states == old(states)[pid := st1] && signals == more
    {
      hide R.OnSide;
      hide R.OffSide;
      hide R.RecoverAlarm;
      signals := [];
      var st := was;
      if st.inBand && !st.pendingOff {
        st := st.(pendingOff := true, offSince := now);
      }
      var due := st.pendingOff && now - st.offSince >= r.offDelayMs;
      if due {
        st := st.(pendingOff := false, inBand := false);
      }
      states := states[pid := st];
      if due {
        signals := RecoverAlarm(pid);
        assert states == old(states)[pid := R.RecoverAlarm(st).0];
      }
    }

    /** One sample. */
    method Evaluate(pid: nat, value: real, now: int) returns (signals: seq<R.Signal>)
      requires Valid()
      modifies this, ring
      ensures Valid() && Value() == R.Evaluate(old(Value()), pid, value, now).0
      ensures signals == R.Evaluate(old(Value()), pid, value, now).1
    {
      R.EvaluateKeepsTable(Value(), pid, value, now);
      hide R.TableOk;
      hide R.StormCheck;
      hide R.RaiseAlarm;
      hide R.RecoverAlarm;
      signals := [];
      if pid !in rules || pid in suppressed {
        return;
      }
      var r := rules[pid];
      var st := if pid in states then states[pid] else R.NEW_STATE;
      if R.OnSide(r, value) {
        assert R.Decide(st, r, value, now).1 != R.Recover;
        hide R.Decide;
        signals := EvaluateOnSide(pid, r, st, value, now);
      } else if R.OffSide(r, value) {
        assert R.Decide(st, r, value, now).1 != R.Raise;
        hide R.Decide;
        signals := EvaluateOffSide(pid, r, st, value, now);
      } else {
        states := states[pid := st.(pendingOn := false, pendingOff := false)];
      }
    }

    /** Confirms the active alarm with this id, if there is one, whichever order the table is walked in. */
    method AcknowledgeAlarm(id: nat, user: string) returns (signals: seq<R.Signal>)
      requires Valid()
      modifies this`states
      ensures Valid() && Value() == R.Acknowledge(old(Value()), id) && signals == [R.Acknowledged(id, user)]
    {
      hide R.TableOk;
      hide R.Acknowledge;
      signals := [R.Acknowledged(id, user)];
      var todo := states.Keys;
      while todo != {}
        invariant todo <= states.Keys && states == old(states)
        invariant forall p :: p in states && p !in todo ==> !R.Pending(states, id, p)
        decreases |todo|
      {
        var p :| p in todo;
        if states[p].activeId == id && states[p].status == R.Active {
          R.AcknowledgeOne(Value(), id, p);
          states := states[p := states[p].(status := R.Confirmed)];
          return;
        }
        todo := todo - {p};
      }
      R.AcknowledgeNone(Value(), id);
    }

    method EnabledRules(newList: seq<R.Rule>) returns (newRules: map<nat, R.Rule>)
      ensures newRules == R.RuleMap(newList)
    {
      newRules := map[];
      for i := 0 to |newList|
        invariant newRules == R.RuleMap(newList[..i])
      {
        assert newList[..i + 1][..i] == newList[..i];
        if newList[i].enabled {
          newRules := newRules[newList[i].pointId := newList[i]];
        }
      }
      assert newList[..|newList|] == newList;
    }

    /** One point of the table during a reload. */
    method ReloadPoint(p: nat, newRules: map<nat, R.Rule>) returns (signals: seq<R.Signal>)
      requires p in states
      modifies this`states
      ensures states == R.ReloadOne(old(states), rules, newRules, p).0
      ensures signals == R.ReloadOne(old(states), rules, newRules, p).1
    {
      signals := [];
      if p !in newRules {
        if R.IsActive(states[p]) {
          signals := RecoverAlarm(p);
        }
        states := states - {p};
      } else if p in rules && R.Changed(rules[p], newRules[p]) {
        states := states[p := R.ResetDelays(states[p])];
      }
    }

    /** Rule reload: points without a rule are cleared and forgotten, points whose thresholds or level
        changed restart their delays. `order` is the order in which the table was walked. */
    method DoReloadRules(newList: seq<R.Rule>) returns (signals: seq<R.Signal>, ghost order: seq<nat>)
      requires Valid()
      modifies this`states, this`rules
      ensures Valid() && R.Enumerates(order, old(states.Keys))
      ensures Value() == R.Reload(old(Value()), newList, order).0
      ensures signals == R.Reload(old(Value()), newList, order).1
    {
      hide R.TableOk;
      hide R.ReloadOne;
      var newRules := EnabledRules(newList);
      signals, order := [], [];
      var todo := states.Keys;
      while todo != {}
        invariant rules == old(rules) && todo <= old(states.Keys) && todo <= states.Keys
        invariant R.Enumerates(order, old(states.Keys) - todo)
        invariant states == R.ReloadAll(old(states), rules, newRules, order).0
        invariant signals == R.ReloadAll(old(states), rules, newRules, order).1
        decreases |todo|
      {
        var p :| p in todo;
        ghost var front := order;
        order := order + [p];
        assert order[..|order| - 1] == front;
        R.ReloadOneKeys(states, rules, newRules, p);
        var more := ReloadPoint(p, newRules);
        signals := signals + more;
        todo := todo - {p};
      }
      R.ReloadKeepsTable(old(states), rules, newRules, order, idSeq);
      rules := newRules;
    }

    /** The expiry is compared once and not kept. */
    method DoSuppressPoint(pid: nat, expireEpoch: nat, nowEpoch: nat)
      requires Valid()
      modifies this`suppressed
      ensures Valid() && Value() == R.Apply(old(Value()), R.Suppress(pid, expireEpoch, nowEpoch)).0
    {
      if expireEpoch <= nowEpoch {
        suppressed := suppressed - {pid};
        return;
      }
      suppressed := suppressed + {pid};
    }

    method DoUnsuppressPoint(pid: nat)
      requires Valid()
      modifies this`suppressed
      ensures Valid() && Value() == R.Apply(old(Value()), R.Unsuppress(pid)).0
    {
      suppressed := suppressed - {pid};
    }

    /** A new interval for a timer that is not running leaves it not running. */
    method DoSetStormConfig(cfg: S.Config)
      requires Valid()
      modifies this`config
      ensures Valid() && Value() == R.Apply(old(Value()), R.Configure(cfg)).0
    {
      config := cfg;
    }

    /** The slot of the flush timer. */
    method OnStormFlush(now: int) returns (signals: seq<R.Signal>)
      requires Valid()
      modifies this
      ensures Valid() && (Value(), signals) == R.Flush(old(Value()), now)
    {
      if !stormActive || pendingStorm == [] {
        return [];
      }
      signals := [R.StormTriggered(|pendingStorm|, stormDropped, pendingStorm)];
      stormDropped := 0;
      pendingStorm := [];
      var inWindow := CountInWindow(now, config.windowMs);
      if inWindow <= config.threshold {
        stormActive := false;
        signals := signals + [R.StormCleared];
      } else {
        assert signals + [] == signals;
      }
    }

    method ActiveAlarmCount() returns (n: nat)
      ensures n == |R.ActiveIn(states)|
    {
      n := 0;
      var todo := states.Keys;
      while todo != {}
        invariant todo <= states.Keys
        invariant n == |R.ActiveIn(states) - todo|
        decreases |todo|
      {
        var p :| p in todo;
        if R.IsActive(states[p]) {
          assert R.ActiveIn(states) - (todo - {p}) == (R.ActiveIn(states) - todo) + {p};
          n := n + 1;
        } else {
          assert R.ActiveIn(states) - (todo - {p}) == R.ActiveIn(states) - todo;
        }
        todo := todo - {p};
      }
      assert R.ActiveIn(states) - todo == R.ActiveIn(states);
    }
  }
}
