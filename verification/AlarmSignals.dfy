/** What the alarm engine signals, over whole runs: every alarm with the contents of its sample and its
    rule, every recovery with the id of the alarm it ends. */
module AlarmSignals {
  import opened Bytes
  import opened AlarmRules
  import T = AlarmTiming
  import M = AlarmMerging
  import S = Storm

  /** The ids of the recoveries among the signals, in order. */
  function RecoveredIds(signals: seq<Signal>): seq<nat> {
    if signals == [] then []
    else
      var last := signals[|signals| - 1];
      RecoveredIds(signals[..|signals| - 1]) + if last.AlarmRecovered? then [last.id] else []
  }

  /** The ids of the clears among the notes, in order. */
  function ClearedIds(notes: seq<Note>): seq<nat> {
    if notes == [] then []
    else
      var last := notes[|notes| - 1];
      ClearedIds(notes[..|notes| - 1]) + if last.Cleared? then [last.id] else []
  }

  // ---- recoveries ----

  lemma {:induction false} RecoveredJoin(a: seq<Signal>, b: seq<Signal>)
    ensures RecoveredIds(a + b) == RecoveredIds(a) + RecoveredIds(b)
  {
    if b == [] {
      assert a + b == a;
    } else {
      assert (a + b)[..|a + b| - 1] == a + b[..|b| - 1];
      RecoveredJoin(a, b[..|b| - 1]);
    }
  }

  lemma {:induction false} ClearedJoin(a: seq<Note>, b: seq<Note>)
    ensures ClearedIds(a + b) == ClearedIds(a) + ClearedIds(b)
  {
    if b == [] {
      assert a + b == a;
    } else {
      assert (a + b)[..|a + b| - 1] == a + b[..|b| - 1];
      ClearedJoin(a, b[..|b| - 1]);
    }
  }

  lemma Single(s: Signal, n: Note)
    ensures RecoveredIds([s]) == (if s.AlarmRecovered? then [s.id] else []) && RecoveredIds([]) == []
    ensures ClearedIds([n]) == (if n.Cleared? then [n.id] else []) && ClearedIds([]) == []
  {
    assert [s][..0] == [] && [n][..0] == [];
  }

  lemma RaiseRecoversNone(evt: AlarmEvent, storm: bool)
    ensures RecoveredIds(RaiseSignals(evt, storm)) == []
  {
    var t, b := Triggered(evt), BlackBoxRequested(evt.pointId, evt.level);
    Single(t, Reset(0));
    Single(b, Reset(0));
    RecoveredJoin([t], [b]);
    assert [t] + [b] == [t, b];
  }

  lemma {:induction false} SampleRecoveries(e: Engine, p: nat, value: real, now: int)
    requires RingOk(e) && (p in e.states ==> StateOk(e.states[p]))
    ensures var (e', signals) := Evaluate(e, p, value, now);
      RecoveredIds(signals) == ClearedIds(SampleNotes(e, e', p, now))
  {
    var (e', signals) := Evaluate(e, p, value, now);
    if p in e.rules && p !in e.suppressed {
      var r := e.rules[p];
      var st := if p in e.states then e.states[p] else NEW_STATE;
      DecideOk(st, r, value, now);
      EvaluateShape(e, p, value, now);
      SampleSignals(e, p, value, now);
      RaiseRecoversNone(EventOf(e.idSeq + 1, p, r, value), e'.batch.active);
      Single(AlarmRecovered(st.activeId), Cleared(p, st.activeId));
      Single(AlarmRecovered(st.activeId), Raised(p, e.idSeq + 1, now, r.suppressWindowMs));
      hide Evaluate;
      hide RecoveredIds;
      hide ClearedIds;
      hide RaiseSignals;
      hide Decide;
    }
  }

  /** The signals of an evaluated sample. */
  lemma {:induction false} SampleSignals(e: Engine, p: nat, value: real, now: int)
    requires RingOk(e) && p in e.rules && p !in e.suppressed
    requires p in e.states ==> StateOk(e.states[p])
    ensures var r := e.rules[p];
      var st := if p in e.states then e.states[p] else NEW_STATE;
      var (e', signals) := Evaluate(e, p, value, now);
      var decision := Decide(st, r, value, now).1;
      signals ==
      if e'.idSeq > e.idSeq then RaiseSignals(EventOf(e.idSeq + 1, p, r, value), e'.batch.active)
      else if decision == Recover && IsActive(st) then [AlarmRecovered(st.activeId)]
      else []
  {
    StormCheckKeeps(e, now);
    M.StormCheckFlag(e, now);
    var st := if p in e.states then e.states[p] else NEW_STATE;
    DecideOk(st, e.rules[p], value, now);
    hide Decide;
    hide StormCheck;
    hide Suppresses;
    hide RaiseSignals;
    hide EventOf;
  }

  lemma {:induction false} ReloadRecoveries(states: map<nat, PointState>, oldRules: map<nat, Rule>,
                                            newRules: map<nat, Rule>, order: seq<nat>)
    ensures RecoveredIds(ReloadAll(states, oldRules, newRules, order).1)
         == ClearedIds(ReloadNotes(states, oldRules, newRules, order))
  {
    if order != [] {
      var front, p := order[..|order| - 1], order[|order| - 1];
      ReloadRecoveries(states, oldRules, newRules, front);
      var s1 := ReloadAll(states, oldRules, newRules, front).0;
      OneRecovery(s1, oldRules, newRules, p);
      RecoveredJoin(ReloadAll(states, oldRules, newRules, front).1, ReloadOne(s1, oldRules, newRules, p).1);
      ClearedJoin(ReloadNotes(states, oldRules, newRules, front), ReloadNotesOne(s1, oldRules, newRules, p));
      hide RecoveredIds;
      hide ClearedIds;
      hide ReloadOne;
      hide ReloadNotesOne;
    }
  }

  lemma OneRecovery(states: map<nat, PointState>, oldRules: map<nat, Rule>, newRules: map<nat, Rule>, p: nat)
    ensures RecoveredIds(ReloadOne(states, oldRules, newRules, p).1)
         == ClearedIds(ReloadNotesOne(states, oldRules, newRules, p))
  {
    if p in states {
      var id := states[p].activeId;
      Single(AlarmRecovered(id), Cleared(p, id));
      Single(AlarmRecovered(id), Reset(p));
      ClearedJoin([Cleared(p, id)], [Reset(p)]);
      ClearedJoin([], [Reset(p)]);
    }
    hide ClearedIds;
    hide RecoveredIds;
  }

  lemma {:induction false} EventRecoveries(e: Engine, ev: Event)
    requires RingOk(e) && forall p :: p in e.states ==> StateOk(e.states[p])
    ensures RecoveredIds(Apply(e, ev).1) == ClearedIds(Notes(e, ev))
  {
    match ev
    case Sample(p, value, now) =>
      SampleRecoveries(e, p, value, now);
      hide Evaluate;
      hide SampleNotes;
    case NewRules(rules, order) =>
      ReloadRecoveries(e.states, e.rules, RuleMap(rules), order);
    case FlushTimer(now) =>
      Single(StormTriggered(|e.batch.pending|, e.batch.dropped, e.batch.pending), Reset(0));
      Single(StormCleared, Reset(0));
      RecoveredJoin([StormTriggered(|e.batch.pending|, e.batch.dropped, e.batch.pending)], [StormCleared]);
      RecoveredJoin([StormTriggered(|e.batch.pending|, e.batch.dropped, e.batch.pending)], []);
      hide RecoveredIds;
    case _ =>
  }

  /** In every run the recoveries that an event signals are, in order, its clears. */
  lemma {:induction false} RecoveriesExactly(ws: seq<World>, events: seq<Event>, k: nat)
    requires Behaviour(ws, events) && k < |events|
    ensures RingOk(ws[k].e)
    ensures RecoveredIds(Apply(ws[k].e, events[k]).1) == ClearedIds(Notes(ws[k].e, events[k]))
  {
    T.StepFacts(ws, events, k, 0);
    RunInv(ws, events, k);
    hide Behaviour;
    EventRecoveries(ws[k].e, events[k]);
    hide Apply;
    hide Notes;
  }

  // ---- the raise that a recovery ends ----

  lemma {:induction false} LastAlarmAt(log: seq<Note>, p: nat) returns (q: nat)
    requires LastAlarm(log, p).Some?
    ensures q < |log| && log[q] == LastAlarm(log, p).value && log[q].p == p
  {
    var last: nat := |log| - 1;
    if log[last].p == p && !log[last].Reset? {
      q := last;
    } else {
      q := LastAlarmAt(log[..last], p);
    }
  }

  /** The event raises alarm `id` of point `p`. */
  ghost predicate RaisedAt(w: World, ev: Event, p: nat, id: nat) {
    RingOk(w.e) && exists n :: n in Notes(w.e, ev) && n.Raised? && n.p == p && n.id == id
  }

  lemma {:induction false} NoteStep(ws: seq<World>, events: seq<Event>, k: nat, q: nat) returns (j: nat)
    requires Behaviour(ws, events) && k < |ws| && q < |ws[k].log|
    ensures j < k && RingOk(ws[j].e) && ws[k].log[q] in Notes(ws[j].e, events[j])
  {
    assert ws[0].log == [];
    T.StepFacts(ws, events, k - 1, 0);
    var before := ws[k - 1].log;
    assert ws[k].log == before + Notes(ws[k - 1].e, events[k - 1]);
    hide Step;
    if q < |before| {
      j := NoteStep(ws, events, k - 1, q);
    } else {
      j := k - 1;
    }
    hide Notes;
  }

  lemma {:induction false} ClearsAlone(e: Engine, ev: Event, n: Note)
    requires RingOk(e) && n in Notes(e, ev) && n.Cleared?
    ensures forall other :: other in Notes(e, ev) ==> !other.Raised?
  {
    if ev.NewRules? {
      T.NoRaiseInReload(e.states, e.rules, RuleMap(ev.rules), ev.order);
    }
  }

  /** In every run a clear, and so each recovery that is signalled, ends an alarm that an earlier event
      raised for the same point under the same id. */
  lemma {:induction false} RecoveryEndsRaise(ws: seq<World>, events: seq<Event>, k: nat, n: Note)
    requires Behaviour(ws, events) && k < |events|
    requires RingOk(ws[k].e) && n in Notes(ws[k].e, events[k]) && n.Cleared?
    ensures exists j :: 0 <= j < k && RaisedAt(ws[j], events[j], n.p, n.id)
  {
    T.StepFacts(ws, events, k, 0);
    RunInv(ws, events, k + 1);
    var before, notes := ws[k].log, Notes(ws[k].e, events[k]);
    var log := ws[k + 1].log;
    assert log == before + notes && JustifiedLog(log);
    ClearsAlone(ws[k].e, events[k], n);
    hide Step;
    hide Inv;
    var m: nat :| m < |notes| && notes[m] == n;
    hide Notes;
    var q := RaiseBefore(log, |before|, |before| + m);
    hide JustifiedLog;
    var j := NoteStep(ws, events, k, q);
    assert before[q] == log[q];
    assert RaisedAt(ws[j], events[j], n.p, n.id);
  }

  lemma {:induction false} RaiseBefore(log: seq<Note>, len: nat, at: nat) returns (q: nat)
    requires len <= at < |log| && JustifiedLog(log) && log[at].Cleared?
    requires forall l :: len <= l < at ==> !log[l].Raised?
    ensures q < len && log[q].Raised? && log[q].p == log[at].p && log[q].id == log[at].id
  {
    assert Justified(log[..at], log[at]);
    hide JustifiedLog;
    hide LastAlarm;
    q := LastAlarmAt(log[..at], log[at].p);
    assert log[..at][q] == log[q];
  }

  // ---- alarms ----

  /** The alarms and black-box requests among the signals, in order. */
  function Alerts(signals: seq<Signal>): seq<Signal> {
    if signals == [] then []
    else
      var last := signals[|signals| - 1];
      Alerts(signals[..|signals| - 1]) + if last.Triggered? || last.BlackBoxRequested? then [last] else []
  }

  lemma {:induction false} NoAlerts(signals: seq<Signal>)
    requires forall s :: s in signals ==> !s.Triggered? && !s.BlackBoxRequested?
    ensures Alerts(signals) == []
  {
    if signals != [] {
      NoAlerts(signals[..|signals| - 1]);
    }
  }

  lemma {:induction false} ReloadAlertsNone(states: map<nat, PointState>, oldRules: map<nat, Rule>,
                                            newRules: map<nat, Rule>, order: seq<nat>)
    ensures forall s :: s in ReloadAll(states, oldRules, newRules, order).1 ==> s.AlarmRecovered?
  {
    if order != [] {
      ReloadAlertsNone(states, oldRules, newRules, order[..|order| - 1]);
    }
  }

  /** In every run an event that raises no alarm signals none. */
  lemma {:induction false} NoFalseAlert(ws: seq<World>, events: seq<Event>, k: nat)
    requires Behaviour(ws, events) && k < |events| && RingOk(ws[k].e)
    requires forall n :: n in Notes(ws[k].e, events[k]) ==> !n.Raised?
    ensures Alerts(Apply(ws[k].e, events[k]).1) == []
  {
    RunInv(ws, events, k);
    var e, ev := ws[k].e, events[k];
    hide Behaviour;
    if ev.Sample? {
      SampleNoAlert(e, ev.pid, ev.value, ev.now);
    } else {
      OthersNoAlert(e, ev);
      hide Notes;
      hide Apply;
      NoAlerts(Apply(e, ev).1);
    }
  }

  lemma {:induction false} OthersNoAlert(e: Engine, ev: Event)
    requires RingOk(e) && !ev.Sample?
    ensures forall s :: s in Apply(e, ev).1 ==> !s.Triggered? && !s.BlackBoxRequested?
  {
    if ev.NewRules? {
      ReloadAlertsNone(e.states, e.rules, RuleMap(ev.rules), ev.order);
    }
    hide ReloadAll;
    hide Acknowledge;
  }

  lemma {:induction false} SampleNoAlert(e: Engine, p: nat, value: real, now: int)
    requires RingOk(e) && (p in e.states ==> StateOk(e.states[p]))
    requires var e' := Evaluate(e, p, value, now).0; forall n :: n in SampleNotes(e, e', p, now) ==> !n.Raised?
    ensures Alerts(Evaluate(e, p, value, now).1) == []
  {
    var (e', signals) := Evaluate(e, p, value, now);
    if p in e.rules && p !in e.suppressed {
      SampleSignals(e, p, value, now);
      var notes, raised := SampleNotes(e, e', p, now), Raised(p, e'.idSeq, now, e.rules[p].suppressWindowMs);
      assert e'.idSeq > e.idSeq ==> raised in notes;
    }
    hide Evaluate;
    NoAlerts(signals);
  }

  /** The value is beyond the alarm threshold of the rule. */
  predicate Beyond(r: Rule, value: real) {
    match r.direction case High => value > r.on case Low => value < r.on
  }

  /** The value is back beyond the recovery threshold of the rule. */
  predicate Back(r: Rule, value: real) {
    match r.direction case High => value < r.off case Low => value > r.off
  }

  /** In every run an event that raises an alarm is a sample beyond the threshold of its point's rule. The
      alarm carries the next id, the point, the value and the rule's level and threshold; it is signalled
      once, with a black-box request if critical, or merged. */
  lemma {:induction false} RaiseIsTold(ws: seq<World>, events: seq<Event>, k: nat, n: Note)
    requires Behaviour(ws, events) && k < |events|
    requires RingOk(ws[k].e) && n in Notes(ws[k].e, events[k]) && n.Raised?
    ensures events[k].Sample? && events[k].pid == n.p && n.p in ws[k].e.rules
    ensures var r, e, e' := ws[k].e.rules[n.p], ws[k].e, ws[k + 1].e;
      var evt := AlarmEvent(n.id, n.p, r.level, events[k].value, r.on);
      && n.id == e.idSeq + 1 && Beyond(r, events[k].value)
      && Apply(e, events[k]).1
         == (if r.level == Critical then [Triggered(evt), BlackBoxRequested(n.p, Critical)]
             else if e'.batch.active then [] else [Triggered(evt)])
      && e'.batch.pending
         == if e'.batch.active && |e.batch.pending| < 2000 then e.batch.pending + [evt] else e.batch.pending
  {
    T.NotesAreDecided(ws, events, k, n);
    T.StepFacts(ws, events, k, n.p);
    var w, ev := ws[k], events[k];
    hide Behaviour;
    M.RaisedDraws(w, ev, n);
    SampleSignals(w.e, n.p, ev.value, ev.now);
    RaiseMerges(w.e, n.p, ev.value, ev.now);
    DecideOk(T.StateOf(w.e, n.p), w.e.rules[n.p], ev.value, ev.now);
    RaiseSide(T.StateOf(w.e, n.p), w.e.rules[n.p], ev.value, ev.now);
    hide Evaluate;
    hide Decide;
  }

  lemma RaiseSide(st: PointState, r: Rule, value: real, now: int)
    ensures Decide(st, r, value, now).1 == Raise ==> Beyond(r, value)
    ensures Decide(st, r, value, now).1 == Recover ==> Back(r, value)
  {
  }

  lemma {:induction false} RaiseMerges(e: Engine, p: nat, value: real, now: int)
    requires RingOk(e) && p in e.rules && p !in e.suppressed
    ensures var e' := Evaluate(e, p, value, now).0;
      var evt := EventOf(e.idSeq + 1, p, e.rules[p], value);
      e'.idSeq > e.idSeq ==>
        e'.batch.pending == if e'.batch.active && |e.batch.pending| < S.MAX_PENDING then e.batch.pending + [evt]
                            else e.batch.pending
  {
    StormCheckKeeps(e, now);
    M.StormCheckFlag(e, now);
    hide Decide;
    hide StormCheck;
    hide Suppresses;
  }

  /** In every run a clear that a sample makes is on the recovery side of its point's rule. */
  lemma {:induction false} RecoveryIsTrue(ws: seq<World>, events: seq<Event>, k: nat, n: Note)
    requires Behaviour(ws, events) && k < |events| && events[k].Sample?
    requires RingOk(ws[k].e) && n in Notes(ws[k].e, events[k]) && n.Cleared?
    ensures events[k].pid == n.p && n.p in ws[k].e.rules && Back(ws[k].e.rules[n.p], events[k].value)
  {
    T.NotesAreDecided(ws, events, k, n);
    RaiseSide(T.StateOf(ws[k].e, n.p), ws[k].e.rules[n.p], events[k].value, events[k].now);
    hide Decide;
    hide Behaviour;
    hide Notes;
  }

  // ---- the rules in force ----

  /** Rule `i` is the last enabled one of point `p` in the list. */
  ghost predicate LastEnabled(rules: seq<Rule>, i: nat, p: nat) {
    && i < |rules| && rules[i].enabled && rules[i].pointId == p
    && forall j :: i < j < |rules| && rules[j].pointId == p ==> !rules[j].enabled
  }

  /** The rule that a list puts in force for a point is its last enabled one. */
  lemma {:induction false} RuleMapExactly(rules: seq<Rule>, p: nat, r: Rule)
    ensures p in RuleMap(rules) && RuleMap(rules)[p] == r
      <==> exists i: nat :: LastEnabled(rules, i, p) && rules[i] == r
  {
    if rules != [] {
      var n := |rules| - 1;
      var front, last := rules[..n], rules[n];
      RuleMapExactly(front, p, r);
      if last.enabled && last.pointId == p {
        assert LastEnabled(rules, n, p);
        assert forall i: nat :: LastEnabled(rules, i, p) ==> i == n;
      } else {
        forall i: nat | i < n ensures LastEnabled(rules, i, p) <==> LastEnabled(front, i, p) {
          assert front[i] == rules[i];
        }
        assert !LastEnabled(rules, n, p);
        if i: nat :| LastEnabled(rules, i, p) && rules[i] == r {
          assert LastEnabled(front, i, p) && front[i] == r;
        }
        if i: nat :| LastEnabled(front, i, p) && front[i] == r {
          assert LastEnabled(rules, i, p) && rules[i] == r;
        }
      }
    }
  }

  /** The last rule list loaded before event `k`. */
  function RulesBefore(events: seq<Event>, k: nat): seq<Rule>
    requires k <= |events|
  {
    if k == 0 then []
    else if events[k - 1].NewRules? then events[k - 1].rules
    else RulesBefore(events, k - 1)
  }

  /** In every run the rules in force are those of the last list loaded. */
  lemma {:induction false} RulesInForce(ws: seq<World>, events: seq<Event>, k: nat)
    requires Behaviour(ws, events) && k < |ws|
    ensures ws[k].e.rules == RuleMap(RulesBefore(events, k))
  {
    if k > 0 {
      RulesInForce(ws, events, k - 1);
      T.StepFacts(ws, events, k - 1, 0);
      hide Behaviour;
      RulesStep(ws[k - 1], events[k - 1]);
      hide Step;
      hide RuleMap;
    }
  }

  lemma {:induction false} RulesStep(w: World, ev: Event)
    requires RingOk(w.e)
    ensures Step(w, ev).e.rules == if ev.NewRules? then RuleMap(ev.rules) else w.e.rules
  {
    if ev.Sample? {
      StormCheckKeeps(w.e, ev.now);
      hide StormCheck;
    }
    hide Decide;
    hide Notes;
    hide RuleMap;
    hide ReloadAll;
  }

  /** In every run, what a reload makes of a point that holds a state: without a rule it is forgotten; with
      another threshold or level its delays and its suppression timer restart; otherwise it goes on. */
  lemma {:induction false} ReloadExactly(ws: seq<World>, events: seq<Event>, k: nat, p: nat)
    requires Behaviour(ws, events) && k < |events| && events[k].NewRules? && p in ws[k].e.states
    ensures var e, e' := ws[k].e, ws[k + 1].e;
      && p in e.rules && (p in e'.states <==> p in e'.rules)
      && (p in e'.rules ==>
            var r, r', st := e.rules[p], e'.rules[p], e.states[p];
            e'.states[p]
            == if r.on != r'.on || r.off != r'.off || r.level != r'.level
               then st.(pendingOn := false, onSince := 0, pendingOff := false, offSince := 0, lastRaise := 0)
               else st)
  {
    T.StepFacts(ws, events, k, p);
    RunInv(ws, events, k);
    var e, ev := ws[k].e, events[k];
    assert p in ev.order;
    T.ReloadAt(e.states, e.rules, RuleMap(ev.rules), ev.order, p);
    hide Behaviour;
    hide ReloadAll;
    hide Notes;
  }

  // ---- two concrete runs ----

  /** One evaluated sample of an engine outside storm mode: the new state of the point, and the signals. */
  lemma {:induction false} CalmSample(ws: seq<World>, events: seq<Event>, k: nat, p: nat)
    requires Behaviour(ws, events) && k < |events| && T.Evaluated(ws[k].e, events[k], p)
    requires !ws[k + 1].e.batch.active
    ensures var e, e', v, now := ws[k].e, ws[k + 1].e, events[k].value, events[k].now;
      var a := After(e, p, v, now);
      && e'.states == e.states[p := a.0] && e'.idSeq == a.1 && e'.rules == e.rules && e'.suppressed == e.suppressed
      && RingOk(e)
      && Apply(e, events[k]).1
         == (if a.1 > e.idSeq then RaiseSignals(EventOf(e.idSeq + 1, p, e.rules[p], v), false)
             else if Decide(T.StateOf(e, p), e.rules[p], v, now).1 == Recover && IsActive(T.StateOf(e, p))
             then [AlarmRecovered(T.StateOf(e, p).activeId)]
             else [])
  {
    T.StepFacts(ws, events, k, p);
    var e, ev := ws[k].e, events[k];
    hide Behaviour;
    EvaluateShape(e, p, ev.value, ev.now);
    SampleSignals(e, p, ev.value, ev.now);
    T.SampleSuppressed(e, p, ev.value, ev.now);
    hide Evaluate;
    hide After;
    hide Decide;
  }

  lemma OneRule(r: Rule)
    requires r.enabled
    ensures RuleMap([r]) == map[r.pointId := r]
  {
    assert [r][..0] == [];
  }

  lemma {:induction false} Loaded(ws: seq<World>, events: seq<Event>, r: Rule)
    requires Behaviour(ws, events) && events != [] && events[0] == NewRules([r], []) && r.enabled
    ensures var e := ws[1].e;
      e.rules == map[r.pointId := r] && e.states == map[] && e.suppressed == {} && e.idSeq == 0
  {
    T.StepFacts(ws, events, 0, 0);
    OneRule(r);
    hide RuleMap;
  }

  /** What the delays make of the states that the two runs go through; `st` is the point's state. */
  lemma Latches(r: Rule, st: PointState, v: real, now: int)
    ensures Beyond(r, v) && st == NEW_STATE ==>
      Decide(st, r, v, now)
      == if r.onDelayMs == 0 then (st.(inBand := true, onSince := now), Raise)
         else (st.(pendingOn := true, onSince := now), Nothing)
    ensures Beyond(r, v) && st.pendingOn && !st.inBand ==>
      Decide(st, r, v, now)
      == if now - st.onSince >= r.onDelayMs then (st.(pendingOn := false, inBand := true), Raise) else (st, Nothing)
    ensures !Beyond(r, v) && !Back(r, v) && !st.pendingOn && !st.pendingOff ==> Decide(st, r, v, now) == (st, Nothing)
    ensures !Beyond(r, v) && Back(r, v) && !st.inBand && !st.pendingOff ==> Decide(st, r, v, now) == (st, Nothing)
    ensures !Beyond(r, v) && Back(r, v) && st.inBand && !st.pendingOff ==>
      Decide(st, r, v, now)
      == if r.offDelayMs == 0 then (st.(inBand := false, offSince := now), Recover)
         else (st.(pendingOff := true, offSince := now), Nothing)
    ensures !Beyond(r, v) && Back(r, v) && st.pendingOff ==>
      Decide(st, r, v, now)
      == if now - st.offSince >= r.offDelayMs then (st.(pendingOff := false, inBand := false), Recover)
         else (st, Nothing)
  {
  }

  /** The engine in one of these runs: one rule, and the state of its point. */
  ghost predicate Holds(e: Engine, r: Rule, st: PointState, idSeq: nat) {
    && e.rules == map[r.pointId := r] && e.suppressed == {} && e.idSeq == idSeq
    && e.states.Keys <= {r.pointId} && T.StateOf(e, r.pointId) == st
  }

  /** One sample of such a run. */
  lemma {:induction false} NextSample(ws: seq<World>, events: seq<Event>, k: nat, r: Rule, st: PointState, idSeq: nat)
    returns (st': PointState, decision: Decision)
    requires Behaviour(ws, events) && k < |events| && events[k].Sample? && events[k].pid == r.pointId
    requires forall i :: 0 <= i < |events| ==> !events[i].Configure?
    requires Holds(ws[k].e, r, st, idSeq) && r.suppressWindowMs == 0
    ensures RingOk(ws[k].e) && (st', decision) == Decide(st, r, events[k].value, events[k].now)
    ensures decision == Nothing ==> Apply(ws[k].e, events[k]).1 == [] && Holds(ws[k + 1].e, r, st', idSeq)
    ensures decision == Raise ==>
      && Apply(ws[k].e, events[k]).1
         == RaiseSignals(AlarmEvent(idSeq + 1, r.pointId, r.level, events[k].value, r.on), false)
      && Holds(ws[k + 1].e, r, st'.(activeId := idSeq + 1, status := Active, lastRaise := events[k].now), idSeq + 1)
    ensures decision == Recover && IsActive(st) ==> Apply(ws[k].e, events[k]).1 == [AlarmRecovered(st.activeId)]
  {
    DefaultNeverStorms(ws, events, k + 1);
    hide Behaviour;
    CalmSample(ws, events, k, r.pointId);
    DecideKeeps(st, r, events[k].value, events[k].now);
    hide Apply;
    hide RaiseSignals;
    hide Decide;
    st', decision := Decide(st, r, events[k].value, events[k].now).0, Decide(st, r, events[k].value, events[k].now).1;
  }

  lemma DecideKeeps(st: PointState, r: Rule, v: real, now: int)
    ensures var st' := Decide(st, r, v, now).0; st'.activeId == st.activeId && st'.status == st.status
  {
  }

  /** The first alarm of a point, from the samples alone: it is raised beyond the alarm threshold, stays
      between the thresholds, and is cleared under its own id beyond the recovery threshold, whichever way
      the rule looks. */
  lemma {:induction false} HysteresisRun(ws: seq<World>, events: seq<Event>, r: Rule, v1: real, v2: real, v3: real,
                                         t1: int, t2: int, t3: int)
    requires r.enabled && r.onDelayMs == r.offDelayMs == r.suppressWindowMs == 0
    requires Beyond(r, v1) && !Beyond(r, v2) && !Back(r, v2) && !Beyond(r, v3) && Back(r, v3)
    requires Behaviour(ws, events)
    requires var p := r.pointId; events == [NewRules([r], []), Sample(p, v1, t1), Sample(p, v2, t2), Sample(p, v3, t3)]
    ensures RingOk(ws[1].e) && RingOk(ws[2].e) && RingOk(ws[3].e)
    ensures var evt := AlarmEvent(1, r.pointId, r.level, v1, r.on);
      Apply(ws[1].e, events[1]).1
      == if r.level == Critical then [Triggered(evt), BlackBoxRequested(r.pointId, Critical)] else [Triggered(evt)]
    ensures Apply(ws[2].e, events[2]).1 == [] && Apply(ws[3].e, events[3]).1 == [AlarmRecovered(1)]
  {
    Loaded(ws, events, r);
    var st0 := NEW_STATE;
    Latches(r, st0, v1, t1);
    var st1 := st0.(inBand := true, onSince := t1, activeId := 1, status := Active, lastRaise := t1);
    Latches(r, st1, v2, t2);
    Latches(r, st1, v3, t3);
    hide Behaviour;
    hide Decide;
    hide Apply;
    var _, _ := NextSample(ws, events, 1, r, st0, 0);
    var _, _ := NextSample(ws, events, 2, r, st1, 1);
    var _, _ := NextSample(ws, events, 3, r, st1, 1);
    hide Holds;
  }

  /** The delays, from the samples alone: with two samples beyond the alarm threshold the alarm goes out with
      the second one if and only if the delay lies between them, and likewise for the recovery. */
  lemma {:induction false} DelayRun(ws: seq<World>, events: seq<Event>, r: Rule, v1: real, v2: real, v3: real, v4: real,
                                    t1: int, t2: int, t3: int, t4: int)
    requires r.enabled && r.level == Warning && r.onDelayMs > 0 && r.offDelayMs > 0 && r.suppressWindowMs == 0
    requires Beyond(r, v1) && Beyond(r, v2) && !Beyond(r, v3) && Back(r, v3) && !Beyond(r, v4) && Back(r, v4)
    requires Behaviour(ws, events)
    requires var p := r.pointId;
      events == [NewRules([r], []), Sample(p, v1, t1), Sample(p, v2, t2), Sample(p, v3, t3), Sample(p, v4, t4)]
    ensures forall k :: 1 <= k <= 4 ==> RingOk(ws[k].e)
    ensures Apply(ws[1].e, events[1]).1 == [] && Apply(ws[3].e, events[3]).1 == []
    ensures Apply(ws[2].e, events[2]).1
         == if t2 - t1 >= r.onDelayMs then [Triggered(AlarmEvent(1, r.pointId, Warning, v2, r.on))] else []
    ensures Apply(ws[4].e, events[4]).1
         == if t2 - t1 >= r.onDelayMs && t4 - t3 >= r.offDelayMs then [AlarmRecovered(1)] else []
  {
    Loaded(ws, events, r);
    var st1, st2 := NEW_STATE.(pendingOn := true, onSince := t1), AfterDelay(r, t1, t2);
    var id := if t2 - t1 >= r.onDelayMs then 1 else 0;
    hide Behaviour;
    hide Decide;
    hide Apply;
    DelayedRaise(ws, events, r, v1, v2, t1, t2);
    DelayedRecovery(ws, events, r, st2, id, v3, v4, t3, t4);
    hide *;
  }

  /** The state of the point after two samples beyond the threshold. */
  function AfterDelay(r: Rule, t1: int, t2: int): PointState {
    if t2 - t1 >= r.onDelayMs
    then NEW_STATE.(inBand := true, onSince := t1, activeId := 1, status := Active, lastRaise := t2)
    else NEW_STATE.(pendingOn := true, onSince := t1)
  }

  lemma {:induction false} DelayedRaise(ws: seq<World>, events: seq<Event>, r: Rule, v1: real, v2: real,
                                        t1: int, t2: int)
    requires r.level == Warning && r.onDelayMs > 0 && r.suppressWindowMs == 0 && Beyond(r, v1) && Beyond(r, v2)
    requires Behaviour(ws, events) && forall i :: 0 <= i < |events| ==> !events[i].Configure?
    requires |events| > 2 && events[1] == Sample(r.pointId, v1, t1) && events[2] == Sample(r.pointId, v2, t2)
    requires Holds(ws[1].e, r, NEW_STATE, 0)
    ensures var due := t2 - t1 >= r.onDelayMs;
      && RingOk(ws[1].e) && RingOk(ws[2].e) && Apply(ws[1].e, events[1]).1 == []
      && Apply(ws[2].e, events[2]).1 == (if due then [Triggered(AlarmEvent(1, r.pointId, Warning, v2, r.on))] else [])
      && Holds(ws[3].e, r, AfterDelay(r, t1, t2), if due then 1 else 0)
  {
    var st1 := NEW_STATE.(pendingOn := true, onSince := t1);
    Latches(r, NEW_STATE, v1, t1);
    Latches(r, st1, v2, t2);
    hide Behaviour;
    hide Decide;
    hide Apply;
    hide Beyond;
    var _, _ := NextSample(ws, events, 1, r, NEW_STATE, 0);
    var _, _ := NextSample(ws, events, 2, r, st1, 0);
    hide Holds;
  }

  lemma {:induction false} DelayedRecovery(ws: seq<World>, events: seq<Event>, r: Rule, st: PointState, id: nat,
                                           v3: real, v4: real, t3: int, t4: int)
    requires r.offDelayMs > 0 && r.suppressWindowMs == 0
    requires !Beyond(r, v3) && Back(r, v3) && !Beyond(r, v4) && Back(r, v4)
    requires Behaviour(ws, events) && forall i :: 0 <= i < |events| ==> !events[i].Configure?
    requires |events| > 4 && events[3] == Sample(r.pointId, v3, t3) && events[4] == Sample(r.pointId, v4, t4)
    requires Holds(ws[3].e, r, st, id) && !st.pendingOff
    requires st.inBand == IsActive(st) && (st.inBand ==> st.activeId == 1)
    ensures RingOk(ws[3].e) && RingOk(ws[4].e) && Apply(ws[3].e, events[3]).1 == []
    ensures Apply(ws[4].e, events[4]).1 == if st.inBand && t4 - t3 >= r.offDelayMs then [AlarmRecovered(1)] else []
  {
    Latches(r, st, v3, t3);
    var st' := if st.inBand then st.(pendingOff := true, offSince := t3) else st;
    Latches(r, st', v4, t4);
    hide Behaviour;
    hide Decide;
    hide Apply;
    hide Beyond;
    var _, _ := NextSample(ws, events, 3, r, st, id);
    var _, _ := NextSample(ws, events, 4, r, st', id);
    hide Holds;
  }
}
