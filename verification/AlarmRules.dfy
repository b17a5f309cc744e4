/** Alarm engine: what one sample, acknowledgement, rule reload or flush does, and what holds over
    every run. Times are milliseconds of the monotonic clock, values are reals. */
module AlarmRules {
  import opened Bytes
  import H = Histories
  import S = Storm

  datatype Level = Info | Warning | Critical
  datatype Status = Active | Confirmed | Recovered
  datatype Direction = High | Low

  datatype Rule = Rule(pointId: nat, level: Level, direction: Direction, on: real, off: real, enabled: bool,
                       onDelayMs: nat, offDelayMs: nat, suppressWindowMs: nat)

  datatype PointState = PointState(inBand: bool, lastRaise: int, pendingOn: bool, onSince: int,
                                   pendingOff: bool, offSince: int, status: Status, activeId: nat)

  const NEW_STATE := PointState(false, 0, false, 0, false, 0, Recovered, 0)

  datatype AlarmEvent = AlarmEvent(id: nat, pointId: nat, level: Level, value: real, threshold: real)

  datatype Signal =
    | Triggered(evt: AlarmEvent)
    | BlackBoxRequested(pointId: nat, level: Level)
    | AlarmRecovered(id: nat)
    | Acknowledged(id: nat, user: string)
    | StormTriggered(total: nat, dropped: nat, samples: seq<AlarmEvent>)
    | StormCleared

  /** `flushRunning`: the periodic flush timer has been started. */
  datatype Engine = Engine(rules: map<nat, Rule>, states: map<nat, PointState>, suppressed: set<nat>,
                           config: S.Config, ring: S.Ring, batch: S.Batch<AlarmEvent>, idSeq: nat,
                           flushRunning: bool)

  ghost predicate RingOk(e: Engine) {
    |e.ring.times| == S.RING_SIZE && e.ring.head < S.RING_SIZE && e.ring.count <= S.RING_SIZE
  }

  /** The constructor creates the flush timer and sets its interval; it does not start it. */
  const NEW_ENGINE :=
    Engine(map[], map[], {}, S.Config(1000, 200), S.EmptyRing(), S.Batch(false, [], 0), 0, false)

  predicate IsActive(st: PointState) { st.status == Active || st.status == Confirmed }

  // ---- one sample ----

  predicate OnSide(r: Rule, value: real) { if r.direction == Low then value < r.on else value > r.on }

  predicate OffSide(r: Rule, value: real) { if r.direction == Low then value > r.off else value < r.off }

  /** The delays: what the sample decides for the point. */
  datatype Decision = Nothing | Raise | Recover

  function Decide(st: PointState, r: Rule, value: real, now: int): (PointState, Decision) {
    if OnSide(r, value) then
      var st1 := if !st.pendingOn && !st.inBand then st.(pendingOn := true, onSince := now) else st;
      if st1.pendingOn && now - st1.onSince >= r.onDelayMs then (st1.(pendingOn := false, inBand := true), Raise)
      else (st1, Nothing)
    else if OffSide(r, value) then
      var st1 := if st.inBand && !st.pendingOff then st.(pendingOff := true, offSince := now) else st;
      if st1.pendingOff && now - st1.offSince >= r.offDelayMs then (st1.(pendingOff := false, inBand := false), Recover)
      else (st1, Nothing)
    else (st.(pendingOn := false, pendingOff := false), Nothing)
  }

  /** Same-source suppression. */
  predicate Suppresses(st: PointState, r: Rule, now: int) {
    r.suppressWindowMs > 0 && now - st.lastRaise < r.suppressWindowMs
  }

  function EventOf(id: nat, pid: nat, r: Rule, value: real): AlarmEvent {
    AlarmEvent(id, pid, r.level, value, r.on)
  }

  function RaiseSignals(evt: AlarmEvent, storm: bool): seq<Signal> {
    if evt.level == Critical then [Triggered(evt), BlackBoxRequested(evt.pointId, evt.level)]
    else if storm then [] else [Triggered(evt)]
  }

  function RaiseAlarm(e: Engine, pid: nat, r: Rule, value: real, now: int): (Engine, seq<Signal>)
    requires pid in e.states
  {
    var st := e.states[pid];
    if Suppresses(st, r, now) then (e, [])
    else
      var evt := EventOf(e.idSeq + 1, pid, r, value);
      (e.(idSeq := evt.id, batch := S.Merge(e.batch, evt),
          states := e.states[pid := st.(activeId := evt.id, status := Active, lastRaise := now)]),
       RaiseSignals(evt, e.batch.active))
  }

  function RecoverAlarm(st: PointState): (PointState, seq<Signal>) {
    if !IsActive(st) then (st, [])
    else (st.(status := Recovered, activeId := 0, inBand := false, pendingOn := false, pendingOff := false),
          [AlarmRecovered(st.activeId)])
  }

  /** The storm ring records every on-side evaluation and re-decides storm mode. */
  function StormCheck(e: Engine, now: int): Engine
    requires RingOk(e)
  {
    if e.config.windowMs == 0 then e
    else
      var ring := S.Record(e.ring, now);
      e.(ring := ring, batch := e.batch.(active := S.InWindow(ring, now, e.config.windowMs) > e.config.threshold))
  }

  function Evaluate(e: Engine, pid: nat, value: real, now: int): (Engine, seq<Signal>)
    requires RingOk(e)
  {
    if pid !in e.rules || pid in e.suppressed then (e, [])
    else
      var r := e.rules[pid];
      var st := if pid in e.states then e.states[pid] else NEW_STATE;
      var e1 := if OnSide(r, value) then StormCheck(e, now) else e;
      var (st1, decision) := Decide(st, r, value, now);
      match decision
      case Nothing => (e1.(states := e1.states[pid := st1]), [])
      case Raise => RaiseAlarm(e1.(states := e1.states[pid := st1]), pid, r, value, now)
      case Recover =>
        var (st2, signals) := RecoverAlarm(st1);
        (e1.(states := e1.states[pid := st2]), signals)
  }

  // ---- acknowledgement, suppression, reload, flush ----

  function Acknowledge(e: Engine, id: nat): Engine {
    if exists p :: p in e.states && e.states[p].activeId == id && e.states[p].status == Active then
      e.(states := map p | p in e.states ::
           if e.states[p].activeId == id && e.states[p].status == Active then e.states[p].(status := Confirmed)
           else e.states[p])
    else e
  }

  /** Enabled rules by point, the last one winning. */
  function RuleMap(rules: seq<Rule>): map<nat, Rule> {
    if rules == [] then map[]
    else
      var m := RuleMap(rules[..|rules| - 1]);
      var r := rules[|rules| - 1];
      if r.enabled then m[r.pointId := r] else m
  }

  predicate Changed(old_: Rule, new_: Rule) {
    old_.on != new_.on || old_.off != new_.off || old_.level != new_.level
  }

  function ResetDelays(st: PointState): PointState {
    st.(pendingOn := false, pendingOff := false, onSince := 0, offSince := 0, lastRaise := 0)
  }

  /** One old state met during a reload. */
  function ReloadOne(states: map<nat, PointState>, oldRules: map<nat, Rule>, newRules: map<nat, Rule>, p: nat)
    : (map<nat, PointState>, seq<Signal>)
  {
    if p !in states then (states, [])
    else if p !in newRules then (states - {p}, RecoverAlarm(states[p]).1)
    else if p in oldRules && Changed(oldRules[p], newRules[p]) then (states[p := ResetDelays(states[p])], [])
    else (states, [])
  }

  /** All old states, in the (unspecified) order `order` of the hash map. */
  function ReloadAll(states: map<nat, PointState>, oldRules: map<nat, Rule>, newRules: map<nat, Rule>, order: seq<nat>)
    : (map<nat, PointState>, seq<Signal>)
  {
    if order == [] then (states, [])
    else
      var (s1, g1) := ReloadAll(states, oldRules, newRules, order[..|order| - 1]);
      var (s2, g2) := ReloadOne(s1, oldRules, newRules, order[|order| - 1]);
      (s2, g1 + g2)
  }

  ghost predicate Enumerates(order: seq<nat>, keys: set<nat>) {
    && (forall p :: p in order <==> p in keys)
    && (forall i, j :: 0 <= i < j < |order| ==> order[i] != order[j])
  }

  function Reload(e: Engine, rules: seq<Rule>, order: seq<nat>): (Engine, seq<Signal>) {
    var newRules := RuleMap(rules);
    var (states, signals) := ReloadAll(e.states, e.rules, newRules, order);
    (e.(rules := newRules, states := states), signals)
  }

  /** The periodic flush: only in storm mode and only a non-empty batch. */
  function Flush(e: Engine, now: int): (Engine, seq<Signal>)
    requires RingOk(e)
  {
    if !e.batch.active || e.batch.pending == [] then (e, [])
    else
      var calm := S.InWindow(e.ring, now, e.config.windowMs) <= e.config.threshold;
      (e.(batch := S.Batch(!calm, [], 0)),
       [StormTriggered(|e.batch.pending|, e.batch.dropped, e.batch.pending)] + if calm then [StormCleared] else [])
  }

  // ---- runs ----

  datatype Event =
    | Sample(pid: nat, value: real, now: int)
    | Ack(id: nat)
    | Suppress(pid: nat, expireEpoch: nat, nowEpoch: nat)
    | Unsuppress(pid: nat)
    | Configure(config: S.Config)
    | NewRules(rules: seq<Rule>, order: seq<nat>)
    | FlushTimer(now: int)

  /** What happened to points, in order. */
  datatype Note =
    | Raised(p: nat, id: nat, time: int, window: nat)
    | Cleared(p: nat, id: nat)
    | Reset(p: nat)          // suppression timer restarted: rule changed or removed

  /** A reload walks the whole table; the flush slot is called by its timer only. */
  ghost predicate Allowed(e: Engine, ev: Event) {
    && (ev.NewRules? ==> Enumerates(ev.order, e.states.Keys))
    && (ev.FlushTimer? ==> e.flushRunning)
  }

  function Apply(e: Engine, ev: Event): (Engine, seq<Signal>)
    requires RingOk(e)
  {
    match ev
    case Sample(pid, value, now) => Evaluate(e, pid, value, now)
    case Ack(id) => (Acknowledge(e, id), [])
    case Suppress(pid, expireEpoch, nowEpoch) =>
      (e.(suppressed := if expireEpoch <= nowEpoch then e.suppressed - {pid} else e.suppressed + {pid}), [])
    case Unsuppress(pid) => (e.(suppressed := e.suppressed - {pid}), [])
    case Configure(config) => (e.(config := config), [])   // sets the timer's interval, does not start it
    case NewRules(rules, order) => Reload(e, rules, order)
    case FlushTimer(now) => Flush(e, now)
  }

  /** A sample raises when it draws a new id, and clears when it ends an active alarm. */
  function SampleNotes(e: Engine, e': Engine, pid: nat, now: int): seq<Note> {
    if e'.idSeq > e.idSeq && pid in e.rules then [Raised(pid, e'.idSeq, now, e.rules[pid].suppressWindowMs)]
    else if pid in e.states && IsActive(e.states[pid]) && pid in e'.states && !IsActive(e'.states[pid])
    then [Cleared(pid, e.states[pid].activeId)]
    else []
  }

  function ReloadNotesOne(states: map<nat, PointState>, oldRules: map<nat, Rule>, newRules: map<nat, Rule>, p: nat)
    : seq<Note>
  {
    if p !in states then []
    else if p !in newRules then (if IsActive(states[p]) then [Cleared(p, states[p].activeId)] else []) + [Reset(p)]
    else if p in oldRules && Changed(oldRules[p], newRules[p]) then [Reset(p)]
    else []
  }

  function ReloadNotes(states: map<nat, PointState>, oldRules: map<nat, Rule>, newRules: map<nat, Rule>,
                       order: seq<nat>): seq<Note>
  {
    if order == [] then []
    else
      var front := order[..|order| - 1];
      ReloadNotes(states, oldRules, newRules, front)
      + ReloadNotesOne(ReloadAll(states, oldRules, newRules, front).0, oldRules, newRules, order[|order| - 1])
  }

  function Notes(e: Engine, ev: Event): seq<Note>
    requires RingOk(e)
  {
    match ev
    case Sample(pid, value, now) => SampleNotes(e, Apply(e, ev).0, pid, now)
    case NewRules(rules, order) => ReloadNotes(e.states, e.rules, RuleMap(rules), order)
    case _ => []
  }

  // ---- what the history says about a point ----

  /** The last raise or clear of `p`. */
  function LastAlarm(log: seq<Note>, p: nat): Option<Note> {
    if log == [] then None
    else
      var n := log[|log| - 1];
      if n.p == p && !n.Reset? then Some(n) else LastAlarm(log[..|log| - 1], p)
  }

  /** The last raise or timer reset of `p`. */
  function LastTimer(log: seq<Note>, p: nat): Option<Note> {
    if log == [] then None
    else
      var n := log[|log| - 1];
      if n.p == p && !n.Cleared? then Some(n) else LastTimer(log[..|log| - 1], p)
  }

  predicate RaisedLast(n: Option<Note>) { n.Some? && n.value.Raised? }

  /** When the suppression timer of `p` was started: at its last raise, or at clock zero if there was
      none since the start or since its rule changed. */
  function TimerStart(log: seq<Note>, p: nat): int {
    var n := LastTimer(log, p);
    if RaisedLast(n) then n.value.time else 0
  }

  /** Raises minus clears. */
  function Balance(log: seq<Note>): int {
    if log == [] then 0
    else Balance(log[..|log| - 1])
         + match log[|log| - 1] { case Raised(_, _, _, _) => 1 case Cleared(_, _) => -1 case Reset(_) => 0 }
  }

  /** What a note may say after `log`: raises and clears of a point alternate, a clear ends the alarm
      that was raised, ids only grow, and raises keep the suppression window apart. */
  ghost predicate Justified(log: seq<Note>, n: Note) {
    match n
    case Raised(p, id, time, window) =>
      && !RaisedLast(LastAlarm(log, p))
      && (forall k :: 0 <= k < |log| && log[k].Raised? ==> log[k].id < id)
      && (window > 0 && RaisedLast(LastTimer(log, p)) ==> time - LastTimer(log, p).value.time >= window)
    case Cleared(p, id) =>
      RaisedLast(LastAlarm(log, p)) && LastAlarm(log, p).value.id == id
    case Reset(_) => true
  }

  ghost predicate JustifiedLog(log: seq<Note>) {
    H.Each(Justified, log)
  }

  /** A point's latches. */
  ghost predicate StateOk(st: PointState) {
    && (IsActive(st) ==> st.inBand) && (st.inBand ==> !st.pendingOn) && (st.pendingOff ==> st.inBand)
  }

  function ActiveIn(states: map<nat, PointState>): set<nat> {
    set p | p in states && IsActive(states[p])
  }

  /** States and history agree. */
  ghost predicate PointAgrees(states: map<nat, PointState>, log: seq<Note>, p: nat) {
    && (p in states && IsActive(states[p]) <==> RaisedLast(LastAlarm(log, p)))
    && (p in states && IsActive(states[p]) ==> LastAlarm(log, p).value.id == states[p].activeId)
    && (RaisedLast(LastTimer(log, p)) ==> p in states)
    && (p in states ==> states[p].lastRaise == TimerStart(log, p))
  }

  ghost predicate Agrees(states: map<nat, PointState>, idSeq: nat, log: seq<Note>) {
    && (forall p :: p in states ==> StateOk(states[p]))
    && (forall p :: PointAgrees(states, log, p))
    && (forall k :: 0 <= k < |log| && log[k].Raised? ==> log[k].id <= idSeq)
    && |ActiveIn(states)| == Balance(log)
    && JustifiedLog(log)
  }

  lemma LastAppend(log: seq<Note>, n: Note, p: nat)
    ensures LastAlarm(log + [n], p) == if n.p == p && !n.Reset? then Some(n) else LastAlarm(log, p)
    ensures LastTimer(log + [n], p) == if n.p == p && !n.Cleared? then Some(n) else LastTimer(log, p)
    ensures Balance(log + [n])
      == Balance(log) + match n { case Raised(_, _, _, _) => 1 case Cleared(_, _) => -1 case Reset(_) => 0 }
  {
    assert (log + [n])[..|log|] == log;
  }

  // ---- one note ----

  /** A note about one point and a change of its state are nothing to the others. */
  lemma OtherPoint(states: map<nat, PointState>, log: seq<Note>, n: Note, states': map<nat, PointState>, q: nat)
    requires PointAgrees(states, log, q) && n.p != q
    requires q in states' <==> q in states
    requires q in states ==> states'[q] == states[q]
    ensures PointAgrees(states', log + [n], q)
  {
    LastAppend(log, n, q);
    hide LastAlarm;
    hide LastTimer;
    hide Balance;
  }

  /** One more note and the new state of its point. */
  lemma {:induction false} NoteAgrees(states: map<nat, PointState>, idSeq: nat, log: seq<Note>, n: Note,
                                      states': map<nat, PointState>, idSeq': nat)
    requires Agrees(states, idSeq, log) && Justified(log, n)
    requires forall q :: q != n.p ==> (q in states' <==> q in states) && (q in states ==> states'[q] == states[q])
    requires n.p in states' ==> StateOk(states'[n.p])
    requires PointAgrees(states', log + [n], n.p)
    requires idSeq <= idSeq' && (n.Raised? ==> n.id <= idSeq')
    requires |ActiveIn(states')| == Balance(log + [n])
    ensures Agrees(states', idSeq', log + [n])
  {
    hide Justified;
    H.Append(Justified, log, n);
    hide LastAlarm;
    hide LastTimer;
    hide Balance;
    forall q ensures PointAgrees(states', log + [n], q) {
      if q != n.p {
        assert PointAgrees(states, log, q);
        OtherPoint(states, log, n, states', q);
      }
    }
    hide PointAgrees;
  }

  lemma {:induction false} RaiseAgrees(states: map<nat, PointState>, idSeq: nat, log: seq<Note>,
                                       p: nat, st: PointState, time: int, window: nat)
    requires Agrees(states, idSeq, log) && !(p in states && IsActive(states[p]))
    requires StateOk(st) && st.status == Active && st.activeId == idSeq + 1 && st.lastRaise == time
    requires window > 0 && p in states ==> time - states[p].lastRaise >= window
    ensures Agrees(states[p := st], idSeq + 1, log + [Raised(p, idSeq + 1, time, window)])
  {
    var n := Raised(p, idSeq + 1, time, window);
    RaiseJustified(states, idSeq, log, p, time, window);
    LastAppend(log, n, p);
    assert ActiveIn(states[p := st]) == ActiveIn(states) + {p};
    hide Justified;
    hide JustifiedLog;
    hide LastAlarm;
    hide LastTimer;
    hide Balance;
    NoteAgrees(states, idSeq, log, n, states[p := st], idSeq + 1);
  }

  lemma {:induction false} RaiseJustified(states: map<nat, PointState>, idSeq: nat, log: seq<Note>, p: nat,
                                          time: int, window: nat)
    requires Agrees(states, idSeq, log) && !(p in states && IsActive(states[p]))
    requires window > 0 && p in states ==> time - states[p].lastRaise >= window
    ensures Justified(log, Raised(p, idSeq + 1, time, window))
  {
    assert PointAgrees(states, log, p);
    hide LastAlarm;
    hide LastTimer;
    hide JustifiedLog;
  }

  lemma {:induction false} ClearAgrees(states: map<nat, PointState>, idSeq: nat, log: seq<Note>, p: nat, st: PointState)
    requires Agrees(states, idSeq, log) && p in states && IsActive(states[p])
    requires StateOk(st) && !IsActive(st) && st.lastRaise == states[p].lastRaise
    ensures Agrees(states[p := st], idSeq, log + [Cleared(p, states[p].activeId)])
  {
    var n := Cleared(p, states[p].activeId);
    assert PointAgrees(states, log, p);
    assert Justified(log, n);
    hide Justified;
    hide JustifiedLog;
    LastAppend(log, n, p);
    hide LastAlarm;
    hide LastTimer;
    hide Balance;
    assert ActiveIn(states[p := st]) == ActiveIn(states) - {p};
    NoteAgrees(states, idSeq, log, n, states[p := st], idSeq);
  }

  predicate SameAlarm(st: PointState, st': PointState) { st'.status == st.status && st'.activeId == st.activeId }

  lemma {:induction false} ResetAgrees(states: map<nat, PointState>, idSeq: nat, log: seq<Note>, p: nat,
                                       states': map<nat, PointState>)
    requires Agrees(states, idSeq, log) && p in states
    requires if p in states' then
               && states' == states[p := states'[p]] && StateOk(states'[p]) && SameAlarm(states[p], states'[p])
               && states'[p].lastRaise == 0
             else states' == states - {p} && !IsActive(states[p])
    ensures Agrees(states', idSeq, log + [Reset(p)])
  {
    var n := Reset(p);
    assert PointAgrees(states, log, p);
    assert Justified(log, n);
    hide Justified;
    hide JustifiedLog;
    LastAppend(log, n, p);
    hide LastAlarm;
    hide LastTimer;
    hide Balance;
    assert ActiveIn(states') == ActiveIn(states);
    NoteAgrees(states, idSeq, log, n, states', idSeq);
  }

  predicate SamePoint(st: PointState, st': PointState) {
    st'.lastRaise == st.lastRaise && IsActive(st') == IsActive(st) && st'.activeId == st.activeId
  }

  /** States that agree in activity, id and suppression timer need no note. */
  ghost predicate SameOutline(states: map<nat, PointState>, states': map<nat, PointState>) {
    && (forall q :: q in states' ==> StateOk(states'[q]))
    && (forall q :: q in states ==> q in states' && SamePoint(states[q], states'[q]))
    && (forall q :: q in states' && q !in states ==> !IsActive(states'[q]) && states'[q].lastRaise == 0)
  }

  lemma {:induction false} SilentAgrees(states: map<nat, PointState>, idSeq: nat, log: seq<Note>,
                                        states': map<nat, PointState>)
    requires Agrees(states, idSeq, log) && SameOutline(states, states')
    ensures Agrees(states', idSeq, log)
  {
    hide JustifiedLog;
    forall q ensures PointAgrees(states', log, q) {
      assert PointAgrees(states, log, q);
    }
    assert ActiveIn(states') == ActiveIn(states);
  }

  // ---- one event ----

  /** The latches after a decision. */
  lemma DecideOk(st: PointState, r: Rule, value: real, now: int)
    requires StateOk(st)
    ensures var (st1, d) := Decide(st, r, value, now);
      && st1.lastRaise == st.lastRaise && st1.status == st.status && st1.activeId == st.activeId
      && (d != Recover ==> StateOk(st1))
      && (d == Raise ==> st1.inBand && !st1.pendingOn && !IsActive(st))
      && (d == Recover ==> !st1.inBand && !st1.pendingOn && !st1.pendingOff)
  {
  }

  /** The point's state after a sample, and whether an id was drawn. */
  function After(e: Engine, pid: nat, value: real, now: int): (PointState, nat)
    requires pid in e.rules
  {
    var r := e.rules[pid];
    var st := if pid in e.states then e.states[pid] else NEW_STATE;
    var (st1, d) := Decide(st, r, value, now);
    if d == Raise && !Suppresses(st1, r, now)
    then (st1.(activeId := e.idSeq + 1, status := Active, lastRaise := now), e.idSeq + 1)
    else if d == Recover then (RecoverAlarm(st1).0, e.idSeq)
    else (st1, e.idSeq)
  }

  lemma {:induction false} EvaluateShape(e: Engine, pid: nat, value: real, now: int)
    requires RingOk(e) && pid in e.rules && pid !in e.suppressed
    ensures var e', a := Evaluate(e, pid, value, now).0, After(e, pid, value, now);
      e'.states == e.states[pid := a.0] && e'.idSeq == a.1 && e'.rules == e.rules
  {
    StormCheckKeeps(e, now);
    hide Decide;
    hide StormCheck;
    hide Suppresses;
    hide OnSide;
  }

  lemma {:induction false} SampleAgrees(e: Engine, pid: nat, value: real, now: int, log: seq<Note>)
    requires RingOk(e) && Agrees(e.states, e.idSeq, log)
    ensures var (e', signals) := Evaluate(e, pid, value, now);
      Agrees(e'.states, e'.idSeq, log + SampleNotes(e, e', pid, now))
  {
    assert log + [] == log;
    if pid in e.rules && pid !in e.suppressed {
      var r := e.rules[pid];
      var st := if pid in e.states then e.states[pid] else NEW_STATE;
      DecideOk(st, r, value, now);
      var (st1, d) := Decide(st, r, value, now);
      EvaluateShape(e, pid, value, now);
      assert pid in e.states ==> PointAgrees(e.states, log, pid) && StateOk(e.states[pid]);
      hide Evaluate;
      hide Decide;
      hide Agrees;
      if d == Raise && !Suppresses(st1, r, now) {
        RaiseAgrees(e.states, e.idSeq, log, pid, After(e, pid, value, now).0, now, r.suppressWindowMs);
      } else if d == Recover && IsActive(st1) {
        ClearAgrees(e.states, e.idSeq, log, pid, RecoverAlarm(st1).0);
      } else {
        SameOutlineAt(e.states, e.idSeq, log, pid, st, st1);
        SilentAgrees(e.states, e.idSeq, log, e.states[pid := st1]);
      }
    }
  }

  lemma {:induction false} SameOutlineAt(states: map<nat, PointState>, idSeq: nat, log: seq<Note>, pid: nat,
                                         st: PointState, st1: PointState)
    requires Agrees(states, idSeq, log) && StateOk(st1) && SamePoint(st, st1)
    requires st == if pid in states then states[pid] else NEW_STATE
    ensures SameOutline(states, states[pid := st1])
  {
  }

  lemma {:induction false} AcknowledgeAgrees(e: Engine, id: nat, log: seq<Note>)
    requires Agrees(e.states, e.idSeq, log)
    ensures Agrees(Acknowledge(e, id).states, e.idSeq, log) && Acknowledge(e, id).idSeq == e.idSeq
  {
    SilentAgrees(e.states, e.idSeq, log, Acknowledge(e, id).states);
  }

  lemma {:induction false} ReloadOneAgrees(states: map<nat, PointState>, oldRules: map<nat, Rule>,
                                           newRules: map<nat, Rule>,
                                           p: nat, idSeq: nat, log: seq<Note>)
    requires Agrees(states, idSeq, log)
    ensures Agrees(ReloadOne(states, oldRules, newRules, p).0, idSeq,
                   log + ReloadNotesOne(states, oldRules, newRules, p))
  {
    var states' := ReloadOne(states, oldRules, newRules, p).0;
    assert log + [] == log;
    if p in states {
      assert StateOk(states[p]);
      if p !in newRules {
        if IsActive(states[p]) {
          var st := RecoverAlarm(states[p]).0;
          var n := Cleared(p, states[p].activeId);
          ClearAgrees(states, idSeq, log, p, st);
          assert states[p := st] - {p} == states';
          ResetAgrees(states[p := st], idSeq, log + [n], p, states');
          assert log + ([n] + [Reset(p)]) == (log + [n]) + [Reset(p)];
        } else {
          ResetAgrees(states, idSeq, log, p, states');
          assert [] + [Reset(p)] == [Reset(p)];
        }
      } else if p in oldRules && Changed(oldRules[p], newRules[p]) {
        ResetAgrees(states, idSeq, log, p, states');
      }
    }
  }

  lemma {:induction false} ReloadAgrees(states: map<nat, PointState>, oldRules: map<nat, Rule>,
                                        newRules: map<nat, Rule>,
                                        order: seq<nat>, idSeq: nat, log: seq<Note>)
    requires Agrees(states, idSeq, log)
    ensures Agrees(ReloadAll(states, oldRules, newRules, order).0, idSeq,
                   log + ReloadNotes(states, oldRules, newRules, order))
  {
    hide Agrees;
    hide ReloadOne;
    hide ReloadNotesOne;
    if order == [] {
      assert log + [] == log;
    } else {
      var front, p := order[..|order| - 1], order[|order| - 1];
      ReloadAgrees(states, oldRules, newRules, front, idSeq, log);
      var s1 := ReloadAll(states, oldRules, newRules, front).0;
      var n1 := ReloadNotes(states, oldRules, newRules, front);
      ReloadOneAgrees(s1, oldRules, newRules, p, idSeq, log + n1);
      assert log + (n1 + ReloadNotesOne(s1, oldRules, newRules, p))
        == (log + n1) + ReloadNotesOne(s1, oldRules, newRules, p);
    }
  }

  lemma {:induction false} ReloadOneKeys(states: map<nat, PointState>, oldRules: map<nat, Rule>,
                                         newRules: map<nat, Rule>, p: nat)
    ensures states.Keys - {p} <= ReloadOne(states, oldRules, newRules, p).0.Keys <= states.Keys
  {
  }

  /** After a reload exactly the points that still have a rule keep a state. */
  lemma {:induction false} ReloadKeys(states: map<nat, PointState>, oldRules: map<nat, Rule>,
                                      newRules: map<nat, Rule>, order: seq<nat>)
    ensures var s := ReloadAll(states, oldRules, newRules, order).0;
      forall p :: p in s <==> p in states && (p in order ==> p in newRules)
  {
    if order != [] {
      ReloadKeys(states, oldRules, newRules, order[..|order| - 1]);
      assert order == order[..|order| - 1] + [order[|order| - 1]];
    }
  }

  // ---- the table of point states ----

  predicate Pending(states: map<nat, PointState>, id: nat, p: nat) {
    p in states && states[p].activeId == id && states[p].status == Active
  }

  lemma {:induction false} AcknowledgeOne(e: Engine, id: nat, p: nat)
    requires TableOk(e.states, e.idSeq) && Pending(e.states, id, p)
    ensures Acknowledge(e, id) == e.(states := e.states[p := e.states[p].(status := Confirmed)])
    ensures TableOk(Acknowledge(e, id).states, e.idSeq)
  {
    UpdateKeepsTable(e.states, e.idSeq, p, e.states[p].(status := Confirmed), e.idSeq);
    var states' := Acknowledge(e, id).states;
    assert forall q :: Pending(e.states, id, q) ==> q == p;
    hide TableOk;
    assert states' == e.states[p := e.states[p].(status := Confirmed)];
  }

  lemma {:induction false} AcknowledgeNone(e: Engine, id: nat)
    requires forall p :: !Pending(e.states, id, p)
    ensures Acknowledge(e, id) == e
  {
    assert forall p :: p in e.states && e.states[p].activeId == id && e.states[p].status == Active ==>
        Pending(e.states, id, p);
  }

  /** Latches are consistent and active alarms have distinct ids, all drawn already. */
  ghost predicate TableOk(states: map<nat, PointState>, idSeq: nat) {
    && (forall p :: p in states ==> StateOk(states[p]) && IdOk(states[p], idSeq))
    && (forall p, q :: p in states && q in states && p != q && IsActive(states[p])
          ==> states[p].activeId != states[q].activeId)
  }

  ghost predicate IdOk(st: PointState, idSeq: nat) {
    st.activeId <= idSeq && (st.activeId == 0 <==> !IsActive(st))
  }

  lemma {:induction false} UpdateKeepsTable(states: map<nat, PointState>, idSeq: nat, p: nat, st: PointState,
                                            idSeq': nat)
    requires TableOk(states, idSeq) && StateOk(st) && IdOk(st, idSeq') && idSeq <= idSeq'
    requires !IsActive(st) || (p in states && st.activeId == states[p].activeId) || st.activeId > idSeq
    ensures TableOk(states[p := st], idSeq')
  {
    var states' := states[p := st];
    forall q | q in states' ensures StateOk(states'[q]) && IdOk(states'[q], idSeq') {
      assert q == p || q in states;
    }
    forall a, b | a in states' && b in states' && a != b && IsActive(states'[a])
      ensures states'[a].activeId != states'[b].activeId
    {
      assert (a in states && IdOk(states[a], idSeq)) || a == p;
      assert (b in states && IdOk(states[b], idSeq)) || b == p;
    }
  }

  lemma {:induction false} EvaluateKeepsTable(e: Engine, pid: nat, value: real, now: int)
    requires RingOk(e) && TableOk(e.states, e.idSeq)
    ensures var e' := Evaluate(e, pid, value, now).0; TableOk(e'.states, e'.idSeq)
  {
    if pid in e.rules && pid !in e.suppressed {
      var r := e.rules[pid];
      var st := if pid in e.states then e.states[pid] else NEW_STATE;
      assert StateOk(st) && IdOk(st, e.idSeq);
      DecideOk(st, r, value, now);
      EvaluateShape(e, pid, value, now);
      hide Evaluate;
      hide Decide;
      hide TableOk;
      var (st', idSeq') := After(e, pid, value, now);
      UpdateKeepsTable(e.states, e.idSeq, pid, st', idSeq');
    }
  }

  lemma {:induction false} ReloadKeepsTable(states: map<nat, PointState>, oldRules: map<nat, Rule>,
                                            newRules: map<nat, Rule>,
                                            order: seq<nat>, idSeq: nat)
    requires TableOk(states, idSeq)
    ensures TableOk(ReloadAll(states, oldRules, newRules, order).0, idSeq)
  {
    if order != [] {
      var front, p := order[..|order| - 1], order[|order| - 1];
      ReloadKeepsTable(states, oldRules, newRules, front, idSeq);
      var s1 := ReloadAll(states, oldRules, newRules, front).0;
      if p in s1 && p in newRules && p in oldRules && Changed(oldRules[p], newRules[p]) {
        UpdateKeepsTable(s1, idSeq, p, ResetDelays(s1[p]), idSeq);
      }
    }
  }

  // ---- whole runs, with the history of storm detection and of merged alarms ----

  datatype World = World(e: Engine, log: seq<Note>, history: seq<int>, stormRaises: nat, reported: nat,
                         reportedDrops: nat)

  const START := World(NEW_ENGINE, [], [], 0, 0, 0)

  predicate Recorded(e: Engine, ev: Event) {
    ev.Sample? && ev.pid in e.rules && ev.pid !in e.suppressed && OnSide(e.rules[ev.pid], ev.value)
      && e.config.windowMs > 0
  }

  function ReportedBy(ev: Event, signals: seq<Signal>): (nat, nat) {
    if ev.FlushTimer? && signals != [] && signals[0].StormTriggered?
    then (signals[0].total, signals[0].dropped)
    else (0, 0)
  }

  function Step(w: World, ev: Event): World
    requires RingOk(w.e)
  {
    var (e', signals) := Apply(w.e, ev);
    var (total, drops) := ReportedBy(ev, signals);
    World(e', w.log + Notes(w.e, ev),
          if Recorded(w.e, ev) then w.history + [ev.now] else w.history,
          w.stormRaises + (if e'.idSeq > w.e.idSeq && e'.batch.active then 1 else 0),
          w.reported + total, w.reportedDrops + drops)
  }

  ghost predicate Inv(w: World) {
    && S.Follows(w.e.ring, w.history)
    && w.e.states.Keys <= w.e.rules.Keys
    && Agrees(w.e.states, w.e.idSeq, w.log)
    && Accounted(w)
  }

  lemma RingInRange(w: World)
    requires S.Follows(w.e.ring, w.history)
    ensures RingOk(w.e)
  {
  }

  lemma {:induction false} StepAgrees(w: World, ev: Event)
    requires RingOk(w.e) && Agrees(w.e.states, w.e.idSeq, w.log)
    ensures Agrees(Step(w, ev).e.states, Step(w, ev).e.idSeq, Step(w, ev).log)
  {
    hide Agrees;
    hide Evaluate;
    hide Acknowledge;
    hide ReloadNotes;
    hide SampleNotes;
    assert w.log + [] == w.log;
    match ev
    case Sample(pid, value, now) => SampleAgrees(w.e, pid, value, now, w.log);
    case Ack(id) => AcknowledgeAgrees(w.e, id, w.log);
    case NewRules(rules, order) => ReloadAgrees(w.e.states, w.e.rules, RuleMap(rules), order, w.e.idSeq, w.log);
    case _ =>
  }

  lemma {:induction false} StepKeys(w: World, ev: Event)
    requires RingOk(w.e) && w.e.states.Keys <= w.e.rules.Keys && Allowed(w.e, ev)
    ensures Step(w, ev).e.states.Keys <= Step(w, ev).e.rules.Keys
  {
    hide Decide;
    hide StormCheck;
    if ev.NewRules? {
      ReloadKeys(w.e.states, w.e.rules, RuleMap(ev.rules), ev.order);
    } else if ev.Sample? && ev.pid in w.e.rules {
      StormCheckKeeps(w.e, ev.now);
    }
  }

  lemma StormCheckKeeps(e: Engine, now: int)
    requires RingOk(e)
    ensures var e' := StormCheck(e, now);
      e'.states == e.states && e'.rules == e.rules && e'.batch.pending == e.batch.pending
        && e'.batch.dropped == e.batch.dropped
  {
  }

  lemma {:induction false} StepRing(w: World, ev: Event)
    requires S.Follows(w.e.ring, w.history)
    ensures RingOk(w.e) && S.Follows(Step(w, ev).e.ring, Step(w, ev).history)
  {
    RingInRange(w);
    if Recorded(w.e, ev) {
      S.RecordFollows(w.e.ring, w.history, ev.now);
    }
    hide S.Follows;
    hide S.Record;
    hide Decide;
  }

  ghost predicate Accounted(w: World) {
    && |w.e.batch.pending| <= S.MAX_PENDING && (w.e.batch.dropped > 0 ==> |w.e.batch.pending| == S.MAX_PENDING)
    && w.reported + w.reportedDrops + |w.e.batch.pending| + w.e.batch.dropped == w.stormRaises
  }

  lemma {:induction false} SampleCounts(e: Engine, pid: nat, value: real, now: int)
    requires RingOk(e)
    ensures var e' := Evaluate(e, pid, value, now).0;
      && e.idSeq <= e'.idSeq
      && (var active := e.batch.(active := e'.batch.active);
          if e'.idSeq > e.idSeq then exists evt :: e'.batch == S.Merge(active, evt) else e'.batch == active)
  {
    StormCheckKeeps(e, now);
    hide Decide;
    hide StormCheck;
    hide S.Merge;
  }

  lemma {:induction false} StepCounts(w: World, ev: Event)
    requires RingOk(w.e) && Accounted(w)
    ensures Accounted(Step(w, ev))
  {
    if ev.Sample? {
      SampleCounts(w.e, ev.pid, ev.value, ev.now);
    }
    hide Evaluate;
    hide Recorded;
    hide Notes;
    hide ReloadAll;
  }

  /** A run: the worlds an engine goes through from the start. */
  ghost predicate Behaviour(ws: seq<World>, events: seq<Event>) {
    && |ws| == |events| + 1 && ws[0] == START
    && forall k :: 0 <= k < |events| ==> Allowed(ws[k].e, events[k]) && Follows(ws[k], events[k], ws[k + 1])
  }

  ghost predicate Follows(w: World, ev: Event, w': World) {
    RingOk(w.e) ==> w' == Step(w, ev)
  }

  /** In every run, for every point: raises and clears alternate, a clear ends the alarm that was
      raised, ids are never reused, raises keep the suppression window apart unless the rule changed
      in between; the number of active points is raises minus clears; no state outlives its rule; and
      every alarm raised in storm mode is reported, reported as dropped, or still pending or dropped
      (which of these, `AlarmTiming.MergedForGood` says). */
  lemma {:induction false} RunInv(ws: seq<World>, events: seq<Event>, k: nat)
    requires Behaviour(ws, events) && k < |ws|
    ensures Inv(ws[k])
  {
    if k == 0 {
      StartInv();
    } else {
      RunInv(ws, events, k - 1);
      assert Allowed(ws[k - 1].e, events[k - 1]) && Follows(ws[k - 1], events[k - 1], ws[k]);
      hide Step;
      hide Agrees;
      hide Accounted;
      StepRing(ws[k - 1], events[k - 1]);
      StepAgrees(ws[k - 1], events[k - 1]);
      StepKeys(ws[k - 1], events[k - 1]);
      StepCounts(ws[k - 1], events[k - 1]);
    }
  }

  lemma StartInv()
    ensures Inv(START)
  {
    assert START.e.ring.times[..0] == [];
    assert ActiveIn(map[]) == {};
  }

  /** `activeAlarmCount` at any time is raises minus clears so far. */
  lemma ActiveCount(ws: seq<World>, events: seq<Event>, k: nat)
    requires Behaviour(ws, events) && k < |ws|
    ensures |ActiveIn(ws[k].e.states)| == Balance(ws[k].log)
  {
    RunInv(ws, events, k);
  }

  /** With a clock that never goes back, every storm decision taken on an on-side evaluation is the
      one over the full history when the threshold is below 128; otherwise storm mode stays off. */
  lemma StormDecision(ws: seq<World>, events: seq<Event>, k: nat)
    requires Behaviour(ws, events) && k < |events| && Recorded(ws[k].e, events[k])
    requires S.Rising(ws[k + 1].history)
    ensures var w' := ws[k + 1];
      var c := ws[k].e.config;
      && w'.history == ws[k].history + [events[k].now]
      && w'.e.batch.active
         == (c.threshold < S.RING_SIZE && S.Within(w'.history, events[k].now, c.windowMs) > c.threshold)
  {
    RunInv(ws, events, k);
    assert Follows(ws[k], events[k], ws[k + 1]);
    var w, ev := ws[k], events[k];
    S.RecordFollows(w.e.ring, w.history, ev.now);
    S.RingCount(S.Record(w.e.ring, ev.now), w.history + [ev.now], ev.now, w.e.config.windowMs);
    S.RecentCount(w.history + [ev.now], ev.now, w.e.config.windowMs);
    SampleBatch(w.e, ev.pid, ev.value, ev.now);
  }

  /** A recorded sample leaves storm mode as the storm check decided. */
  lemma SampleBatch(e: Engine, pid: nat, value: real, now: int)
    requires RingOk(e) && Recorded(e, Sample(pid, value, now))
    ensures var ring := S.Record(e.ring, now);
      Evaluate(e, pid, value, now).0.batch.active == (S.InWindow(ring, now, e.config.windowMs) > e.config.threshold)
  {
    hide S.Record;
  }

  /** The default configuration (200 in one second) never enters storm mode. */
  lemma DefaultNeverStorms(ws: seq<World>, events: seq<Event>, k: nat)
    requires Behaviour(ws, events) && k < |ws|
    requires forall i :: 0 <= i < |events| ==> !events[i].Configure?
    ensures !ws[k].e.batch.active && ws[k].e.config == NEW_ENGINE.config
  {
    if k > 0 {
      DefaultNeverStorms(ws, events, k - 1);
      RunInv(ws, events, k - 1);
      assert Follows(ws[k - 1], events[k - 1], ws[k]);
      NeverStormsStep(ws[k - 1], events[k - 1]);
    }
  }

  lemma NeverStormsStep(w: World, ev: Event)
    requires Inv(w) && !w.e.batch.active && w.e.config.threshold >= S.RING_SIZE && !ev.Configure?
    ensures RingOk(w.e) && !Step(w, ev).e.batch.active && Step(w, ev).e.config == w.e.config
  {
    RingInRange(w);
    if ev.Sample? {
      StaysCalm(w.e, ev.now);
    }
    hide Inv;
    hide Decide;
    hide StormCheck;
  }

  lemma StaysCalm(e: Engine, now: int)
    requires RingOk(e) && !e.batch.active && e.config.threshold >= S.RING_SIZE
    ensures !StormCheck(e, now).batch.active && StormCheck(e, now).config == e.config
  {
  }
}
