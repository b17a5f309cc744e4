/** Alarms raised in storm mode, over whole runs: the flush timer never runs, so what is merged is never
    reported. */
module AlarmMerging {
  import opened AlarmRules
  import T = AlarmTiming
  import S = Storm

  // ---- the flush slot by itself ----

  /** The slot reports the whole batch, and only in storm mode. */
  lemma FlushReports(e: Engine, now: int)
    requires RingOk(e)
    ensures var (e', signals) := Flush(e, now);
      && (signals != [] <==> e.batch.active && e.batch.pending != [])
      && (signals != [] ==>
            && signals[0] == StormTriggered(|e.batch.pending|, e.batch.dropped, e.batch.pending)
            && e'.batch.pending == [])
      && (signals == [] ==> e' == e)
  {
  }

  /** A sample that ends storm mode leaves the batch as it is, and the slot would then do nothing. */
  lemma {:induction false} EndedByASample(e: Engine, p: nat, value: real, now: int, later: int)
    requires RingOk(e) && Recorded(e, Sample(p, value, now)) && e.batch.pending != []
    requires S.InWindow(S.Record(e.ring, now), now, e.config.windowMs) <= e.config.threshold
    ensures var e' := Evaluate(e, p, value, now).0;
      RingOk(e') && e'.batch.pending == e.batch.pending && Flush(e', later) == (e', [])
  {
    RecordShape(e.ring, now);
    hide Decide;
    hide S.Record;
    hide S.InWindow;
  }

  lemma RecordShape(r: S.Ring, now: int)
    requires |r.times| == S.RING_SIZE && r.head < S.RING_SIZE && r.count <= S.RING_SIZE
    ensures var r' := S.Record(r, now);
      |r'.times| == S.RING_SIZE && r'.head < S.RING_SIZE && r'.count <= S.RING_SIZE
  {
  }

  // ---- what leaves the engine ----

  /** The alarm with this id leaves the engine in the signal. */
  predicate Announces(s: Signal, id: nat) {
    match s
    case Triggered(evt) => evt.id == id
    case StormTriggered(_, _, samples) => exists i :: 0 <= i < |samples| && samples[i].id == id
    case _ => false
  }

  ghost predicate Announced(signals: seq<Signal>, id: nat) {
    exists i :: 0 <= i < |signals| && Announces(signals[i], id)
  }

  ghost predicate AnnouncedAt(w: World, ev: Event, id: nat) {
    RingOk(w.e) && Announced(Apply(w.e, ev).1, id)
  }

  ghost predicate OfTheStorm(signals: seq<Signal>) {
    exists i :: 0 <= i < |signals| && (signals[i].StormTriggered? || signals[i].StormCleared?)
  }

  // ---- one event ----

  lemma {:induction false} FlagStep(w: World, ev: Event)
    requires RingOk(w.e)
    ensures Step(w, ev).e.flushRunning == w.e.flushRunning
  {
    hide Decide;
    hide StormCheck;
    StormCheckFlag(w.e, if ev.Sample? then ev.now else 0);
  }

  lemma StormCheckFlag(e: Engine, now: int)
    requires RingOk(e)
    ensures StormCheck(e, now).flushRunning == e.flushRunning && StormCheck(e, now).idSeq == e.idSeq
  {
  }

  /** Storm mode is decided again by every on-side evaluation and changed by nothing else. */
  lemma {:induction false} StormModeStep(w: World, ev: Event)
    requires RingOk(w.e) && !ev.FlushTimer?
    ensures Step(w, ev).e.batch.active
         == if Recorded(w.e, ev) then
              S.InWindow(S.Record(w.e.ring, ev.now), ev.now, w.e.config.windowMs) > w.e.config.threshold
            else w.e.batch.active
  {
    hide Decide;
    hide S.Record;
    hide S.InWindow;
  }

  lemma {:induction false} BatchStep(w: World, ev: Event)
    requires RingOk(w.e) && !ev.FlushTimer?
    ensures var b, b' := w.e.batch, Step(w, ev).e.batch; b.pending <= b'.pending && b.dropped <= b'.dropped
    ensures Step(w, ev).reported == w.reported && Step(w, ev).reportedDrops == w.reportedDrops
  {
    hide Decide;
    if ev.Sample? {
      StormCheckKeeps(w.e, ev.now);
      hide StormCheck;
    }
  }

  /** The event draws the id: it raises an alarm. */
  predicate Draws(w: World, ev: Event, id: nat)
    requires RingOk(w.e)
  {
    ev.Sample? && ev.pid in w.e.rules && w.e.idSeq + 1 == id == Step(w, ev).e.idSeq
  }

  /** Critical, or outside storm mode as the sample leaves it. */
  predicate Urgent(w: World, ev: Event)
    requires RingOk(w.e) && ev.Sample? && ev.pid in w.e.rules
  {
    w.e.rules[ev.pid].level == Critical || !Step(w, ev).e.batch.active
  }

  lemma {:induction false} RaiseAnnounces(e: Engine, pid: nat, r: Rule, value: real, now: int, id: nat)
    requires pid in e.states
    ensures var (e', signals) := RaiseAlarm(e, pid, r, value, now);
      && e'.batch.active == e.batch.active && e.idSeq <= e'.idSeq && !OfTheStorm(signals)
      && (Announced(signals, id) <==> e.idSeq + 1 == id == e'.idSeq && (r.level == Critical || !e.batch.active))
  {
    var (e', signals) := RaiseAlarm(e, pid, r, value, now);
    if e'.idSeq > e.idSeq && (r.level == Critical || !e.batch.active) {
      assert Announces(signals[0], id) <==> id == e'.idSeq;
    }
  }

  lemma {:induction false} SampleAnnounces(e: Engine, pid: nat, value: real, now: int, id: nat)
    requires RingOk(e)
    ensures var (e', signals) := Evaluate(e, pid, value, now);
      && e.idSeq <= e'.idSeq && !OfTheStorm(signals)
      && (Announced(signals, id)
          <==> pid in e.rules && e.idSeq + 1 == id == e'.idSeq
               && (e.rules[pid].level == Critical || !e'.batch.active))
  {
    StormCheckFlag(e, now);
    hide Decide;
    hide StormCheck;
    if pid in e.rules && pid !in e.suppressed {
      var r := e.rules[pid];
      var e1 := if OnSide(r, value) then StormCheck(e, now) else e;
      StormCheckKeeps(e, now);
      var st := if pid in e.states then e.states[pid] else NEW_STATE;
      var (st1, decision) := Decide(st, r, value, now);
      RaiseAnnounces(e1.(states := e1.states[pid := st1]), pid, r, value, now, id);
      hide RaiseAlarm;
    }
  }

  lemma {:induction false} ReloadSilent(states: map<nat, PointState>, oldRules: map<nat, Rule>,
                                        newRules: map<nat, Rule>, order: seq<nat>, id: nat)
    ensures var signals := ReloadAll(states, oldRules, newRules, order).1;
      !Announced(signals, id) && !OfTheStorm(signals)
  {
    if order != [] {
      ReloadSilent(states, oldRules, newRules, order[..|order| - 1], id);
    }
  }

  lemma {:induction false} StepAnnounces(w: World, ev: Event, id: nat)
    requires RingOk(w.e) && !ev.FlushTimer?
    ensures w.e.idSeq <= Step(w, ev).e.idSeq && !OfTheStorm(Apply(w.e, ev).1)
    ensures AnnouncedAt(w, ev, id) <==> Draws(w, ev, id) && Urgent(w, ev)
  {
    match ev
    case Sample(pid, value, now) =>
      SampleAnnounces(w.e, pid, value, now, id);
      hide Evaluate;
    case NewRules(rules, order) => ReloadSilent(w.e.states, w.e.rules, RuleMap(rules), order, id);
    case _ =>
  }

  // ---- whole runs ----

  /** The flush timer is never started, so its slot is never called. */
  lemma {:induction false} TimerNeverRuns(ws: seq<World>, events: seq<Event>, k: nat)
    requires Behaviour(ws, events) && k < |ws|
    ensures !ws[k].e.flushRunning && (k < |events| ==> !events[k].FlushTimer?)
  {
    if k > 0 {
      TimerNeverRuns(ws, events, k - 1);
      T.StepFacts(ws, events, k - 1, 0);
      FlagStep(ws[k - 1], events[k - 1]);
    }
    hide Step;
    assert k < |events| ==> Allowed(ws[k].e, events[k]);
  }

  lemma {:induction false} IdsGrow(ws: seq<World>, events: seq<Event>, j: nat, k: nat)
    requires Behaviour(ws, events) && j <= k < |ws|
    ensures ws[j].e.idSeq <= ws[k].e.idSeq
  {
    if j < k {
      IdsGrow(ws, events, j, k - 1);
      T.StepFacts(ws, events, k - 1, 0);
      TimerNeverRuns(ws, events, k - 1);
      hide Behaviour;
      StepAnnounces(ws[k - 1], events[k - 1], 0);
      hide Step;
    }
  }

  /** No report of a storm ever leaves the engine. */
  lemma {:induction false} NoStormReport(ws: seq<World>, events: seq<Event>, k: nat)
    requires Behaviour(ws, events) && k < |events|
    ensures RingOk(ws[k].e) && !OfTheStorm(Apply(ws[k].e, events[k]).1)
  {
    T.StepFacts(ws, events, k, 0);
    TimerNeverRuns(ws, events, k);
    hide Behaviour;
    StepAnnounces(ws[k], events[k], 0);
  }

  lemma {:induction false} BatchGrows(ws: seq<World>, events: seq<Event>, j: nat, k: nat)
    requires Behaviour(ws, events) && j <= k < |ws|
    ensures var b, b' := ws[j].e.batch, ws[k].e.batch; b.pending <= b'.pending && b.dropped <= b'.dropped
  {
    if j < k {
      BatchGrows(ws, events, j, k - 1);
      T.StepFacts(ws, events, k - 1, 0);
      TimerNeverRuns(ws, events, k - 1);
      hide Behaviour;
      BatchStep(ws[k - 1], events[k - 1]);
      hide Step;
    }
  }

  /** What is merged stays merged: over every run the batch only grows, nothing of it is reported, and it
      holds, with the alarms dropped for lack of room, everything raised in storm mode. */
  lemma MergedForGood(ws: seq<World>, events: seq<Event>, j: nat, k: nat)
    requires Behaviour(ws, events) && j <= k < |ws|
    ensures var b, b' := ws[j].e.batch, ws[k].e.batch; b.pending <= b'.pending && b.dropped <= b'.dropped
    ensures ws[k].reported == ws[k].reportedDrops == 0
    ensures |ws[k].e.batch.pending| + ws[k].e.batch.dropped == ws[k].stormRaises
  {
    RunInv(ws, events, k);
    assert Accounted(ws[k]);
    hide Behaviour;
    BatchGrows(ws, events, j, k);
    NothingReported(ws, events, k);
  }

  lemma {:induction false} NothingReported(ws: seq<World>, events: seq<Event>, k: nat)
    requires Behaviour(ws, events) && k < |ws|
    ensures ws[k].reported == ws[k].reportedDrops == 0
  {
    if k > 0 {
      NothingReported(ws, events, k - 1);
      T.StepFacts(ws, events, k - 1, 0);
      TimerNeverRuns(ws, events, k - 1);
      hide Behaviour;
      BatchStep(ws[k - 1], events[k - 1]);
      hide Step;
    }
  }

  /** Over every run, however long: an alarm that was raised ever leaves the engine if and only if it is
      critical or the sample that raised it left the engine outside storm mode. */
  lemma {:induction false} AnnouncedExactly(ws: seq<World>, events: seq<Event>, k: nat, n: Note)
    requires Behaviour(ws, events) && k < |events|
    requires RingOk(ws[k].e) && n in Notes(ws[k].e, events[k]) && n.Raised?
    ensures n.p in ws[k].e.rules
    ensures (exists j :: 0 <= j < |events| && AnnouncedAt(ws[j], events[j], n.id))
      <==> ws[k].e.rules[n.p].level == Critical || !ws[k + 1].e.batch.active
  {
    T.NotesAreDecided(ws, events, k, n);
    T.StepFacts(ws, events, k, 0);
    RaisedDraws(ws[k], events[k], n);
    TimerNeverRuns(ws, events, k);
    StepAnnounces(ws[k], events[k], n.id);
    forall j: nat | j < |events| && AnnouncedAt(ws[j], events[j], n.id) ensures j == k {
      OneDrawer(ws, events, j, k, n.id);
    }
    hide *;
  }

  lemma {:induction false} RaisedDraws(w: World, ev: Event, n: Note)
    requires RingOk(w.e) && n in Notes(w.e, ev) && n.Raised?
    requires T.Evaluated(w.e, ev, n.p)
    ensures Draws(w, ev, n.id)
  {
    SampleAnnounces(w.e, ev.pid, ev.value, ev.now, n.id);
    T.SampleShape(w, ev, n.p);
    EvaluateShape(w.e, ev.pid, ev.value, ev.now);
    hide Evaluate;
    hide Decide;
  }

  lemma {:induction false} OneDrawer(ws: seq<World>, events: seq<Event>, j: nat, k: nat, id: nat)
    requires Behaviour(ws, events) && j < |events| && k < |events|
    requires AnnouncedAt(ws[j], events[j], id) && RingOk(ws[k].e) && Draws(ws[k], events[k], id)
    ensures j == k
  {
    T.StepFacts(ws, events, j, 0);
    T.StepFacts(ws, events, k, 0);
    TimerNeverRuns(ws, events, j);
    StepAnnounces(ws[j], events[j], id);
    if j < k {
      IdsGrow(ws, events, j + 1, k);
    } else if k < j {
      IdsGrow(ws, events, k + 1, j);
    }
    hide Step;
    hide Behaviour;
  }

  /** Over every run storm mode begins and ends only with an on-side evaluation. */
  lemma {:induction false} StormModeMoves(ws: seq<World>, events: seq<Event>, k: nat)
    requires Behaviour(ws, events) && k < |events|
    ensures ws[k].e.batch.active != ws[k + 1].e.batch.active ==> Recorded(ws[k].e, events[k])
  {
    T.StepFacts(ws, events, k, 0);
    TimerNeverRuns(ws, events, k);
    hide Behaviour;
    StormModeStep(ws[k], events[k]);
    hide Step;
  }

  // ---- a concrete run ----

  const FIRST := Rule(1, Warning, High, 10.0, 5.0, true, 0, 0, 0)
  const SECOND := Rule(2, Warning, High, 10.0, 5.0, true, 0, 0, 0)

  const TWO_ALARMS: seq<Event> :=
    [Configure(S.Config(1000, 1)), NewRules([FIRST, SECOND], []), Sample(1, 20.0, 5000), Sample(2, 20.0, 5001)]

  lemma TwoRules()
    ensures RuleMap([FIRST, SECOND]) == map[1 := FIRST, 2 := SECOND]
  {
    assert [FIRST, SECOND][..1] == [FIRST] && [FIRST][..0] == [];
    assert RuleMap([FIRST]) == RuleMap([])[1 := FIRST];
  }

  lemma SetUp(w: World)
    requires w == Step(Step(START, TWO_ALARMS[0]), TWO_ALARMS[1])
    ensures w == START.(e := NEW_ENGINE.(config := S.Config(1000, 1), rules := map[1 := FIRST, 2 := SECOND]))
  {
    TwoRules();
    var w1 := Step(START, TWO_ALARMS[0]);
    assert w1 == START.(e := NEW_ENGINE.(config := S.Config(1000, 1)));
    assert Notes(w1.e, TWO_ALARMS[1]) == [];
    hide RuleMap;
    assert Reload(w1.e, [FIRST, SECOND], []).0 == w1.e.(rules := map[1 := FIRST, 2 := SECOND]);
  }

  /** A rule without delay and suppression window, and a point never seen: the first sample raises. */
  lemma {:induction false} FirstSample(w: World, r: Rule, now: int)
    requires RingOk(w.e) && r.direction == High && r.on == 10.0 && r.level == Warning
    requires r.onDelayMs == 0 && r.suppressWindowMs == 0 && w.e.config.windowMs > 0
    requires r.pointId in w.e.rules && w.e.rules[r.pointId] == r
    requires r.pointId !in w.e.suppressed && r.pointId !in w.e.states
    ensures var w' := Step(w, Sample(r.pointId, 20.0, now));
      && Recorded(w.e, Sample(r.pointId, 20.0, now)) && w'.history == w.history + [now]
      && w'.log == w.log + [Raised(r.pointId, w.e.idSeq + 1, now, 0)]
      && w'.e.rules == w.e.rules && w'.e.suppressed == w.e.suppressed && w'.e.config == w.e.config
      && w'.e.states.Keys == w.e.states.Keys + {r.pointId} && w'.e.idSeq == w.e.idSeq + 1
      && w'.e.batch == S.Merge(w.e.batch.(active := w'.e.batch.active), EventOf(w.e.idSeq + 1, r.pointId, r, 20.0))
  {
    hide S.Record;
    hide S.InWindow;
  }

  lemma TwoWithin()
    ensures S.Within([5000], 5000, 1000) == 1 && S.Within([5000, 5001], 5001, 1000) == 2
    ensures S.Rising([5000]) && S.Rising([5000, 5001])
  {
    assert [5000, 5001][..1] == [5000] && [5000][..0] == [];
  }

  /** At a threshold of one alarm a second the second alarm is raised and merged, and nothing of it leaves
      the engine, then or in any continuation of the run. */
  lemma {:induction false} SilencedRun(ws: seq<World>, events: seq<Event>)
    requires Behaviour(ws, events) && TWO_ALARMS <= events
    ensures ws[4].log == [Raised(1, 1, 5000, 0)] + [Raised(2, 2, 5001, 0)]
    ensures |ws[4].e.batch.pending| == 1 && ws[4].e.batch.pending[0].id == 2
    ensures forall j :: 0 <= j < |events| ==> !AnnouncedAt(ws[j], events[j], 2)
  {
    forall k: nat | k < 4
      ensures events[k] == TWO_ALARMS[k] && RingOk(ws[k].e) && ws[k + 1] == Step(ws[k], TWO_ALARMS[k])
    {
      T.StepFacts(ws, events, k, 0);
    }
    assert ws[0] == START;
    hide *;
    SetUp(ws[2]);
    Merges(ws, events);
    SecondSilent(ws, events);
  }

  lemma {:induction false} Merges(ws: seq<World>, events: seq<Event>)
    requires Behaviour(ws, events) && TWO_ALARMS <= events && RingOk(ws[2].e) && RingOk(ws[3].e)
    requires ws[2] == START.(e := NEW_ENGINE.(config := S.Config(1000, 1), rules := map[1 := FIRST, 2 := SECOND]))
    requires ws[3] == Step(ws[2], TWO_ALARMS[2]) && ws[4] == Step(ws[3], TWO_ALARMS[3])
    ensures ws[4].log == [Raised(1, 1, 5000, 0)] + [Raised(2, 2, 5001, 0)] && ws[3].log == [Raised(1, 1, 5000, 0)]
    ensures ws[4].e.batch.active && 2 in ws[3].e.rules && ws[3].e.rules[2] == SECOND
    ensures |ws[4].e.batch.pending| == 1 && ws[4].e.batch.pending[0].id == 2
  {
    assert events[2] == Sample(1, 20.0, 5000) && events[3] == Sample(2, 20.0, 5001);
    hide Behaviour;
    hide Step;
    FirstSample(ws[2], FIRST, 5000);
    FirstSample(ws[3], SECOND, 5001);
    assert ws[3].history == [] + [5000] == [5000] && ws[4].history == [5000] + [5001] == [5000, 5001];
    assert ws[3].log == [] + [Raised(1, 1, 5000, 0)];
    Decisions(ws, events);
    hide Recorded;
    hide RingOk;
  }

  lemma {:induction false} Decisions(ws: seq<World>, events: seq<Event>)
    requires Behaviour(ws, events) && |events| >= 4 && events[2].Sample? && events[3].Sample?
    requires Recorded(ws[2].e, events[2]) && Recorded(ws[3].e, events[3])
    requires events[2].now == 5000 && events[3].now == 5001
    requires ws[2].e.config == ws[3].e.config == S.Config(1000, 1)
    requires ws[3].history == [5000] && ws[4].history == [5000, 5001]
    ensures !ws[3].e.batch.active && ws[4].e.batch.active
  {
    TwoWithin();
    StormDecision(ws, events, 2);
    StormDecision(ws, events, 3);
    hide *;
  }

  lemma {:induction false} SecondSilent(ws: seq<World>, events: seq<Event>)
    requires Behaviour(ws, events) && TWO_ALARMS <= events
    requires ws[4].log == ws[3].log + [Raised(2, 2, 5001, 0)] && ws[4].e.batch.active
    requires 2 in ws[3].e.rules && ws[3].e.rules[2] == SECOND
    ensures forall j :: 0 <= j < |events| ==> !AnnouncedAt(ws[j], events[j], 2)
  {
    T.StepFacts(ws, events, 3, 0);
    var n := Raised(2, 2, 5001, 0);
    assert ws[4].log == ws[3].log + Notes(ws[3].e, events[3]);
    assert Notes(ws[3].e, events[3]) == ws[4].log[|ws[3].log|..] == [n];
    hide Step;
    AnnouncedExactly(ws, events, 3, n);
    hide *;
  }
}
