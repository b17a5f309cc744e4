/** Time in the alarm engine, over whole runs: the on- and off-delays, the suppression window and
    suppressed points. */
module AlarmTiming {
  import opened AlarmRules

  /** The sample reaches the point's rule. */
  predicate Evaluated(e: Engine, ev: Event, p: nat) {
    ev.Sample? && ev.pid == p && p in e.rules && p !in e.suppressed
  }

  function StateOf(e: Engine, p: nat): PointState {
    if p in e.states then e.states[p] else NEW_STATE
  }

  function DecisionOn(e: Engine, ev: Event, p: nat): Decision
    requires Evaluated(e, ev, p)
  {
    Decide(StateOf(e, p), e.rules[p], ev.value, ev.now).1
  }

  // ---- what an event does to one point ----

  lemma {:induction false} ReloadAt(states: map<nat, PointState>, oldRules: map<nat, Rule>,
                                    newRules: map<nat, Rule>, order: seq<nat>, p: nat)
    requires forall i, j :: 0 <= i < j < |order| ==> order[i] != order[j]
    ensures var s := ReloadAll(states, oldRules, newRules, order).0;
      && (p in s <==> p in states && (p in order ==> p in newRules))
      && (p in s ==>
            s[p] == if p in order && p in oldRules && Changed(oldRules[p], newRules[p]) then ResetDelays(states[p])
                    else states[p])
    ensures forall n :: (n in ReloadNotes(states, oldRules, newRules, order) && n.p == p
      ==> p !in newRules || (p in oldRules && Changed(oldRules[p], newRules[p])))
  {
    if order != [] {
      var front, q := order[..|order| - 1], order[|order| - 1];
      assert order == front + [q];
      ReloadAt(states, oldRules, newRules, front, p);
      hide ResetDelays;
      hide Changed;
    }
  }

  /** A reload takes the point's rule away or changes its thresholds or level. */
  predicate ReloadsPoint(e: Engine, ev: Event, p: nat) {
    ev.NewRules? && var newRules := RuleMap(ev.rules);
      p !in newRules || (p in e.rules && Changed(e.rules[p], newRules[p]))
  }

  /** Events other than an evaluated sample and a reload of the point leave its delays alone. */
  lemma {:induction false} OtherEventKeeps(w: World, ev: Event, p: nat)
    requires RingOk(w.e) && Allowed(w.e, ev) && !Evaluated(w.e, ev, p) && !ReloadsPoint(w.e, ev, p)
    ensures var e' := Step(w, ev).e;
      && (p in e'.states <==> p in w.e.states)
      && (p in e'.states ==> SameDelays(w.e.states[p], e'.states[p]))
    ensures forall n :: n in Notes(w.e, ev) ==> n.p != p
  {
    match ev
    case Sample(pid, value, now) =>
      if pid in w.e.rules && pid !in w.e.suppressed {
        EvaluateShape(w.e, pid, value, now);
        hide After;
      }
      hide Evaluate;
      if !(pid in w.e.rules && pid !in w.e.suppressed) {
        assert Evaluate(w.e, pid, value, now).0 == w.e by { IgnoredSample(w.e, pid, value, now); }
      }
    case NewRules(rules, order) =>
      ReloadAt(w.e.states, w.e.rules, RuleMap(rules), order, p);
      hide ReloadAll;
      hide ReloadNotes;
    case _ =>
  }

  lemma IgnoredSample(e: Engine, pid: nat, value: real, now: int)
    requires RingOk(e) && !(pid in e.rules && pid !in e.suppressed)
    ensures Evaluate(e, pid, value, now) == (e, [])
  {
  }

  predicate SameDelays(st: PointState, st': PointState) {
    && st'.inBand == st.inBand && st'.lastRaise == st.lastRaise && IsActive(st') == IsActive(st)
    && st'.pendingOn == st.pendingOn && st'.onSince == st.onSince
    && st'.pendingOff == st.pendingOff && st'.offSince == st.offSince
  }

  /** What an evaluated sample makes of its point. */
  lemma {:induction false} SampleShape(w: World, ev: Event, p: nat)
    requires RingOk(w.e) && Evaluated(w.e, ev, p)
    ensures var e', a := Step(w, ev).e, After(w.e, p, ev.value, ev.now);
      p in e'.states && e'.states[p] == a.0 && e'.idSeq == a.1
    ensures Notes(w.e, ev) == SampleNotes(w.e, Step(w, ev).e, p, ev.now)
  {
    EvaluateShape(w.e, p, ev.value, ev.now);
    hide After;
    hide Evaluate;
  }

  // ---- the delays ----

  /** The value is between the thresholds: both delays are cancelled. */
  predicate InDeadBand(e: Engine, ev: Event, p: nat) {
    Evaluated(e, ev, p) && !OnSide(e.rules[p], ev.value) && !OffSide(e.rules[p], ev.value)
  }

  predicate OnSideSample(e: Engine, ev: Event, p: nat) {
    Evaluated(e, ev, p) && OnSide(e.rules[p], ev.value)
  }

  predicate OffSideSample(e: Engine, ev: Event, p: nat) {
    Evaluated(e, ev, p) && !OnSide(e.rules[p], ev.value) && OffSide(e.rules[p], ev.value)
  }

  /** Nothing that restarts a delay of `p`, and no raise, clear or reset of it. */
  ghost predicate Quiet(e: Engine, ev: Event, p: nat)
    requires RingOk(e)
  {
    !InDeadBand(e, ev, p) && !ReloadsPoint(e, ev, p) && forall n :: n in Notes(e, ev) ==> n.p != p
  }

  ghost predicate QuietAt(w: World, ev: Event, p: nat) { RingOk(w.e) ==> Quiet(w.e, ev, p) }

  lemma {:induction false} OnLatch(w: World, ev: Event, p: nat)
    requires RingOk(w.e) && Allowed(w.e, ev) && (p in w.e.states ==> StateOk(w.e.states[p]))
    ensures var e' := Step(w, ev).e;
      p in e'.states && e'.states[p].pendingOn ==>
        if p in w.e.states && w.e.states[p].pendingOn
        then e'.states[p].onSince == w.e.states[p].onSince && Quiet(w.e, ev, p)
        else OnSideSample(w.e, ev, p) && e'.states[p].onSince == ev.now
  {
    if Evaluated(w.e, ev, p) {
      SampleShape(w, ev, p);
      hide Step;
    } else if ReloadsPoint(w.e, ev, p) {
      ReloadAt(w.e.states, w.e.rules, RuleMap(ev.rules), ev.order, p);
      hide ReloadAll;
      hide ReloadNotes;
    } else {
      OtherEventKeeps(w, ev, p);
      hide Step;
    }
  }

  lemma {:induction false} OffLatch(w: World, ev: Event, p: nat)
    requires RingOk(w.e) && Allowed(w.e, ev) && (p in w.e.states ==> StateOk(w.e.states[p]))
    ensures var e' := Step(w, ev).e;
      p in e'.states && e'.states[p].pendingOff ==>
        if p in w.e.states && w.e.states[p].pendingOff
        then e'.states[p].offSince == w.e.states[p].offSince && Quiet(w.e, ev, p)
        else OffSideSample(w.e, ev, p) && e'.states[p].offSince == ev.now
  {
    if Evaluated(w.e, ev, p) {
      SampleShape(w, ev, p);
      hide Step;
    } else if ReloadsPoint(w.e, ev, p) {
      ReloadAt(w.e.states, w.e.rules, RuleMap(ev.rules), ev.order, p);
      hide ReloadAll;
      hide ReloadNotes;
    } else {
      OtherEventKeeps(w, ev, p);
      hide Step;
    }
  }

  /** Event `j` was an on-side sample of `p` at time `s`, and all was quiet for `p` from then to `k`. */
  ghost predicate OnSince(ws: seq<World>, events: seq<Event>, j: nat, k: nat, p: nat, s: int)
    requires |ws| == |events| + 1 && k <= |events|
  {
    && j < k && OnSideSample(ws[j].e, events[j], p) && events[j].now == s
    && forall i :: j < i < k ==> QuietAt(ws[i], events[i], p)
  }

  ghost predicate OffSince(ws: seq<World>, events: seq<Event>, j: nat, k: nat, p: nat, s: int)
    requires |ws| == |events| + 1 && k <= |events|
  {
    && j < k && OffSideSample(ws[j].e, events[j], p) && events[j].now == s
    && forall i :: j < i < k ==> QuietAt(ws[i], events[i], p)
  }

  lemma {:induction false} StepFacts(ws: seq<World>, events: seq<Event>, k: nat, p: nat)
    requires Behaviour(ws, events) && k < |events|
    ensures RingOk(ws[k].e) && Allowed(ws[k].e, events[k]) && ws[k + 1] == Step(ws[k], events[k])
    ensures p in ws[k].e.states ==> StateOk(ws[k].e.states[p])
  {
    RunInv(ws, events, k);
    RingInRange(ws[k]);
    hide Step;
    assert Allowed(ws[k].e, events[k]) && Follows(ws[k], events[k], ws[k + 1]);
  }

  lemma {:induction false} PendingOnSince(ws: seq<World>, events: seq<Event>, k: nat, p: nat)
    requires Behaviour(ws, events) && k < |ws| && p in ws[k].e.states && ws[k].e.states[p].pendingOn
    ensures exists j :: OnSince(ws, events, j, k, p, ws[k].e.states[p].onSince)
  {
    if k > 0 {
      StepFacts(ws, events, k - 1, p);
      OnLatch(ws[k - 1], events[k - 1], p);
      assert |ws| == |events| + 1;
      hide Behaviour;
      hide Step;
      var s := ws[k].e.states[p].onSince;
      if p in ws[k - 1].e.states && ws[k - 1].e.states[p].pendingOn {
        PendingOnSince(ws, events, k - 1, p);
        var j :| OnSince(ws, events, j, k - 1, p, s);
        assert OnSince(ws, events, j, k, p, s);
      } else {
        assert OnSince(ws, events, k - 1, k, p, s);
      }
    }
  }

  lemma {:induction false} PendingOffSince(ws: seq<World>, events: seq<Event>, k: nat, p: nat)
    requires Behaviour(ws, events) && k < |ws| && p in ws[k].e.states && ws[k].e.states[p].pendingOff
    ensures exists j :: OffSince(ws, events, j, k, p, ws[k].e.states[p].offSince)
  {
    if k > 0 {
      StepFacts(ws, events, k - 1, p);
      OffLatch(ws[k - 1], events[k - 1], p);
      assert |ws| == |events| + 1;
      hide Behaviour;
      hide Step;
      var s := ws[k].e.states[p].offSince;
      if p in ws[k - 1].e.states && ws[k - 1].e.states[p].pendingOff {
        PendingOffSince(ws, events, k - 1, p);
        var j :| OffSince(ws, events, j, k - 1, p, s);
        assert OffSince(ws, events, j, k, p, s);
      } else {
        assert OffSince(ws, events, k - 1, k, p, s);
      }
    }
  }

  /** On-delay: whenever a sample is due to raise, an on-side sample of the point lies at least the delay
      back, and since then no sample was in the dead band, the rule did not change, and the point was
      neither raised nor cleared. */
  lemma {:induction false} RaiseIsDelayed(ws: seq<World>, events: seq<Event>, k: nat, p: nat)
    requires Behaviour(ws, events) && k < |events| && Evaluated(ws[k].e, events[k], p)
    requires DecisionOn(ws[k].e, events[k], p) == Raise
    ensures OnSideSample(ws[k].e, events[k], p)
    ensures ws[k].e.rules[p].onDelayMs == 0
      || exists j, s :: OnSince(ws, events, j, k, p, s) && events[k].now - s >= ws[k].e.rules[p].onDelayMs
  {
    StepFacts(ws, events, k, p);
    hide Step;
    hide Behaviour;
    var st := StateOf(ws[k].e, p);
    if st.pendingOn {
      PendingOnSince(ws, events, k, p);
      var j :| OnSince(ws, events, j, k, p, st.onSince);
    }
  }

  /** Off-delay: whenever a sample clears a point, an off-side sample of it lies at least the delay back,
      and all was quiet for the point since. */
  lemma {:induction false} ClearIsDelayed(ws: seq<World>, events: seq<Event>, k: nat, p: nat)
    requires Behaviour(ws, events) && k < |events| && Evaluated(ws[k].e, events[k], p)
    requires DecisionOn(ws[k].e, events[k], p) == Recover
    ensures OffSideSample(ws[k].e, events[k], p)
    ensures ws[k].e.rules[p].offDelayMs == 0
      || exists j, s :: OffSince(ws, events, j, k, p, s) && events[k].now - s >= ws[k].e.rules[p].offDelayMs
  {
    StepFacts(ws, events, k, p);
    hide Step;
    hide Behaviour;
    var st := StateOf(ws[k].e, p);
    if st.pendingOff {
      PendingOffSince(ws, events, k, p);
      var j :| OffSince(ws, events, j, k, p, st.offSince);
    }
  }

  /** Raise notes come from such decisions, clear notes of samples likewise. */
  lemma {:induction false} NotesAreDecided(ws: seq<World>, events: seq<Event>, k: nat, n: Note)
    requires Behaviour(ws, events) && k < |events|
    requires RingOk(ws[k].e) && n in Notes(ws[k].e, events[k])
    ensures n.Raised?
      ==> Evaluated(ws[k].e, events[k], n.p) && DecisionOn(ws[k].e, events[k], n.p) == Raise && n.time == events[k].now
    ensures n.Cleared? && events[k].Sample?
      ==> Evaluated(ws[k].e, events[k], n.p) && DecisionOn(ws[k].e, events[k], n.p) == Recover
  {
    var e, ev := ws[k].e, events[k];
    StepFacts(ws, events, k, n.p);
    hide Behaviour;
    match ev
    case Sample(pid, value, now) =>
      if Evaluated(e, ev, pid) {
        SampleShape(ws[k], ev, pid);
        hide Step;
      } else {
        IgnoredSample(e, pid, value, now);
        hide Evaluate;
      }
    case NewRules(rules, order) =>
      NoRaiseInReload(e.states, e.rules, RuleMap(rules), order);
    case _ =>
  }

  lemma {:induction false} NoRaiseInReload(states: map<nat, PointState>, oldRules: map<nat, Rule>,
                                           newRules: map<nat, Rule>, order: seq<nat>)
    ensures forall n :: n in ReloadNotes(states, oldRules, newRules, order) ==> !n.Raised?
  {
    if order != [] {
      NoRaiseInReload(states, oldRules, newRules, order[..|order| - 1]);
      hide ReloadAll;
    }
  }

  /** A running on-delay survives an evaluated sample that is not yet due if and only if the sample is
      not in the dead band: a jump across to the other side does not cancel it. */
  lemma OnDelaySurvives(st: PointState, r: Rule, value: real, now: int)
    requires StateOk(st) && st.pendingOn && (OnSide(r, value) ==> now - st.onSince < r.onDelayMs)
    ensures var st' := Decide(st, r, value, now).0;
      st'.pendingOn && st'.onSince == st.onSince <==> OnSide(r, value) || OffSide(r, value)
  {
  }

  lemma OffDelaySurvives(st: PointState, r: Rule, value: real, now: int)
    requires StateOk(st) && st.pendingOff
      && (!OnSide(r, value) && OffSide(r, value) ==> now - st.offSince < r.offDelayMs)
    ensures var st' := Decide(st, r, value, now).0;
      st'.pendingOff && st'.offSince == st.offSince <==> OnSide(r, value) || OffSide(r, value)
  {
  }

  // ---- the suppression window ----

  /** A raise that is due goes out if and only if the suppression window has passed since the point's
      last raise, counted from clock zero when there was none since the start or since its rule
      changed. Otherwise the point is left in the band without an alarm. */
  lemma {:induction false} DueRaise(ws: seq<World>, events: seq<Event>, k: nat, p: nat)
    requires Behaviour(ws, events) && k < |events| && Evaluated(ws[k].e, events[k], p)
    requires DecisionOn(ws[k].e, events[k], p) == Raise
    ensures var e, e' := ws[k].e, ws[k + 1].e;
      var window, since := e.rules[p].suppressWindowMs, TimerStart(ws[k].log, p);
      && p in e'.states
      && (IsActive(e'.states[p]) <==> window == 0 || events[k].now - since >= window)
      && e'.idSeq == e.idSeq + (if IsActive(e'.states[p]) then 1 else 0)
      && (!IsActive(e'.states[p]) ==> Lost(e'.states[p]))
  {
    StepFacts(ws, events, k, p);
    RunInv(ws, events, k);
    var w, ev := ws[k], events[k];
    assert PointAgrees(w.e.states, w.log, p);
    if p !in w.e.states {
      NeverSeen(w.e.states, w.log, p);
    }
    SampleShape(w, ev, p);
    DecideOk(StateOf(w.e, p), w.e.rules[p], ev.value, ev.now);
    hide Step;
    hide Behaviour;
    hide Agrees;
    hide TimerStart;
    hide Decide;
  }

  lemma NeverSeen(states: map<nat, PointState>, log: seq<Note>, p: nat)
    requires PointAgrees(states, log, p) && p !in states
    ensures TimerStart(log, p) == 0
  {
  }

  /** The first alarm of a point, whatever its delay: with no raise since the start or since its rule
      changed, it goes out if and only if the clock itself has passed the suppression window. */
  lemma FirstRaise(ws: seq<World>, events: seq<Event>, k: nat, p: nat)
    requires Behaviour(ws, events) && k < |events| && Evaluated(ws[k].e, events[k], p)
    requires DecisionOn(ws[k].e, events[k], p) == Raise && !RaisedLast(LastTimer(ws[k].log, p))
    ensures var e' := ws[k + 1].e;
      p in e'.states
        && (IsActive(e'.states[p])
          <==> ws[k].e.rules[p].suppressWindowMs == 0 || events[k].now >= ws[k].e.rules[p].suppressWindowMs)
  {
    DueRaise(ws, events, k, p);
  }

  /** In the band, not waiting, and without an alarm. */
  predicate Lost(st: PointState) { st.inBand && !st.pendingOn && !IsActive(st) }

  predicate LostPoint(e: Engine, p: nat) { p in e.states && Lost(e.states[p]) }

  /** A full recovery of the point, or a reload without a rule for it. */
  predicate Releases(e: Engine, ev: Event, p: nat) {
    || (Evaluated(e, ev, p) && DecisionOn(e, ev, p) == Recover)
    || (ev.NewRules? && p !in RuleMap(ev.rules))
  }

  /** A lost point stays lost, and is not raised, through every event but a recovery or the loss of its
      rule. */
  lemma {:induction false} LostStep(w: World, ev: Event, p: nat)
    requires RingOk(w.e) && Allowed(w.e, ev) && LostPoint(w.e, p) && StateOk(w.e.states[p])
    ensures LostPoint(Step(w, ev).e, p) <==> !Releases(w.e, ev, p)
    ensures forall n :: n in Notes(w.e, ev) ==> !(n.Raised? && n.p == p)
  {
    if Evaluated(w.e, ev, p) {
      SampleShape(w, ev, p);
      hide Step;
    } else if ReloadsPoint(w.e, ev, p) {
      ReloadAt(w.e.states, w.e.rules, RuleMap(ev.rules), ev.order, p);
      NoRaiseInReload(w.e.states, w.e.rules, RuleMap(ev.rules), ev.order);
      hide ReloadAll;
      hide ReloadNotes;
    } else {
      OtherEventKeeps(w, ev, p);
      hide Step;
    }
  }

  /** A suppressed raise is lost, not deferred: until the point has fully recovered or lost its rule it
      is not raised again, however long the value stays on the wrong side. */
  lemma {:induction false} LostUntilRecovered(ws: seq<World>, events: seq<Event>, j: nat, k: nat, p: nat)
    requires Behaviour(ws, events) && j <= k < |ws| && LostPoint(ws[j].e, p)
    requires forall i :: j <= i < k ==> !Releases(ws[i].e, events[i], p)
    ensures LostPoint(ws[k].e, p)
    ensures forall i :: j <= i < k ==> NotRaisedAt(ws[i], events[i], p)
  {
    if j < k {
      LostUntilRecovered(ws, events, j, k - 1, p);
      StepFacts(ws, events, k - 1, p);
      LostStep(ws[k - 1], events[k - 1], p);
      hide Behaviour;
      hide Step;
      hide Releases;
      hide LostPoint;
    }
  }

  ghost predicate NotRaisedAt(w: World, ev: Event, p: nat) {
    RingOk(w.e) ==> forall n :: n in Notes(w.e, ev) ==> !(n.Raised? && n.p == p)
  }

  // ---- suppressed points ----

  /** The event suppresses `p`: its expiry lies in the future. */
  predicate Silences(ev: Event, p: nat) { ev.Suppress? && ev.pid == p && ev.expireEpoch > ev.nowEpoch }

  /** The event lifts the suppression of `p`. */
  predicate Lifts(ev: Event, p: nat) {
    (ev.Unsuppress? && ev.pid == p) || (ev.Suppress? && ev.pid == p && ev.expireEpoch <= ev.nowEpoch)
  }

  ghost predicate SilencedSince(events: seq<Event>, j: nat, k: nat, p: nat)
    requires k <= |events|
  {
    j < k && Silences(events[j], p) && forall i :: j < i < k ==> !Lifts(events[i], p)
  }

  lemma {:induction false} SuppressionStep(w: World, ev: Event, p: nat)
    requires RingOk(w.e)
    ensures p in Step(w, ev).e.suppressed <==> Silences(ev, p) || (p in w.e.suppressed && !Lifts(ev, p))
  {
    hide Decide;
    if ev.Sample? {
      SampleSuppressed(w.e, ev.pid, ev.value, ev.now);
      hide Evaluate;
    }
  }

  lemma {:induction false} SampleSuppressed(e: Engine, pid: nat, value: real, now: int)
    requires RingOk(e)
    ensures Evaluate(e, pid, value, now).0.suppressed == e.suppressed
  {
    hide Decide;
    hide S.Record;
    hide S.InWindow;
  }

  lemma {:induction false} SilencedNext(events: seq<Event>, k: nat, next: nat, p: nat)
    requires k < |events| && next == k + 1
    ensures (exists j :: SilencedSince(events, j, next, p))
      <==> Silences(events[k], p) || ((exists j :: SilencedSince(events, j, k, p)) && !Lifts(events[k], p))
  {
    hide Silences;
    hide Lifts;
    if Silences(events[k], p) {
      assert SilencedSince(events, k, next, p);
    } else if (exists j :: SilencedSince(events, j, k, p)) && !Lifts(events[k], p) {
      var j :| SilencedSince(events, j, k, p);
      assert SilencedSince(events, j, next, p);
    }
    if exists j: nat :: SilencedSince(events, j, next, p) {
      var j: nat :| SilencedSince(events, j, next, p);
      if j < k {
        assert SilencedSince(events, j, k, p) && !Lifts(events[k], p);
      }
    }
  }

  /** Over every run: a point is suppressed if and only if some request silenced it and nothing lifted
      that since. The expiry is looked at only when the request comes in; time alone never ends it. */
  lemma {:induction false} SuppressedExactly(ws: seq<World>, events: seq<Event>, k: nat, p: nat)
    requires Behaviour(ws, events) && k < |ws|
    ensures p in ws[k].e.suppressed <==> exists j :: SilencedSince(events, j, k, p)
  {
    if k > 0 {
      SuppressedExactly(ws, events, k - 1, p);
      StepFacts(ws, events, k - 1, p);
      SuppressionStep(ws[k - 1], events[k - 1], p);
      SilencedNext(events, k - 1, k, p);
      hide *;
    }
  }

  // ---- a concrete run ----

  lemma {:induction false} Extend(ws: seq<World>, events: seq<Event>, ev: Event) returns (longer: seq<World>)
    requires Behaviour(ws, events) && Allowed(ws[|events|].e, ev)
    ensures RingOk(ws[|events|].e) && longer == ws + [Step(ws[|events|], ev)]
    ensures Behaviour(longer, events + [ev])
  {
    var n := |events|;
    RunInv(ws, events, n);
    RingInRange(ws[n]);
    hide Step;
    longer := ws + [Step(ws[n], ev)];
    var events' := events + [ev];
    forall k | 0 <= k < |events'|
      ensures Allowed(longer[k].e, events'[k]) && Follows(longer[k], events'[k], longer[k + 1])
    {
      if k < n {
        assert Allowed(ws[k].e, events[k]) && Follows(ws[k], events[k], ws[k + 1]);
      }
    }
  }

  /** Alarm above 10, recovery below 5, on-delay three seconds. */
  const DELAYED := Rule(1, Warning, High, 10.0, 5.0, true, 3000, 0, 0)

  /** The value is below the recovery threshold one second after it rose, and the alarm still goes out
      three seconds after the rise. */
  lemma {:induction false} OppositeSideRun() returns (ws: seq<World>, events: seq<Event>)
    ensures events == [NewRules([DELAYED], []), Sample(1, 20.0, 0), Sample(1, 0.0, 1000), Sample(1, 20.0, 3000)]
    ensures Behaviour(ws, events) && OffSideSample(ws[2].e, events[2], 1)
    ensures !(1 in ws[3].e.states && IsActive(ws[3].e.states[1])) && 1 in ws[4].e.states && IsActive(ws[4].e.states[1])
  {
    ws, events := [START], [];
    assert Behaviour(ws, events);
    ws := Extend(ws, events, NewRules([DELAYED], []));
    events := events + [NewRules([DELAYED], [])];
    assert ws[1].e.rules[1] == DELAYED && ws[1].e.suppressed == {} && ws[1].e.states == map[] by {
      assert [DELAYED][..0] == [];
    }
    hide Behaviour;
    ws := SampleRun(ws, events, 20.0, 0);
    events := events + [Sample(1, 20.0, 0)];
    ws := SampleRun(ws, events, 0.0, 1000);
    events := events + [Sample(1, 0.0, 1000)];
    ws := SampleRun(ws, events, 20.0, 3000);
    events := events + [Sample(1, 20.0, 3000)];
  }

  lemma {:induction false} SampleRun(ws: seq<World>, events: seq<Event>, value: real, now: int)
    returns (longer: seq<World>)
    requires Behaviour(ws, events) && Evaluated(ws[|events|].e, Sample(1, value, now), 1)
    ensures Behaviour(longer, events + [Sample(1, value, now)]) && longer[..|ws|] == ws && |longer| == |ws| + 1
    ensures var e, e' := ws[|events|].e, longer[|events| + 1].e;
      e'.rules == e.rules && e'.suppressed == e.suppressed && 1 in e'.states
        && e'.states[1] == After(e, 1, value, now).0
  {
    longer := Extend(ws, events, Sample(1, value, now));
    var w := ws[|events|];
    SampleShape(w, Sample(1, value, now), 1);
    EvaluateShape(w.e, 1, value, now);
    SampleSuppressed(w.e, 1, value, now);
    hide After;
    hide Evaluate;
  }
}
