/** Select-before-operate: the state machine, the device lock it shares with other machines, and what
    holds in every state and over every run of any number of machines. */
module SboProtocol {
  import opened Bytes
  import H = Histories

  datatype Key = Key(link: nat, slave: nat, register: nat)

  /** Sequence ids: "sbo-" ids name a Select, "rejected-" ids only probe the lock. Both draw on one
      process-wide counter. */
  datatype SeqId = Empty | Sbo(n: nat) | Rejected(n: nat)

  datatype Occupant = Occupant(seqId: SeqId, operator: string, since: int, timeoutMs: nat)

  type Buckets = map<Key, Occupant>

  datatype Command = Command(link: nat, slave: nat, register: nat, value: Word)

  datatype SelectRequest = SelectRequest(link: nat, slave: nat, register: nat, value: Word, emergency: bool)

  datatype Phase = Idle | Selecting | Armed | Executed | Timeout | Aborted

  /** Timers: `armedTimer` holds the running interval. */
  datatype Machine = Machine(
    guarded: bool, phase: Phase, seqId: SeqId, operator: string, pending: Command, held: Option<Key>,
    armedTimer: Option<nat>, flapTimer: bool, execTimer: bool, linkUp: bool)

  datatype Signal =
    | StateChanged(phase: Phase)
    | ArmedAcquired(seqId: SeqId, key: Key)
    | ArmedCleared(reason: string)
    | Succeeded(seqId: SeqId)
    | Failed(seqId: SeqId, reason: string)
    | CommandReady(command: Command)

  /** Machine, lock and id counter together. */
  datatype Context = Context(m: Machine, buckets: Buckets, counter: nat)

  datatype Outcome = Outcome(c: Context, accepted: bool, signals: seq<Signal>)

  function NewMachine(guarded: bool): Machine {
    Machine(guarded, Idle, Empty, "", Command(0, 0, 0, 0), None, None, false, false, true)
  }

  // ---- the lock ----

  function Acquire(b: Buckets, key: Key, seqId: SeqId, operator: string, now: int): Buckets {
    if key in b then b else b[key := Occupant(seqId, operator, now, 5000)]
  }

  function Release(b: Buckets, key: Key, seqId: SeqId): Buckets {
    if key in b && b[key].seqId == seqId then b - {key} else b
  }

  function ReleaseHeld(m: Machine, b: Buckets): Buckets {
    if m.guarded && m.held.Some? then Release(b, m.held.value, m.seqId) else b
  }

  // ---- operations ----

  function KeyOf(req: SelectRequest): Key { Key(req.link, req.slave, req.register) }

  function Cleared(m: Machine): Machine { m.(held := None, seqId := Empty, operator := "") }

  function Select(c: Context, req: SelectRequest, operator: string, now: int): Outcome {
    var key := KeyOf(req);
    if c.m.phase != Idle then
      if c.m.guarded
      then Outcome(c.(buckets := Acquire(c.buckets, key, Rejected(c.counter), operator, now),
                      counter := c.counter + 1), false, [])
      else Outcome(c, false, [])
    else
      var id := Sbo(c.counter);
      var pending := Command(req.link, req.slave, req.register, req.value);
      var m := c.m.(seqId := id, operator := operator, pending := pending);
      if !c.m.guarded || key in c.buckets then
        Outcome(Context(m.(seqId := Empty, operator := ""), c.buckets, c.counter + 1), false, [])
      else
        Outcome(
          Context(m.(held := Some(key), phase := Armed, armedTimer := Some(if req.emergency then 3000 else 5000)),
                  Acquire(c.buckets, key, id, operator, now), c.counter + 1),
          true, [StateChanged(Armed), ArmedAcquired(id, key)])
  }

  function Operate(c: Context, seqId: SeqId): Outcome {
    if c.m.phase != Armed || seqId != c.m.seqId then Outcome(c, false, [])
    else
      Outcome(c.(m := c.m.(phase := Executed, armedTimer := None, execTimer := true),
                  buckets := ReleaseHeld(c.m, c.buckets)),
              true, [StateChanged(Executed), CommandReady(c.m.pending)])
  }

  function ForceAbort(c: Context, reason: string): (Context, seq<Signal>) {
    if c.m.phase != Armed then (c.(m := Cleared(c.m)), [])
    else
      (c.(m := Cleared(c.m).(phase := Idle, armedTimer := None, execTimer := false),
          buckets := ReleaseHeld(c.m, c.buckets)),
       [StateChanged(Aborted), ArmedCleared(reason), StateChanged(Idle)])
  }

  function Cancel(c: Context, seqId: SeqId): Outcome {
    if seqId != c.m.seqId || c.m.phase !in {Armed, Selecting} then Outcome(c, false, [])
    else
      var (c', signals) := ForceAbort(c, "user_cancel");
      Outcome(c', true, signals)
  }

  function Ack(c: Context, seqId: SeqId, success: bool, reason: string): Outcome {
    if seqId != c.m.seqId || c.m.phase != Executed then Outcome(c, false, [])
    else
      Outcome(c.(m := Cleared(c.m).(phase := Idle, execTimer := false)), true,
              [if success then Succeeded(seqId) else Failed(seqId, if reason == "" then "unknown" else reason),
               StateChanged(Idle)])
  }

  function Link(c: Context, up: bool): Outcome {
    Outcome(c.(m := c.m.(linkUp := up, flapTimer := !up)), true, [])
  }

  /** Timer slots; a single-shot timer is stopped when it fires. */
  function ArmedTimeout(c: Context): Outcome {
    var c1 := c.(m := c.m.(armedTimer := None));
    if c1.m.phase != Armed then Outcome(c1, false, [])
    else
      Outcome(c1.(m := Cleared(c1.m).(phase := Idle), buckets := ReleaseHeld(c1.m, c1.buckets)), true,
              [StateChanged(Timeout), ArmedCleared("timeout"), StateChanged(Idle)])
  }

  function FlappingTimeout(c: Context): Outcome {
    var c1 := c.(m := c.m.(flapTimer := false));
    if c1.m.linkUp then Outcome(c1, false, [])
    else
      var (c', signals) := ForceAbort(c1, "link_down");
      Outcome(c', true, signals)
  }

  function ExecutingTimeout(c: Context): Outcome {
    var c1 := c.(m := c.m.(execTimer := false));
    if c1.m.phase != Executed then Outcome(c1, false, [])
    else
      Outcome(c1.(m := Cleared(c1.m).(phase := Idle)), true,
              [Failed(c1.m.seqId, "device_ack_timeout"), StateChanged(Idle)])
  }

  datatype Event =
    | DoSelect(req: SelectRequest, operator: string)
    | DoOperate(seqId: SeqId)
    | DoCancel(seqId: SeqId)
    | DoAck(seqId: SeqId, success: bool, reason: string)
    | LinkChanged(up: bool)
    | ArmedTimerFires
    | FlappingTimerFires
    | ExecTimerFires

  /** A timer fires only while it runs. */
  predicate Enabled(m: Machine, e: Event) {
    match e
    case ArmedTimerFires => m.armedTimer.Some?
    case FlappingTimerFires => m.flapTimer
    case ExecTimerFires => m.execTimer
    case _ => true
  }

  function Do(c: Context, e: Event, now: int): Outcome {
    match e
    case DoSelect(req, operator) => Select(c, req, operator, now)
    case DoOperate(seqId) => Operate(c, seqId)
    case DoCancel(seqId) => Cancel(c, seqId)
    case DoAck(seqId, success, reason) => Ack(c, seqId, success, reason)
    case LinkChanged(up) => Link(c, up)
    case ArmedTimerFires => ArmedTimeout(c)
    case FlappingTimerFires => FlappingTimeout(c)
    case ExecTimerFires => ExecutingTimeout(c)
  }

  // ---- many machines, one lock ----

  datatype Note =
    | Accepted(i: nat, seqId: SeqId, command: Command)   // a Select armed
    | Emitted(i: nat, seqId: SeqId, command: Command)    // the command went out
    | Ended(i: nat, seqId: SeqId)                        // cancelled, timed out or aborted while armed

  datatype World = World(machines: seq<Machine>, buckets: Buckets, counter: nat, log: seq<Note>)

  /** What an event on machine `i` adds to the history. */
  function Notes(i: nat, before: Machine, e: Event, o: Outcome): seq<Note> {
    if before.phase != Armed && o.c.m.phase == Armed then [Accepted(i, o.c.m.seqId, o.c.m.pending)]
    else if CommandReady(before.pending) in o.signals then [Emitted(i, before.seqId, before.pending)]
    else if before.phase == Armed && o.c.m.phase == Idle then [Ended(i, before.seqId)]
    else []
  }

  function Step(w: World, i: nat, e: Event, now: int): World
    requires i < |w.machines|
  {
    if !Enabled(w.machines[i], e) then w
    else
      var o := Do(Context(w.machines[i], w.buckets, w.counter), e, now);
      World(w.machines[i := o.c.m], o.c.buckets, o.c.counter, w.log + Notes(i, w.machines[i], e, o))
  }

  datatype Input = Input(i: nat, event: Event, now: int)

  function Start(guarded: seq<bool>): World {
    World(seq(|guarded|, i requires 0 <= i < |guarded| => NewMachine(guarded[i])), map[], 0, [])
  }

  ghost predicate Addressed(n: nat, inputs: seq<Input>) {
    forall k :: 0 <= k < |inputs| ==> inputs[k].i < n
  }

  function Run(w: World, inputs: seq<Input>): (w': World)
    requires Addressed(|w.machines|, inputs)
    ensures |w'.machines| == |w.machines|
  {
    if inputs == [] then w
    else
      var last := inputs[|inputs| - 1];
      Step(Run(w, inputs[..|inputs| - 1]), last.i, last.event, last.now)
  }

  // ---- the invariant ----

  function PendingKey(m: Machine): Key { Key(m.pending.link, m.pending.slave, m.pending.register) }

  /** A machine at rest: Idle, Armed with its timer and its lock, or Executed with its timer. */
  ghost predicate MachineOk(m: Machine, b: Buckets, counter: nat) {
    && m.phase in {Idle, Armed, Executed}
    && (m.armedTimer.Some? <==> m.phase == Armed)
    && (m.execTimer <==> m.phase == Executed)
    && (m.seqId == Empty || (m.seqId.Sbo? && m.seqId.n < counter))
    && (m.phase == Idle ==> m.seqId == Empty && m.held.None?)
    && (m.phase == Armed ==>
          && m.guarded && m.seqId.Sbo? && m.held == Some(PendingKey(m))
          && PendingKey(m) in b && b[PendingKey(m)].seqId == m.seqId)
  }

  ghost predicate OwnedBy(machines: seq<Machine>, b: Buckets, k: Key, j: nat) {
    j < |machines| && machines[j].phase == Armed && machines[j].held == Some(k)
    && k in b && machines[j].seqId == b[k].seqId
  }

  /** Every taken bucket belongs to an armed machine or to a rejected probe. */
  ghost predicate BucketOk(machines: seq<Machine>, b: Buckets, counter: nat, k: Key)
    requires k in b
  {
    (b[k].seqId.Rejected? && b[k].seqId.n < counter) || exists j :: OwnedBy(machines, b, k, j)
  }

  ghost predicate IdsApart(machines: seq<Machine>) {
    forall i, j :: 0 <= i < j < |machines| && machines[i].seqId != Empty ==> machines[i].seqId != machines[j].seqId
  }

  ghost predicate Inv(w: World) {
    && (forall i :: 0 <= i < |w.machines| ==> MachineOk(w.machines[i], w.buckets, w.counter))
    && IdsApart(w.machines)
    && (forall k :: k in w.buckets ==> BucketOk(w.machines, w.buckets, w.counter, k))
  }

  /** The ways a step can change machine `i` and the lock. */
  ghost predicate Arms(m: Machine, m': Machine, w: World, b': Buckets, counter': nat) {
    && m.phase == Idle && m'.phase == Armed && m'.seqId == Sbo(w.counter) && counter' == w.counter + 1
    && m'.held == Some(PendingKey(m')) && PendingKey(m') !in w.buckets
    && (exists o :: b' == w.buckets[PendingKey(m') := o] && o.seqId == m'.seqId)
    && MachineOk(m', b', counter')
  }

  ghost predicate Disarms(m: Machine, m': Machine, w: World, b': Buckets, counter': nat) {
    && m.phase == Armed && m'.phase != Armed && m.held.Some? && m.held.value in w.buckets
    && b' == w.buckets - {m.held.value} && counter' == w.counter
    && (m'.seqId == m.seqId || m'.seqId == Empty)
    && MachineOk(m', b', counter')
  }

  ghost predicate StaysOff(m: Machine, m': Machine, w: World, b': Buckets, counter': nat) {
    && m.phase != Armed && m'.phase != Armed && b' == w.buckets && counter' >= w.counter
    && (m'.seqId == m.seqId || m'.seqId == Empty)
    && MachineOk(m', b', counter')
  }

  ghost predicate StaysArmed(m: Machine, m': Machine, w: World, b': Buckets, counter': nat) {
    && m.phase == Armed && m'.phase == Armed && m'.seqId == m.seqId && m'.held == m.held
    && b' == w.buckets && counter' == w.counter && MachineOk(m', b', counter')
  }

  ghost predicate Probes(m: Machine, m': Machine, w: World, b': Buckets, counter': nat) {
    && m' == m && counter' == w.counter + 1
    && (b' == w.buckets
        || exists k, o :: k !in w.buckets && b' == w.buckets[k := o] && o.seqId == Rejected(w.counter))
  }

  lemma StepShape(w: World, i: nat, e: Event, now: int)
    requires Inv(w) && i < |w.machines| && Enabled(w.machines[i], e)
    ensures var m := w.machines[i];
      var c := Do(Context(m, w.buckets, w.counter), e, now).c;
      || Arms(m, c.m, w, c.buckets, c.counter) || Disarms(m, c.m, w, c.buckets, c.counter)
      || StaysOff(m, c.m, w, c.buckets, c.counter) || StaysArmed(m, c.m, w, c.buckets, c.counter)
      || Probes(m, c.m, w, c.buckets, c.counter)
  {
    assert MachineOk(w.machines[i], w.buckets, w.counter);
  }

  // ---- each shape keeps the invariant ----

  /** A bucket somebody else owns stays owned. */
  lemma {:induction false} StillOwned(machines: seq<Machine>, b: Buckets, b': Buckets, i: nat, m': Machine, k: Key,
                                      j: nat)
    requires i < |machines| && OwnedBy(machines, b, k, j) && j != i
    requires k in b' && b'[k] == b[k]
    ensures OwnedBy(machines[i := m'], b', k, j)
  {
  }

  /** The other machines are untouched as long as their buckets are. */
  lemma {:induction false} OthersOk(w: World, i: nat, j: nat, b': Buckets, counter': nat)
    requires Inv(w) && i < |w.machines| && j < |w.machines| && i != j && counter' >= w.counter
    requires w.machines[j].phase == Armed ==>
      var k := PendingKey(w.machines[j]); k in b' && k in w.buckets && b'[k] == w.buckets[k]
    ensures MachineOk(w.machines[j], b', counter')
  {
    assert MachineOk(w.machines[j], w.buckets, w.counter);
  }

  lemma {:induction false} IdsStayApart(w: World, i: nat, m': Machine)
    requires Inv(w) && i < |w.machines|
    requires m'.seqId == w.machines[i].seqId || m'.seqId == Empty || m'.seqId == Sbo(w.counter)
    ensures IdsApart(w.machines[i := m'])
  {
    forall j | 0 <= j < |w.machines| ensures w.machines[j].seqId != Sbo(w.counter) {
      assert MachineOk(w.machines[j], w.buckets, w.counter);
    }
  }

  lemma {:induction false} ArmsKeeps(w: World, i: nat, m': Machine, b': Buckets, counter': nat, log': seq<Note>)
    requires Inv(w) && i < |w.machines| && Arms(w.machines[i], m', w, b', counter')
    ensures Inv(World(w.machines[i := m'], b', counter', log'))
  {
    var ms := w.machines[i := m'];
    forall j | 0 <= j < |ms| ensures MachineOk(ms[j], b', counter') {
      if j != i {
        assert MachineOk(w.machines[j], w.buckets, w.counter);
        OthersOk(w, i, j, b', counter');
      }
    }
    IdsStayApart(w, i, m');
    forall k | k in b' ensures BucketOk(ms, b', counter', k) {
      if k == PendingKey(m') {
        assert OwnedBy(ms, b', k, i);
      } else {
        assert BucketOk(w.machines, w.buckets, w.counter, k);
        if !w.buckets[k].seqId.Rejected? {
          var j :| OwnedBy(w.machines, w.buckets, k, j);
          StillOwned(w.machines, w.buckets, b', i, m', k, j);
        }
      }
    }
  }

  lemma {:induction false} DisarmsKeeps(w: World, i: nat, m': Machine, b': Buckets, counter': nat, log': seq<Note>)
    requires Inv(w) && i < |w.machines| && Disarms(w.machines[i], m', w, b', counter')
    ensures Inv(World(w.machines[i := m'], b', counter', log'))
  {
    var ms, m := w.machines[i := m'], w.machines[i];
    assert MachineOk(m, w.buckets, w.counter);
    forall j | 0 <= j < |ms| ensures MachineOk(ms[j], b', counter') {
      if j != i {
        assert MachineOk(w.machines[j], w.buckets, w.counter);
        if w.machines[j].phase == Armed {
          assert PendingKey(w.machines[j]) != m.held.value;
        }
        OthersOk(w, i, j, b', counter');
      }
    }
    IdsStayApart(w, i, m');
    forall k | k in b' ensures BucketOk(ms, b', counter', k) {
      assert BucketOk(w.machines, w.buckets, w.counter, k);
      if !w.buckets[k].seqId.Rejected? {
        var j :| OwnedBy(w.machines, w.buckets, k, j);
        StillOwned(w.machines, w.buckets, b', i, m', k, j);
      }
    }
  }

  lemma {:induction false} StaysKeeps(w: World, i: nat, m': Machine, b': Buckets, counter': nat, log': seq<Note>)
    requires Inv(w) && i < |w.machines|
    requires StaysOff(w.machines[i], m', w, b', counter') || StaysArmed(w.machines[i], m', w, b', counter')
    ensures Inv(World(w.machines[i := m'], b', counter', log'))
  {
    var ms, m := w.machines[i := m'], w.machines[i];
    forall j | 0 <= j < |ms| ensures MachineOk(ms[j], b', counter') {
      if j != i {
        assert MachineOk(w.machines[j], w.buckets, w.counter);
        OthersOk(w, i, j, b', counter');
      }
    }
    IdsStayApart(w, i, m');
    forall k | k in b' ensures BucketOk(ms, b', counter', k) {
      assert BucketOk(w.machines, w.buckets, w.counter, k);
      if !w.buckets[k].seqId.Rejected? {
        var j :| OwnedBy(w.machines, w.buckets, k, j);
        if j == i {
          assert OwnedBy(ms, b', k, i);
        } else {
          StillOwned(w.machines, w.buckets, b', i, m', k, j);
        }
      }
    }
  }

  lemma {:induction false} ProbesKeeps(w: World, i: nat, m': Machine, b': Buckets, counter': nat, log': seq<Note>)
    requires Inv(w) && i < |w.machines| && Probes(w.machines[i], m', w, b', counter')
    ensures Inv(World(w.machines[i := m'], b', counter', log'))
  {
    var ms := w.machines[i := m'];
    assert ms == w.machines;
    forall j | 0 <= j < |ms| ensures MachineOk(ms[j], b', counter') {
      assert MachineOk(w.machines[j], w.buckets, w.counter);
    }
    forall k | k in b' ensures BucketOk(ms, b', counter', k) {
      if k in w.buckets {
        assert BucketOk(w.machines, w.buckets, w.counter, k);
        if !w.buckets[k].seqId.Rejected? {
          var j :| OwnedBy(w.machines, w.buckets, k, j);
          assert OwnedBy(ms, b', k, j);
        }
      }
    }
  }

  lemma {:induction false} StepKeepsInv(w: World, i: nat, e: Event, now: int)
    requires Inv(w) && i < |w.machines|
    ensures Inv(Step(w, i, e, now))
  {
    if Enabled(w.machines[i], e) {
      StepShape(w, i, e, now);
      var m := w.machines[i];
      var o := Do(Context(m, w.buckets, w.counter), e, now);
      var log := w.log + Notes(i, m, e, o);
      hide Do;
      hide Inv;
      if Arms(m, o.c.m, w, o.c.buckets, o.c.counter) {
        ArmsKeeps(w, i, o.c.m, o.c.buckets, o.c.counter, log);
      } else if Disarms(m, o.c.m, w, o.c.buckets, o.c.counter) {
        DisarmsKeeps(w, i, o.c.m, o.c.buckets, o.c.counter, log);
      } else if Probes(m, o.c.m, w, o.c.buckets, o.c.counter) {
        ProbesKeeps(w, i, o.c.m, o.c.buckets, o.c.counter, log);
      } else {
        StaysKeeps(w, i, o.c.m, o.c.buckets, o.c.counter, log);
      }
    }
  }

  lemma {:induction false} ReachableInv(guarded: seq<bool>, inputs: seq<Input>)
    requires Addressed(|guarded|, inputs)
    ensures Inv(Run(Start(guarded), inputs))
  {
    if inputs != [] {
      var last := inputs[|inputs| - 1];
      ReachableInv(guarded, inputs[..|inputs| - 1]);
      StepKeepsInv(Run(Start(guarded), inputs[..|inputs| - 1]), last.i, last.event, last.now);
    }
  }

  // ---- safety in every reachable state ----

  /** A bucket carries a machine's own sequence id exactly when that machine is armed on its key. */
  lemma LockMeansArmed(guarded: seq<bool>, inputs: seq<Input>, i: nat, k: Key)
    requires Addressed(|guarded|, inputs) && i < |guarded|
    ensures var w := Run(Start(guarded), inputs);
      var m := w.machines[i];
      (k in w.buckets && m.seqId != Empty && w.buckets[k].seqId == m.seqId)
      <==> (m.phase == Armed && m.held == Some(k))
  {
    ReachableInv(guarded, inputs);
    var w := Run(Start(guarded), inputs);
    hide Run;
    assert MachineOk(w.machines[i], w.buckets, w.counter);
    if k in w.buckets && w.machines[i].seqId != Empty && w.buckets[k].seqId == w.machines[i].seqId {
      assert BucketOk(w.machines, w.buckets, w.counter, k);
      var j :| OwnedBy(w.machines, w.buckets, k, j);
      assert j == i;
    }
  }

  /** At most one machine is armed on a device register. */
  lemma MutualExclusion(guarded: seq<bool>, inputs: seq<Input>, i: nat, j: nat)
    requires Addressed(|guarded|, inputs) && i < j < |guarded|
    ensures var w := Run(Start(guarded), inputs);
      !(w.machines[i].phase == Armed && w.machines[j].phase == Armed && w.machines[i].held == w.machines[j].held)
  {
    ReachableInv(guarded, inputs);
    var w := Run(Start(guarded), inputs);
    hide Run;
    assert MachineOk(w.machines[i], w.buckets, w.counter);
    assert MachineOk(w.machines[j], w.buckets, w.counter);
  }

  /** Timers alone bring every machine back: it is idle, or the one timer that runs returns it to idle
      and gives back its lock. */
  lemma TimersReturnToIdle(guarded: seq<bool>, inputs: seq<Input>, i: nat, now: int)
    requires Addressed(|guarded|, inputs) && i < |guarded|
    ensures var w := Run(Start(guarded), inputs);
      var m := w.machines[i];
      var e := if m.phase == Armed then ArmedTimerFires else ExecTimerFires;
      m.phase == Idle ||
      (Enabled(m, e) && Step(w, i, e, now).machines[i].phase == Idle
       && (m.phase == Armed ==> m.held.Some? && m.held.value !in Step(w, i, e, now).buckets))
  {
    ReachableInv(guarded, inputs);
    var w := Run(Start(guarded), inputs);
    if w.machines[i].phase != Idle {
      TimerStep(w, i, now);
    }
    hide Run;
    hide Step;
  }

  lemma TimerStep(w: World, i: nat, now: int)
    requires Inv(w) && i < |w.machines| && w.machines[i].phase != Idle
    ensures var m := w.machines[i];
      var e := if m.phase == Armed then ArmedTimerFires else ExecTimerFires;
      && Enabled(m, e) && Step(w, i, e, now).machines[i].phase == Idle
      && (m.phase == Armed ==> m.held.Some? && m.held.value !in Step(w, i, e, now).buckets)
  {
    assert MachineOk(w.machines[i], w.buckets, w.counter);
  }

  // ---- probes ----

  /** A Select sent to a busy machine takes the lock under a rejected id exactly when the key is free. */
  lemma BusySelectProbes(w: World, i: nat, req: SelectRequest, operator: string, now: int)
    requires i < |w.machines| && w.machines[i].phase != Idle && w.machines[i].guarded
    ensures var w' := Step(w, i, DoSelect(req, operator), now);
      && w'.machines == w.machines
      && (KeyOf(req) !in w.buckets <==> w'.buckets != w.buckets)
      && (KeyOf(req) !in w.buckets ==> KeyOf(req) in w'.buckets && w'.buckets[KeyOf(req)].seqId == Rejected(w.counter))
  {
    assert w.machines[i := w.machines[i]] == w.machines;
  }

  /** Such a lock is never given back: no step releases it, and every later Select on that key, by any
      machine, is refused. */
  lemma StrandedStep(w: World, i: nat, e: Event, now: int, k: Key)
    requires Inv(w) && i < |w.machines| && Stranded(w, k)
    ensures Stranded(Step(w, i, e, now), k) && Step(w, i, e, now).buckets[k] == w.buckets[k]
    ensures e.DoSelect? && KeyOf(e.req) == k ==> !Do(Context(w.machines[i], w.buckets, w.counter), e, now).accepted
  {
    assert MachineOk(w.machines[i], w.buckets, w.counter);
  }

  predicate Stranded(w: World, k: Key) { k in w.buckets && w.buckets[k].seqId.Rejected? }

  lemma {:induction false} RunNext(w: World, inputs: seq<Input>, last: Input)
    requires Addressed(|w.machines|, inputs) && last.i < |w.machines|
    ensures Addressed(|w.machines|, inputs + [last])
    ensures Run(w, inputs + [last]) == Step(Run(w, inputs), last.i, last.event, last.now)
  {
    assert (inputs + [last])[..|inputs|] == inputs;
    hide Step;
  }

  lemma {:induction false} StaysStranded(guarded: seq<bool>, inputs: seq<Input>, more: seq<Input>, k: Key)
    requires Addressed(|guarded|, inputs) && Addressed(|guarded|, more)
    requires Stranded(Run(Start(guarded), inputs), k)
    ensures Addressed(|guarded|, inputs + more) && Stranded(Run(Start(guarded), inputs + more), k)
    decreases |more|
  {
    if more == [] {
      assert inputs + more == inputs;
    } else {
      var front, last := more[..|more| - 1], more[|more| - 1];
      StaysStranded(guarded, inputs, front, k);
      var start := Start(guarded);
      assert last.i < |start.machines| == |guarded|;
      assert inputs + more == (inputs + front) + [last];
      hide *;
      ReachableInv(guarded, inputs + front);
      RunNext(start, inputs + front, last);
      StrandedStep(Run(start, inputs + front), last.i, last.event, last.now, k);
    }
  }

  lemma {:induction false} StrandedForEver(guarded: seq<bool>, inputs: seq<Input>, more: seq<Input>, k: Key)
    requires Addressed(|guarded|, inputs) && Addressed(|guarded|, more)
    requires Stranded(Run(Start(guarded), inputs), k)
    ensures var w' := Run(Start(guarded), inputs + more);
      Stranded(w', k)
      && forall i :: 0 <= i < |guarded| ==> !(w'.machines[i].phase == Armed && w'.machines[i].held == Some(k))
  {
    StaysStranded(guarded, inputs, more, k);
    ReachableInv(guarded, inputs + more);
    var w' := Run(Start(guarded), inputs + more);
    hide Run;
    forall i | 0 <= i < |guarded| ensures !(w'.machines[i].phase == Armed && w'.machines[i].held == Some(k)) {
      assert MachineOk(w'.machines[i], w'.buckets, w'.counter);
    }
  }

  /** A Select for the free key `k` reaches a busy machine that uses the lock. */
  predicate Strands(w: World, i: nat, e: Event, k: Key)
    requires i < |w.machines|
  {
    e.DoSelect? && KeyOf(e.req) == k && k !in w.buckets && w.machines[i].guarded && w.machines[i].phase != Idle
  }

  lemma StrandsExactly(w: World, i: nat, e: Event, now: int, k: Key)
    requires Inv(w) && i < |w.machines|
    ensures Stranded(Step(w, i, e, now), k) <==> Stranded(w, k) || Strands(w, i, e, k)
  {
    assert MachineOk(w.machines[i], w.buckets, w.counter);
  }

  ghost predicate StrandsAt(guarded: seq<bool>, inputs: seq<Input>, j: nat, k: Key)
    requires Addressed(|guarded|, inputs) && j < |inputs|
  {
    Strands(Run(Start(guarded), inputs[..j]), inputs[j].i, inputs[j].event, k)
  }

  /** Over every run a key is stranded if and only if at some point a Select for it, while it was free,
      reached a busy machine. */
  lemma {:induction false} StrandedExactly(guarded: seq<bool>, inputs: seq<Input>, k: Key)
    requires Addressed(|guarded|, inputs)
    ensures Stranded(Run(Start(guarded), inputs), k)
      <==> exists j :: 0 <= j < |inputs| && StrandsAt(guarded, inputs, j, k)
  {
    if inputs != [] {
      var front, last := inputs[..|inputs| - 1], inputs[|inputs| - 1];
      StrandedExactly(guarded, front, k);
      assert last.i < |guarded| == |Start(guarded).machines|;
      assert forall j :: 0 <= j < |front| ==> front[..j] == inputs[..j];
      ReachableInv(guarded, front);
      var w := Run(Start(guarded), front);
      StrandsExactly(w, last.i, last.event, last.now, k);
      hide Step;
      hide Stranded;
      hide Strands;
      assert Run(Start(guarded), inputs) == Step(w, last.i, last.event, last.now);
      assert forall j :: 0 <= j < |front| ==> (StrandsAt(guarded, front, j, k) <==> StrandsAt(guarded, inputs, j, k));
      assert StrandsAt(guarded, inputs, |front|, k) <==> Strands(w, last.i, last.event, k);
      hide StrandsAt;
    }
  }

  predicate ArmedOn(w: World, i: nat, k: Key) {
    i < |w.machines| && w.machines[i].phase == Armed && w.machines[i].held == Some(k)
  }

  /** In every reachable state a key is taken if and only if a machine is armed on it or it is stranded,
      never both: "a taken lock has an armed holder" holds exactly for the keys that are not stranded. */
  lemma TakenExactly(guarded: seq<bool>, inputs: seq<Input>, k: Key)
    requires Addressed(|guarded|, inputs)
    ensures var w := Run(Start(guarded), inputs);
      && (k in w.buckets <==> Stranded(w, k) || exists i :: ArmedOn(w, i, k))
      && !(Stranded(w, k) && exists i :: ArmedOn(w, i, k))
  {
    ReachableInv(guarded, inputs);
    var w := Run(Start(guarded), inputs);
    hide Run;
    forall i: nat | ArmedOn(w, i, k) ensures k in w.buckets && !Stranded(w, k) {
      assert MachineOk(w.machines[i], w.buckets, w.counter);
    }
    if k in w.buckets && !Stranded(w, k) {
      assert BucketOk(w.machines, w.buckets, w.counter, k);
      var j :| OwnedBy(w.machines, w.buckets, k, j);
      assert ArmedOn(w, j, k);
    }
  }

  /** The shortest run: one machine, selected and then selected again for another register. */
  lemma StrandingRun(a: SelectRequest, b: SelectRequest, operator: string, now: int)
    requires KeyOf(a) != KeyOf(b)
    ensures var inputs := [Input(0, DoSelect(a, operator), now), Input(0, DoSelect(b, operator), now)];
      Addressed(1, inputs) && Stranded(Run(Start([true]), inputs), KeyOf(b))
  {
    var first := Input(0, DoSelect(a, operator), now);
    var second := Input(0, DoSelect(b, operator), now);
    var start := Start([true]);
    RunNext(start, [], first);
    RunNext(start, [first], second);
    assert [] + [first] == [first] && [first] + [second] == [first, second];
    var w := Step(start, 0, first.event, now);
    assert w.machines[0].phase == Armed && w.machines[0].guarded && KeyOf(b) !in w.buckets;
  }

  // ---- which acknowledgement counts ----

  /** Sequence id of the last command that machine `i` sent out. */
  function LastEmitted(log: seq<Note>, i: nat): Option<SeqId> {
    if log == [] then None
    else
      var n := log[|log| - 1];
      if n.Emitted? && n.i == i then Some(n.seqId) else LastEmitted(log[..|log| - 1], i)
  }

  lemma {:induction false} LastEmittedJoin(log: seq<Note>, notes: seq<Note>, i: nat)
    requires |notes| <= 1
    ensures LastEmitted(log + notes, i)
         == if notes != [] && notes[0].Emitted? && notes[0].i == i then Some(notes[0].seqId) else LastEmitted(log, i)
  {
    if notes == [] {
      assert log + notes == log;
    } else {
      assert (log + notes)[..|log|] == log;
    }
  }

  /** An executed machine that has lost the sequence id of the command it sent. */
  predicate Forgetful(m: Machine) { m.phase == Executed && m.seqId == Empty }

  /** The flapping countdown ends with the link still down while the machine is executed. */
  predicate Forgets(m: Machine, e: Event) {
    e.FlappingTimerFires? && m.flapTimer && !m.linkUp && m.phase == Executed
  }

  lemma ForgetsExactly(w: World, i: nat, e: Event, now: int, j: nat)
    requires Inv(w) && i < |w.machines| && j < |w.machines|
    ensures var m, m' := w.machines[j], Step(w, i, e, now).machines[j];
      Forgetful(m') <==> m'.phase == Executed && (Forgetful(m) || (i == j && Forgets(m, e)))
  {
    assert MachineOk(w.machines[i], w.buckets, w.counter);
    assert MachineOk(w.machines[j], w.buckets, w.counter);
  }

  ghost predicate Remembers(w: World, j: nat)
    requires j < |w.machines|
  {
    var m := w.machines[j];
    m.phase == Executed && m.seqId != Empty ==> LastEmitted(w.log, j) == Some(m.seqId)
  }

  lemma {:induction false} StepRemembers(w: World, i: nat, e: Event, now: int, j: nat)
    requires Inv(w) && i < |w.machines| && j < |w.machines| && Remembers(w, j)
    ensures Remembers(Step(w, i, e, now), j)
  {
    if Enabled(w.machines[i], e) {
      var o := Do(Context(w.machines[i], w.buckets, w.counter), e, now);
      assert MachineOk(w.machines[i], w.buckets, w.counter);
      LastEmittedJoin(w.log, Notes(i, w.machines[i], e, o), j);
      hide LastEmitted;
    }
  }

  /** In every run: an acknowledgement counts if and only if the machine is executed and the id is that
      of the command it sent last, unless the link was found down after the command went out; then the
      command's own id is refused and the empty one counts. */
  lemma {:induction false} AckCounts(guarded: seq<bool>, inputs: seq<Input>, i: nat, s: SeqId, success: bool,
                                     reason: string)
    requires Addressed(|guarded|, inputs) && i < |guarded|
    ensures var w := Run(Start(guarded), inputs);
      var m := w.machines[i];
      && Remembers(w, i)
      && (Ack(Context(m, w.buckets, w.counter), s, success, reason).accepted
          <==> m.phase == Executed && (if Forgetful(m) then s == Empty else LastEmitted(w.log, i) == Some(s)))
  {
    AlwaysRemembers(guarded, inputs, i);
    hide Run;
    hide LastEmitted;
  }

  lemma {:induction false} AlwaysRemembers(guarded: seq<bool>, inputs: seq<Input>, i: nat)
    requires Addressed(|guarded|, inputs) && i < |guarded|
    ensures Remembers(Run(Start(guarded), inputs), i)
  {
    if inputs != [] {
      var front, last := inputs[..|inputs| - 1], inputs[|inputs| - 1];
      AlwaysRemembers(guarded, front, i);
      ReachableInv(guarded, front);
      var w := Run(Start(guarded), front);
      hide Inv;
      hide Remembers;
      hide Step;
      StepRemembers(w, last.i, last.event, last.now, i);
    }
  }

  ghost predicate ForgetsAt(guarded: seq<bool>, inputs: seq<Input>, i: nat, j: nat)
    requires Addressed(|guarded|, inputs) && i < |guarded| && j < |inputs|
  {
    inputs[j].i == i && Forgets(Run(Start(guarded), inputs[..j]).machines[i], inputs[j].event)
  }

  ghost predicate ExecutedSince(guarded: seq<bool>, inputs: seq<Input>, i: nat, j: nat)
    requires Addressed(|guarded|, inputs) && i < |guarded|
  {
    forall l :: j < l <= |inputs| ==> Run(Start(guarded), inputs[..l]).machines[i].phase == Executed
  }

  ghost predicate ForgotSince(guarded: seq<bool>, inputs: seq<Input>, i: nat, j: nat)
    requires Addressed(|guarded|, inputs) && i < |guarded|
  {
    j < |inputs| && ForgetsAt(guarded, inputs, i, j) && ExecutedSince(guarded, inputs, i, j)
  }

  /** A machine has lost its command's id if and only if the flapping countdown ended with the link down
      while it was executed, and it has been executed ever since. */
  lemma {:induction false} ForgetfulExactly(guarded: seq<bool>, inputs: seq<Input>, i: nat)
    requires Addressed(|guarded|, inputs) && i < |guarded|
    ensures Forgetful(Run(Start(guarded), inputs).machines[i]) <==> exists j :: ForgotSince(guarded, inputs, i, j)
  {
    if inputs != [] {
      var n := |inputs| - 1;
      var front, last := inputs[..n], inputs[n];
      ForgetfulExactly(guarded, front, i);
      ReachableInv(guarded, front);
      var w := Run(Start(guarded), front);
      ForgetsExactly(w, last.i, last.event, last.now, i);
      hide Inv;
      hide Step;
      hide Forgetful;
      var w' := Run(Start(guarded), inputs);
      assert w' == Step(w, last.i, last.event, last.now);
      hide Run;
      ForgotNext(guarded, inputs, i);
      hide *;
    }
  }

  lemma {:induction false} ForgotNext(guarded: seq<bool>, inputs: seq<Input>, i: nat)
    requires Addressed(|guarded|, inputs) && i < |guarded| && inputs != []
    ensures var n := |inputs| - 1;
      var w, w' := Run(Start(guarded), inputs[..n]), Run(Start(guarded), inputs);
      (exists j :: ForgotSince(guarded, inputs, i, j))
      <==> w'.machines[i].phase == Executed
           && ((exists j :: ForgotSince(guarded, inputs[..n], i, j))
               || (inputs[n].i == i && Forgets(w.machines[i], inputs[n].event)))
  {
    var n := |inputs| - 1;
    var front := inputs[..n];
    hide Run;
    hide Forgets;
    hide ForgetsAt;
    hide ExecutedSince;
    ForgotNow(guarded, inputs, i);
    if j: nat :| ForgotSince(guarded, inputs, i, j) {
      if j < n {
        ForgotLater(guarded, inputs, i, j);
      }
    }
    if j: nat :| ForgotSince(guarded, front, i, j) {
      ForgotLater(guarded, inputs, i, j);
    }
  }

  lemma {:induction false} ForgotLater(guarded: seq<bool>, inputs: seq<Input>, i: nat, j: nat)
    requires Addressed(|guarded|, inputs) && i < |guarded| && j + 1 < |inputs|
    ensures var front := inputs[..|inputs| - 1];
      ForgotSince(guarded, inputs, i, j)
      <==> ForgotSince(guarded, front, i, j) && Run(Start(guarded), inputs).machines[i].phase == Executed
  {
    hide Run;
    hide Forgets;
    var front := inputs[..|inputs| - 1];
    assert forall l :: 0 <= l <= |front| ==> front[..l] == inputs[..l];
    assert inputs[..|inputs|] == inputs;
  }

  lemma {:induction false} ForgotNow(guarded: seq<bool>, inputs: seq<Input>, i: nat)
    requires Addressed(|guarded|, inputs) && i < |guarded| && inputs != []
    ensures var n := |inputs| - 1;
      ForgotSince(guarded, inputs, i, n)
      <==> inputs[n].i == i && Forgets(Run(Start(guarded), inputs[..n]).machines[i], inputs[n].event)
           && Run(Start(guarded), inputs).machines[i].phase == Executed
  {
    hide Run;
    hide Forgets;
    assert inputs[..|inputs|] == inputs;
  }

  // ---- safety over whole runs ----

  ghost predicate Finishes(n: Note, s: SeqId) { !n.Accepted? && n.seqId == s }

  ghost predicate AcceptedIn(log: seq<Note>, i: nat, s: SeqId, command: Command) {
    exists p :: 0 <= p < |log| && log[p] == Accepted(i, s, command)
  }

  ghost predicate Unfinished(log: seq<Note>, s: SeqId) {
    forall p :: 0 <= p < |log| ==> !Finishes(log[p], s)
  }

  /** An emission is covered by an earlier accepted Select of the same machine, id and command, and
      nothing has been emitted or ended under that id before. */
  ghost predicate Lawful(before: seq<Note>, n: Note) {
    match n
    case Accepted(_, s, _) => Unfinished(before, s) && forall i, c :: !AcceptedIn(before, i, s, c)
    case Emitted(i, s, command) => AcceptedIn(before, i, s, command) && Unfinished(before, s)
    case Ended(_, s) => Unfinished(before, s)
  }

  ghost predicate LogInv(w: World) {
    && (forall p :: 0 <= p < |w.log| ==> w.log[p].seqId.Sbo? && w.log[p].seqId.n < w.counter)
    && H.Each(Lawful, w.log)
    && (forall i :: 0 <= i < |w.machines| && w.machines[i].phase == Armed
          ==> AcceptedIn(w.log, i, w.machines[i].seqId, w.machines[i].pending)
              && Unfinished(w.log, w.machines[i].seqId))
  }

  lemma NoteCases(w: World, i: nat, e: Event, now: int)
    requires Inv(w) && i < |w.machines| && Enabled(w.machines[i], e)
    ensures var m := w.machines[i];
      var o := Do(Context(m, w.buckets, w.counter), e, now);
      var notes := Notes(i, m, e, o);
      && o.c.counter >= w.counter
      && (|| (notes == []
              && (o.c.m.phase == Armed ==> m.phase == Armed && o.c.m.seqId == m.seqId && o.c.m.pending == m.pending))
          || (notes == [Accepted(i, Sbo(w.counter), o.c.m.pending)] && o.c.m.seqId == Sbo(w.counter)
              && o.c.counter > w.counter)
          || (notes == [Emitted(i, m.seqId, m.pending)] && m.phase == Armed && o.c.m.phase != Armed)
          || (notes == [Ended(i, m.seqId)] && m.phase == Armed && o.c.m.phase != Armed))
  {
    assert MachineOk(w.machines[i], w.buckets, w.counter);
  }

  lemma {:induction false} LogGrows(log: seq<Note>, n: Note, i: nat, s: SeqId, command: Command)
    ensures AcceptedIn(log, i, s, command) ==> AcceptedIn(log + [n], i, s, command)
    ensures n == Accepted(i, s, command) ==> AcceptedIn(log + [n], i, s, command)
    ensures Unfinished(log, s) && !Finishes(n, s) ==> Unfinished(log + [n], s)
  {
    if AcceptedIn(log, i, s, command) {
      var p :| 0 <= p < |log| && log[p] == Accepted(i, s, command);
      assert (log + [n])[p] == log[p];
    }
    assert (log + [n])[|log|] == n;
  }

  lemma {:induction false} FreshId(w: World)
    requires LogInv(w)
    ensures Unfinished(w.log, Sbo(w.counter)) && forall i, c :: !AcceptedIn(w.log, i, Sbo(w.counter), c)
  {
    forall i, c ensures !AcceptedIn(w.log, i, Sbo(w.counter), c) {
    }
  }

  /** One note, lawful and about machine `i`, keeps the history in order. */
  lemma {:induction false} NoteKeeps(w: World, i: nat, n: Note, m': Machine, b': Buckets, counter': nat)
    requires Inv(w) && LogInv(w) && i < |w.machines| && counter' >= w.counter
    requires Lawful(w.log, n) && n.seqId.Sbo? && n.seqId.n < counter'
    requires n.seqId == w.machines[i].seqId || n.seqId == Sbo(w.counter)
    requires m'.phase == Armed ==> n == Accepted(i, m'.seqId, m'.pending) && m'.seqId == Sbo(w.counter)
    ensures LogInv(World(w.machines[i := m'], b', counter', w.log + [n]))
  {
    H.Append(Lawful, w.log, n);
    FreshId(w);
    var w' := World(w.machines[i := m'], b', counter', w.log + [n]);
    forall j | 0 <= j < |w.machines| && w'.machines[j].phase == Armed
      ensures AcceptedIn(w'.log, j, w'.machines[j].seqId, w'.machines[j].pending)
      ensures Unfinished(w'.log, w'.machines[j].seqId)
    {
      var m := w'.machines[j];
      if j != i {
        assert MachineOk(m, w.buckets, w.counter);
        assert m.seqId != n.seqId;
      }
      LogGrows(w.log, n, j, m.seqId, m.pending);
    }
  }

  lemma {:induction false} SilenceKeeps(w: World, i: nat, m': Machine, b': Buckets, counter': nat)
    requires LogInv(w) && i < |w.machines| && counter' >= w.counter
    requires m'.phase == Armed ==>
      w.machines[i].phase == Armed && m'.seqId == w.machines[i].seqId && m'.pending == w.machines[i].pending
    ensures LogInv(World(w.machines[i := m'], b', counter', w.log + []))
  {
    assert w.log + [] == w.log;
  }

  lemma {:induction false} StepKeepsLog(w: World, i: nat, e: Event, now: int)
    requires Inv(w) && LogInv(w) && i < |w.machines|
    ensures LogInv(Step(w, i, e, now))
  {
    if Enabled(w.machines[i], e) {
      NoteCases(w, i, e, now);
      FreshId(w);
      var m := w.machines[i];
      assert MachineOk(m, w.buckets, w.counter);
      var o := Do(Context(m, w.buckets, w.counter), e, now);
      var notes := Notes(i, m, e, o);
      hide Do;
      hide Notes;
      if notes == [] {
        SilenceKeeps(w, i, o.c.m, o.c.buckets, o.c.counter);
      } else {
        if m.phase == Armed {
          assert AcceptedIn(w.log, i, m.seqId, m.pending) && Unfinished(w.log, m.seqId);
        }
        NoteKeeps(w, i, notes[0], o.c.m, o.c.buckets, o.c.counter);
      }
    }
  }

  /** In every run, every command that goes out carries the link, slave, register and value of an
      earlier accepted Select with its sequence id on the same machine, goes out at most once per
      Select, and never after that sequence was cancelled, timed out or aborted. */
  lemma {:induction false} CommandsLawful(guarded: seq<bool>, inputs: seq<Input>)
    requires Addressed(|guarded|, inputs)
    ensures LogInv(Run(Start(guarded), inputs))
  {
    if inputs != [] {
      var last := inputs[|inputs| - 1];
      CommandsLawful(guarded, inputs[..|inputs| - 1]);
      ReachableInv(guarded, inputs[..|inputs| - 1]);
      StepKeepsLog(Run(Start(guarded), inputs[..|inputs| - 1]), last.i, last.event, last.now);
    }
  }

  /** The same, spelled out for two notes of a run. */
  lemma EmittedOnce(guarded: seq<bool>, inputs: seq<Input>, p: nat, q: nat)
    requires Addressed(|guarded|, inputs)
    requires var log := Run(Start(guarded), inputs).log; p < q < |log| && log[q].Emitted?
    ensures var log := Run(Start(guarded), inputs).log;
      && AcceptedIn(log[..q], log[q].i, log[q].seqId, log[q].command)
      && (log[p].seqId == log[q].seqId ==> log[p] == Accepted(log[q].i, log[q].seqId, log[q].command))
  {
    CommandsLawful(guarded, inputs);
    var log := Run(Start(guarded), inputs).log;
    hide *;
    LawfulPair(log, p, q);
  }

  lemma LawfulPair(log: seq<Note>, p: nat, q: nat)
    requires H.Each(Lawful, log)
    requires p < q < |log| && log[q].Emitted?
    ensures AcceptedIn(log[..q], log[q].i, log[q].seqId, log[q].command)
    ensures log[p].seqId == log[q].seqId ==> log[p] == Accepted(log[q].i, log[q].seqId, log[q].command)
  {
    assert Lawful(log[..q], log[q]);
    var a :| 0 <= a < |log[..q]| && log[..q][a] == Accepted(log[q].i, log[q].seqId, log[q].command);
    assert log[..q][p] == log[p] && log[..q][a] == log[a];
    if log[p].seqId == log[q].seqId && a != p {
      var first, second := if a < p then a else p, if a < p then p else a;
      assert Lawful(log[..second], log[second]);
      assert log[..second][first] == log[first];
      assert log[p].Accepted?;
      assert AcceptedIn(log[..second], log[first].i, log[first].seqId, log[first].command);
    }
  }
}
