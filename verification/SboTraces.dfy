/** What goes in and what comes out of the select-before-operate machines, over whole runs: commands and
    completions traced back to the inputs that caused them. */
module SboTraces {
  import opened Bytes
  import opened SboProtocol

  function Answer(w: World, input: Input): (bool, seq<Signal>)
    requires input.i < |w.machines|
  {
    var m := w.machines[input.i];
    if !Enabled(m, input.event) then (false, [])
    else
      var o := Do(Context(m, w.buckets, w.counter), input.event, input.now);
      (o.accepted, o.signals)
  }

  /** The answer and the signals of input `k`. */
  function Response(guarded: seq<bool>, inputs: seq<Input>, k: nat): (bool, seq<Signal>)
    requires Addressed(|guarded|, inputs) && k < |inputs|
  {
    Answer(Run(Start(guarded), inputs[..k]), inputs[k])
  }

  /** The commands among the signals, in order. */
  function Commands(signals: seq<Signal>): seq<Command> {
    if signals == [] then []
    else
      var last := signals[|signals| - 1];
      Commands(signals[..|signals| - 1]) + if last.CommandReady? then [last.command] else []
  }

  /** The reported ends of commands among the signals, in order. */
  function Completions(signals: seq<Signal>): seq<Signal> {
    if signals == [] then []
    else
      var last := signals[|signals| - 1];
      Completions(signals[..|signals| - 1]) + if last.Succeeded? || last.Failed? then [last] else []
  }

  // ---- what inputs do to a machine ----

  /** Input `j` is a Select on machine `i` that was accepted under the id `s`. */
  ghost predicate Selected(guarded: seq<bool>, inputs: seq<Input>, j: nat, i: nat, s: SeqId)
    requires Addressed(|guarded|, inputs)
  {
    && j < |inputs| && inputs[j].i == i && inputs[j].event.DoSelect?
    && var req := inputs[j].event.req;
       Response(guarded, inputs, j)
       == (true, [StateChanged(Armed), ArmedAcquired(s, Key(req.link, req.slave, req.register))])
  }

  /** The link of machine `i` went down, and since then it neither came back nor was found down. */
  ghost predicate CountingDown(inputs: seq<Input>, i: nat, d: nat) {
    && d < |inputs| && inputs[d].i == i && inputs[d].event == LinkChanged(false)
    && forall l :: d < l < |inputs| && inputs[l].i == i ==>
         !inputs[l].event.LinkChanged? && !inputs[l].event.FlappingTimerFires?
  }

  /** Input `l` finds the link of its machine down at the end of the countdown. */
  ghost predicate FindsDown(inputs: seq<Input>, l: nat)
    requires l < |inputs|
  {
    inputs[l].event.FlappingTimerFires? && exists d :: CountingDown(inputs[..l], inputs[l].i, d)
  }

  /** Input `l` ends the arming of its machine under the id `s`. */
  ghost predicate EndsArming(inputs: seq<Input>, l: nat, s: SeqId)
    requires l < |inputs|
  {
    match inputs[l].event
    case DoOperate(t) => t == s
    case DoCancel(t) => t == s
    case ArmedTimerFires => true
    case FlappingTimerFires => FindsDown(inputs, l)
    case _ => false
  }

  /** Machine `i` was armed under `s` by input `j`, and nothing has ended that since. */
  ghost predicate ArmedSince(guarded: seq<bool>, inputs: seq<Input>, j: nat, i: nat, s: SeqId)
    requires Addressed(|guarded|, inputs)
  {
    && Selected(guarded, inputs, j, i, s)
    && forall l :: j < l < |inputs| && inputs[l].i == i ==> !EndsArming(inputs, l, s)
  }

  // ---- prefixes ----

  lemma {:induction false} Earlier(guarded: seq<bool>, inputs: seq<Input>, n: nat, k: nat)
    requires Addressed(|guarded|, inputs) && k < n <= |inputs|
    ensures Response(guarded, inputs[..n], k) == Response(guarded, inputs, k)
    ensures FindsDown(inputs[..n], k) <==> FindsDown(inputs, k)
  {
    assert inputs[..n][..k] == inputs[..k];
    hide Answer;
    hide Run;
  }

  lemma {:induction false} LastInput(guarded: seq<bool>, inputs: seq<Input>)
    requires Addressed(|guarded|, inputs) && inputs != []
    ensures var n := |inputs| - 1;
      var w := Run(Start(guarded), inputs[..n]);
      && Inv(w) && |w.machines| == |guarded|
      && Run(Start(guarded), inputs) == Step(w, inputs[n].i, inputs[n].event, inputs[n].now)
      && Response(guarded, inputs, n) == Answer(w, inputs[n])
  {
    ReachableInv(guarded, inputs[..|inputs| - 1]);
  }

  // ---- the flapping countdown ----

  lemma {:induction false} CountdownStep(w: World, input: Input, i: nat)
    requires Inv(w) && input.i < |w.machines| && i < |w.machines|
    requires w.machines[i].flapTimer ==> !w.machines[i].linkUp
    ensures var m, m' := w.machines[i], Step(w, input.i, input.event, input.now).machines[i];
      && (m'.flapTimer ==> !m'.linkUp)
      && (m'.flapTimer <==>
            if input.i != i then m.flapTimer
            else input.event == LinkChanged(false)
                 || (m.flapTimer && !input.event.LinkChanged? && !input.event.FlappingTimerFires?))
  {
    hide Notes;
  }

  /** The countdown of machine `i` runs if and only if its link went down and neither came back nor was
      found down since. */
  lemma {:induction false} CountdownExactly(guarded: seq<bool>, inputs: seq<Input>, i: nat)
    requires Addressed(|guarded|, inputs) && i < |guarded|
    ensures var m := Run(Start(guarded), inputs).machines[i];
      (m.flapTimer ==> !m.linkUp) && (m.flapTimer <==> exists d :: CountingDown(inputs, i, d))
  {
    if inputs != [] {
      var n := |inputs| - 1;
      var front := inputs[..n];
      CountdownExactly(guarded, front, i);
      LastInput(guarded, inputs);
      CountdownStep(Run(Start(guarded), front), inputs[n], i);
      hide Run;
      hide Step;
      if d: nat :| CountingDown(inputs, i, d) {
        assert d < n ==> CountingDown(front, i, d);
      }
      if d: nat :| CountingDown(front, i, d) {
        assert inputs[n].i != i || (!inputs[n].event.LinkChanged? && !inputs[n].event.FlappingTimerFires?) ==>
            CountingDown(inputs, i, d);
      }
      if inputs[n].i == i && inputs[n].event == LinkChanged(false) {
        assert CountingDown(inputs, i, n);
      }
    }
  }

  // ---- armed machines ----

  /** Machine `i` is armed as `input` asked: command, operator, countdown and lock. */
  ghost predicate ArmedAs(w: World, i: nat, input: Input, s: SeqId)
    requires i < |w.machines| && input.event.DoSelect?
  {
    var m, req := w.machines[i], input.event.req;
    var key := Key(req.link, req.slave, req.register);
    && m.phase == Armed && m.seqId == s && m.operator == input.event.operator
    && m.pending == Command(req.link, req.slave, req.register, req.value) && m.held == Some(key)
    && m.armedTimer == Some(if req.emergency then 3000 else 5000)
    && key in w.buckets && w.buckets[key] == Occupant(s, input.event.operator, input.now, 5000)
  }

  /** The input ends the arming of machine `i`, which is armed under `s`. */
  predicate Disarming(m: Machine, e: Event, s: SeqId) {
    match e
    case DoOperate(t) => t == s
    case DoCancel(t) => t == s
    case ArmedTimerFires => true
    case FlappingTimerFires => m.flapTimer
    case _ => false
  }

  lemma {:induction false} StaysArmedAs(w: World, input: Input, i: nat, cause: Input, s: SeqId)
    requires Inv(w) && input.i < |w.machines| && i < |w.machines| && cause.event.DoSelect?
    requires ArmedAs(w, i, cause, s) && (input.i == i ==> !Disarming(w.machines[i], input.event, s))
    ensures ArmedAs(Step(w, input.i, input.event, input.now), i, cause, s)
  {
    assert MachineOk(w.machines[i], w.buckets, w.counter);
    assert input.i != i ==> w.machines[input.i].seqId != s;
    var c := Context(w.machines[input.i], w.buckets, w.counter);
    if Enabled(c.m, input.event) {
      if input.i == i {
        DoKeepsArmed(c, input.event, input.now);
      } else {
        DoKeepsLock(c, input.event, input.now, KeyOf(cause.event.req));
      }
    }
    hide Do;
    hide Notes;
    hide Inv;
  }

  /** A machine that is not disarmed goes on as it is, and so does the lock, but for a probe. */
  lemma DoKeepsArmed(c: Context, e: Event, now: int)
    requires c.m.phase == Armed && Enabled(c.m, e) && !Disarming(c.m, e, c.m.seqId)
    ensures var m, m', b, b' := c.m, Do(c, e, now).c.m, c.buckets, Do(c, e, now).c.buckets;
      && m' == m.(linkUp := m'.linkUp, flapTimer := m'.flapTimer, execTimer := m'.execTimer)
      && forall key :: key in b ==> key in b' && b'[key] == b[key]
  {
  }

  /** A lock under another id than the machine's own stays. */
  lemma DoKeepsLock(c: Context, e: Event, now: int, key: Key)
    requires key in c.buckets && c.buckets[key].seqId != c.m.seqId
    ensures var b' := Do(c, e, now).c.buckets; key in b' && b'[key] == c.buckets[key]
  {
  }

  lemma {:induction false} NewlyArmed(w: World, input: Input, s: SeqId)
    requires Inv(w) && input.i < |w.machines| && input.event.DoSelect?
    requires Answer(w, input).0 && ArmedAcquired(s, KeyOf(input.event.req)) in Answer(w, input).1
    ensures ArmedAs(Step(w, input.i, input.event, input.now), input.i, input, s)
  {
  }

  /** A machine is armed after an event because it stays armed or because a Select was accepted. */
  lemma DoArms(c: Context, e: Event, now: int)
    requires Enabled(c.m, e) && Do(c, e, now).c.m.phase == Armed && (c.m.flapTimer ==> !c.m.linkUp)
    ensures var o := Do(c, e, now);
      || (c.m.phase == Armed && c.m.seqId == o.c.m.seqId && !Disarming(c.m, e, c.m.seqId))
      || (e.DoSelect? && o.accepted && o.signals == [StateChanged(Armed), ArmedAcquired(o.c.m.seqId, KeyOf(e.req))])
  {
  }

  lemma {:induction false} ArmedStep(w: World, input: Input, i: nat, s: SeqId)
    requires Inv(w) && input.i < |w.machines| && i < |w.machines|
    requires w.machines[i].flapTimer ==> !w.machines[i].linkUp
    requires var m' := Step(w, input.i, input.event, input.now).machines[i]; m'.phase == Armed && m'.seqId == s
    ensures var m := w.machines[i];
      || (m.phase == Armed && m.seqId == s && (input.i == i ==> !Disarming(m, input.event, s)))
      || (input.i == i && input.event.DoSelect?
          && Answer(w, input) == (true, [StateChanged(Armed), ArmedAcquired(s, KeyOf(input.event.req))]))
  {
    if input.i == i && Enabled(w.machines[i], input.event) {
      DoArms(Context(w.machines[i], w.buckets, w.counter), input.event, input.now);
    }
    hide Do;
    hide Notes;
    hide Inv;
  }

  lemma {:induction false} SinceMeansArmed(guarded: seq<bool>, inputs: seq<Input>, j: nat, i: nat, s: SeqId)
    requires Addressed(|guarded|, inputs) && i < |guarded| && ArmedSince(guarded, inputs, j, i, s)
    ensures ArmedAs(Run(Start(guarded), inputs), i, inputs[j], s)
  {
    var n := |inputs| - 1;
    var front, last := inputs[..n], inputs[n];
    LastInput(guarded, inputs);
    CountdownExactly(guarded, front, i);
    var w := Run(Start(guarded), front);
    hide Run;
    if j == n {
      hide ArmedSince;
      NewlyArmed(w, last, s);
    } else {
      ArmedBefore(guarded, inputs, j, i, s);
      hide ArmedSince;
      SinceMeansArmed(guarded, front, j, i, s);
      StaysArmedAs(w, last, i, inputs[j], s);
    }
    hide Step;
    hide ArmedAs;
  }

  lemma {:induction false} ArmedMeansSince(guarded: seq<bool>, inputs: seq<Input>, i: nat, s: SeqId) returns (j: nat)
    requires Addressed(|guarded|, inputs) && i < |guarded|
    requires var m := Run(Start(guarded), inputs).machines[i]; m.phase == Armed && m.seqId == s
    ensures ArmedSince(guarded, inputs, j, i, s)
  {
    assert inputs != [];
    var n := |inputs| - 1;
    var front, last := inputs[..n], inputs[n];
    LastInput(guarded, inputs);
    CountdownExactly(guarded, front, i);
    var w := Run(Start(guarded), front);
    ArmedStep(w, last, i, s);
    hide Step;
    if last.i == i && last.event.DoSelect? && Answer(w, last).0 {
      j := n;
    } else {
      j := ArmedMeansSince(guarded, front, i, s);
      ArmedStill(guarded, inputs, j, i, s);
    }
    hide Run;
  }

  /** In every run, for every machine and id: the machine is armed under the id if and only if some Select
      on it was accepted under that id and since then it was neither operated nor cancelled under it, nor
      did its countdown end, nor was its link found down. Then it holds that Select's command, operator,
      countdown and lock. */
  lemma ArmedExactly(guarded: seq<bool>, inputs: seq<Input>, i: nat, s: SeqId)
    requires Addressed(|guarded|, inputs) && i < |guarded|
    ensures var w := Run(Start(guarded), inputs);
      && (w.machines[i].phase == Armed && w.machines[i].seqId == s
          <==> exists j :: ArmedSince(guarded, inputs, j, i, s))
      && (forall j: nat :: ArmedSince(guarded, inputs, j, i, s) ==> ArmedAs(w, i, inputs[j], s))
  {
    var w := Run(Start(guarded), inputs);
    hide Run;
    hide Selected;
    if w.machines[i].phase == Armed && w.machines[i].seqId == s {
      var j := ArmedMeansSince(guarded, inputs, i, s);
    }
    forall j: nat | ArmedSince(guarded, inputs, j, i, s) ensures ArmedAs(w, i, inputs[j], s) {
      SinceMeansArmed(guarded, inputs, j, i, s);
    }
    if j: nat :| ArmedSince(guarded, inputs, j, i, s) {
      assert ArmedAs(w, i, inputs[j], s);
    }
  }

  lemma {:induction false} ArmedBefore(guarded: seq<bool>, inputs: seq<Input>, j: nat, i: nat, s: SeqId)
    requires Addressed(|guarded|, inputs) && j + 1 < |inputs|
    ensures var n := |inputs| - 1;
      ArmedSince(guarded, inputs, j, i, s)
      <==> ArmedSince(guarded, inputs[..n], j, i, s) && (inputs[n].i == i ==> !EndsArming(inputs, n, s))
  {
    var n := |inputs| - 1;
    forall l: nat | l < n ensures EndsArming(inputs[..n], l, s) <==> EndsArming(inputs, l, s) {
      Earlier(guarded, inputs, n, l);
      hide FindsDown;
    }
    Earlier(guarded, inputs, n, j);
    hide EndsArming;
    hide Response;
  }

  lemma {:induction false} ArmedStill(guarded: seq<bool>, inputs: seq<Input>, j: nat, i: nat, s: SeqId)
    requires Addressed(|guarded|, inputs) && inputs != [] && i < |guarded|
    requires ArmedSince(guarded, inputs[..|inputs| - 1], j, i, s)
    requires var n := |inputs| - 1;
      inputs[n].i == i ==> !Disarming(Run(Start(guarded), inputs[..n]).machines[i], inputs[n].event, s)
    ensures ArmedSince(guarded, inputs, j, i, s)
  {
    CountdownExactly(guarded, inputs[..|inputs| - 1], i);
    ArmedBefore(guarded, inputs, j, i, s);
    hide ArmedSince;
    hide Run;
  }

  // ---- commands ----

  /** Input `k` operates the sequence that the Select at input `j` armed. */
  ghost predicate Operates(guarded: seq<bool>, inputs: seq<Input>, j: nat, k: nat)
    requires Addressed(|guarded|, inputs)
  {
    && k < |inputs| && inputs[k].event.DoOperate?
    && ArmedSince(guarded, inputs[..k], j, inputs[k].i, inputs[k].event.seqId)
  }

  lemma CommandStep(w: World, input: Input)
    requires Inv(w) && input.i < |w.machines|
    ensures var m := w.machines[input.i];
      if input.event.DoOperate? && m.phase == Armed && m.seqId == input.event.seqId then
        Answer(w, input) == (true, [StateChanged(Executed), CommandReady(m.pending)])
      else Commands(Answer(w, input).1) == []
  {
    var m, signals := w.machines[input.i], Answer(w, input).1;
    if !(input.event.DoOperate? && m.phase == Armed && m.seqId == input.event.seqId) {
      assert forall s :: s in signals ==> !s.CommandReady?;
      hide Answer;
      NoCommands(signals);
    }
  }

  lemma {:induction false} NoCommands(signals: seq<Signal>)
    requires forall s :: s in signals ==> !s.CommandReady?
    ensures Commands(signals) == []
  {
    if signals != [] {
      NoCommands(signals[..|signals| - 1]);
    }
  }

  /** In every run an input sends a command if and only if it operates a sequence still armed, and then
      exactly one: link, slave, register and value of the Select that armed it. */
  lemma CommandsExactly(guarded: seq<bool>, inputs: seq<Input>, k: nat)
    requires Addressed(|guarded|, inputs) && k < |inputs|
    ensures (exists j :: Operates(guarded, inputs, j, k)) || Commands(Response(guarded, inputs, k).1) == []
    ensures forall j: nat :: Operates(guarded, inputs, j, k) ==>
              var req := inputs[j].event.req;
              Response(guarded, inputs, k)
              == (true, [StateChanged(Executed), CommandReady(Command(req.link, req.slave, req.register, req.value))])
  {
    var front, input := inputs[..k], inputs[k];
    ReachableInv(guarded, front);
    var w := Run(Start(guarded), front);
    CommandStep(w, input);
    hide Answer;
    hide Run;
    hide Commands;
    if input.event.DoOperate? {
      ArmedExactly(guarded, front, input.i, input.event.seqId);
      hide ArmedSince;
      if j: nat :| ArmedSince(guarded, front, j, input.i, input.event.seqId) {
        assert Operates(guarded, inputs, j, k);
      }
      forall j: nat | Operates(guarded, inputs, j, k)
        ensures j < k && ArmedAs(w, input.i, inputs[j], input.event.seqId)
      {
        SinceEarlier(guarded, front, j, input.i, input.event.seqId);
        assert front[j] == inputs[j];
      }
    }
  }

  lemma SinceEarlier(guarded: seq<bool>, inputs: seq<Input>, j: nat, i: nat, s: SeqId)
    requires Addressed(|guarded|, inputs) && ArmedSince(guarded, inputs, j, i, s)
    ensures j < |inputs| && inputs[j].event.DoSelect?
  {
    hide Response;
  }

  /** One Select gives at most one command. */
  lemma OncePerSelect(guarded: seq<bool>, inputs: seq<Input>, j: nat, k: nat, k': nat)
    requires Addressed(|guarded|, inputs)
    requires Operates(guarded, inputs, j, k) && Operates(guarded, inputs, j, k')
    ensures k == k'
  {
    if k < k' {
      OperateEnds(guarded, inputs, j, k, k');
    } else if k' < k {
      OperateEnds(guarded, inputs, j, k', k);
    }
  }

  lemma OperateEnds(guarded: seq<bool>, inputs: seq<Input>, j: nat, k: nat, k': nat)
    requires Addressed(|guarded|, inputs) && k < k' < |inputs|
    requires Operates(guarded, inputs, j, k)
    ensures !Operates(guarded, inputs, j, k')
  {
    var i, t := inputs[k].i, inputs[k].event.seqId;
    SinceEarlier(guarded, inputs[..k], j, i, t);
    Earlier(guarded, inputs, k, j);
    Earlier(guarded, inputs, k', j);
    hide Response;
    assert inputs[..k'][k] == inputs[k] && inputs[..k'][j] == inputs[j] == inputs[..k][j];
    assert EndsArming(inputs[..k'], k, t);
  }

  lemma SelectDraws(w: World, input: Input, s: SeqId)
    requires Inv(w) && input.i < |w.machines| && input.event.DoSelect?
    requires ArmedAcquired(s, KeyOf(input.event.req)) in Answer(w, input).1
    ensures s == Sbo(w.counter) && Step(w, input.i, input.event, input.now).counter == w.counter + 1
  {
  }

  lemma IdDrawn(w: World, input: Input)
    requires Inv(w) && input.i < |w.machines| && input.event.DoSelect?
    ensures forall s, key :: ArmedAcquired(s, key) in Answer(w, input).1 ==> s == Sbo(w.counter)
  {
  }

  lemma CounterGrows(w: World, input: Input)
    requires Inv(w) && input.i < |w.machines|
    ensures Step(w, input.i, input.event, input.now).counter >= w.counter
  {
    hide Notes;
  }

  lemma {:induction false} CounterMonotone(guarded: seq<bool>, inputs: seq<Input>, a: nat, b: nat)
    requires Addressed(|guarded|, inputs) && a <= b <= |inputs|
    ensures Run(Start(guarded), inputs[..a]).counter <= Run(Start(guarded), inputs[..b]).counter
  {
    if a < b {
      CounterMonotone(guarded, inputs, a, b - 1);
      assert inputs[..b][..b - 1] == inputs[..b - 1];
      LastInput(guarded, inputs[..b]);
      CounterGrows(Run(Start(guarded), inputs[..b - 1]), inputs[b - 1]);
      hide Run;
      hide Step;
    }
  }

  /** No two Selects are accepted under one id. */
  lemma IdsUnique(guarded: seq<bool>, inputs: seq<Input>, j: nat, i: nat, j': nat, i': nat, s: SeqId)
    requires Addressed(|guarded|, inputs)
    requires Selected(guarded, inputs, j, i, s) && Selected(guarded, inputs, j', i', s)
    ensures j == j'
  {
    if j < j' {
      LaterId(guarded, inputs, j, i, j', i', s);
    } else if j' < j {
      LaterId(guarded, inputs, j', i', j, i, s);
    }
  }

  lemma LaterId(guarded: seq<bool>, inputs: seq<Input>, j: nat, i: nat, j': nat, i': nat, s: SeqId)
    requires Addressed(|guarded|, inputs) && j < j'
    requires Selected(guarded, inputs, j, i, s)
    ensures !Selected(guarded, inputs, j', i', s)
  {
    assert inputs[..j + 1][..j] == inputs[..j];
    LastInput(guarded, inputs[..j + 1]);
    SelectDraws(Run(Start(guarded), inputs[..j]), inputs[j], s);
    if j' < |inputs| && inputs[j'].event.DoSelect? {
      CounterMonotone(guarded, inputs, j + 1, j');
      ReachableInv(guarded, inputs[..j']);
      IdDrawn(Run(Start(guarded), inputs[..j']), inputs[j']);
    }
    hide Run;
    hide Step;
    hide Answer;
  }

  // ---- sequences that end without a command ----

  lemma EndStep(w: World, input: Input)
    requires Inv(w) && input.i < |w.machines| && w.machines[input.i].phase == Armed
    requires Disarming(w.machines[input.i], input.event, w.machines[input.i].seqId) && !input.event.DoOperate?
    requires w.machines[input.i].flapTimer ==> !w.machines[input.i].linkUp
    ensures var m, m' := w.machines[input.i], Step(w, input.i, input.event, input.now).machines[input.i];
      && m'.phase == Idle && m.held.Some?
      && m.held.value !in Step(w, input.i, input.event, input.now).buckets
      && Answer(w, input) == (true, EndSignals(input.event))
  {
    assert MachineOk(w.machines[input.i], w.buckets, w.counter);
    hide Notes;
  }

  /** What the end of a sequence without a command signals. */
  function EndSignals(e: Event): seq<Signal> {
    if e.ArmedTimerFires? then [StateChanged(Timeout), ArmedCleared("timeout"), StateChanged(Idle)]
    else [StateChanged(Aborted), ArmedCleared(if e.DoCancel? then "user_cancel" else "link_down"), StateChanged(Idle)]
  }

  /** In every run a sequence that ends otherwise than by its command is reported as cleared, with the reason,
      and its key is free again. */
  lemma EndIsTold(guarded: seq<bool>, inputs: seq<Input>, j: nat, k: nat, s: SeqId)
    requires Addressed(|guarded|, inputs) && k < |inputs| && ArmedSince(guarded, inputs[..k], j, inputs[k].i, s)
    requires EndsArming(inputs, k, s) && !inputs[k].event.DoOperate?
    ensures Response(guarded, inputs, k) == (true, EndSignals(inputs[k].event))
    ensures j < k && inputs[j].event.DoSelect?
    ensures KeyOf(inputs[j].event.req) !in Run(Start(guarded), inputs[..k + 1]).buckets
  {
    var front, i := inputs[..k], inputs[k].i;
    assert inputs[..k + 1][..k] == front;
    LastInput(guarded, inputs[..k + 1]);
    CountdownExactly(guarded, front, i);
    ArmedExactly(guarded, front, i, s);
    SinceEarlier(guarded, front, j, i, s);
    var w := Run(Start(guarded), front);
    assert ArmedAs(w, i, front[j], s);
    hide Run;
    hide ArmedSince;
    EndStep(w, inputs[k]);
    hide Step;
    hide Answer;
  }

  // ---- completions ----

  /** Input `l` ends the execution on its machine. */
  ghost predicate EndsExecution(guarded: seq<bool>, inputs: seq<Input>, l: nat)
    requires Addressed(|guarded|, inputs) && l < |inputs|
  {
    inputs[l].event.ExecTimerFires? || (inputs[l].event.DoAck? && Response(guarded, inputs, l).0)
  }

  /** Machine `i` was operated by input `k`, and its execution has not ended since. */
  ghost predicate ExecutingSince(guarded: seq<bool>, inputs: seq<Input>, k: nat, i: nat)
    requires Addressed(|guarded|, inputs)
  {
    && k < |inputs| && inputs[k].i == i && inputs[k].event.DoOperate? && Response(guarded, inputs, k).0
    && forall l :: k < l < |inputs| && inputs[l].i == i ==> !EndsExecution(guarded, inputs, l)
  }

  ghost predicate FoundDownSince(inputs: seq<Input>, k: nat, i: nat) {
    exists l :: k < l < |inputs| && inputs[l].i == i && FindsDown(inputs, l)
  }

  /** The id under which the execution is acknowledged: the operated one, or none once the link was found
      down. */
  ghost function AwaitedId(inputs: seq<Input>, k: nat, i: nat): SeqId
    requires k < |inputs| && inputs[k].event.DoOperate?
  {
    if FoundDownSince(inputs, k, i) then Empty else inputs[k].event.seqId
  }

  lemma {:induction false} ExecutedStep(w: World, input: Input, i: nat)
    requires Inv(w) && input.i < |w.machines| && i < |w.machines|
    requires w.machines[i].flapTimer ==> !w.machines[i].linkUp
    ensures var m, m' := w.machines[i], Step(w, input.i, input.event, input.now).machines[i];
      var e := input.event;
      var starts := input.i == i && e.DoOperate? && Answer(w, input).0;
      && (m'.phase == Executed
          <==> starts || (m.phase == Executed
                          && !(input.i == i && (e.ExecTimerFires? || (e.DoAck? && Answer(w, input).0)))))
      && (starts ==> m'.seqId == e.seqId)
      && (m.phase == Executed == m'.phase ==>
            !starts && m'.seqId == if input.i == i && e.FlappingTimerFires? && m.flapTimer then Empty else m.seqId)
  {
    assert MachineOk(w.machines[i], w.buckets, w.counter);
    hide Notes;
  }

  lemma {:induction false} ExecutingBefore(guarded: seq<bool>, inputs: seq<Input>, k: nat, i: nat)
    requires Addressed(|guarded|, inputs) && k + 1 < |inputs|
    ensures var n := |inputs| - 1;
      && (ExecutingSince(guarded, inputs, k, i)
          <==> ExecutingSince(guarded, inputs[..n], k, i) && (inputs[n].i == i ==> !EndsExecution(guarded, inputs, n)))
      && (FoundDownSince(inputs, k, i)
          <==> FoundDownSince(inputs[..n], k, i) || (inputs[n].i == i && FindsDown(inputs, n)))
  {
    var n := |inputs| - 1;
    forall l: nat | l < n
      ensures EndsExecution(guarded, inputs[..n], l) <==> EndsExecution(guarded, inputs, l)
      ensures FindsDown(inputs[..n], l) <==> FindsDown(inputs, l)
    {
      Earlier(guarded, inputs, n, l);
    }
    Earlier(guarded, inputs, n, k);
    hide EndsExecution;
    hide Response;
    hide FindsDown;
  }

  lemma {:induction false} SinceMeansExecuting(guarded: seq<bool>, inputs: seq<Input>, k: nat, i: nat)
    requires Addressed(|guarded|, inputs) && i < |guarded| && ExecutingSince(guarded, inputs, k, i)
    ensures var m := Run(Start(guarded), inputs).machines[i];
      m.phase == Executed && m.seqId == AwaitedId(inputs, k, i)
  {
    var n := |inputs| - 1;
    var front, last := inputs[..n], inputs[n];
    LastInput(guarded, inputs);
    CountdownExactly(guarded, front, i);
    var w := Run(Start(guarded), front);
    ExecutedStep(w, last, i);
    hide Run;
    hide Step;
    if k < n {
      ExecutingBefore(guarded, inputs, k, i);
      hide FoundDownSince;
      SinceMeansExecuting(guarded, front, k, i);
      hide Answer;
    }
  }

  lemma {:induction false} ExecutingMeansSince(guarded: seq<bool>, inputs: seq<Input>, i: nat) returns (k: nat)
    requires Addressed(|guarded|, inputs) && i < |guarded|
    requires Run(Start(guarded), inputs).machines[i].phase == Executed
    ensures ExecutingSince(guarded, inputs, k, i)
  {
    assert inputs != [];
    var n := |inputs| - 1;
    var front, last := inputs[..n], inputs[n];
    LastInput(guarded, inputs);
    CountdownExactly(guarded, front, i);
    var w := Run(Start(guarded), front);
    ExecutedStep(w, last, i);
    hide Run;
    hide Step;
    hide Answer;
    if last.i == i && last.event.DoOperate? && Answer(w, last).0 {
      k := n;
    } else {
      k := ExecutingMeansSince(guarded, front, i);
      ExecutingBefore(guarded, inputs, k, i);
    }
  }

  /** What the device's word, or its silence, makes the machine report. */
  function Report(e: Event, awaited: SeqId): seq<Signal>
    requires e.DoAck? || e.ExecTimerFires?
  {
    if e.ExecTimerFires? then [Failed(awaited, "device_ack_timeout")]
    else if e.success then [Succeeded(awaited)]
    else [Failed(awaited, if e.reason == "" then "unknown" else e.reason)]
  }

  /** Input `l` is the acknowledgement that its machine awaits, or the end of the wait. */
  ghost predicate Concludes(guarded: seq<bool>, inputs: seq<Input>, k: nat, l: nat)
    requires Addressed(|guarded|, inputs)
  {
    && l < |inputs| && ExecutingSince(guarded, inputs[..l], k, inputs[l].i)
    && (inputs[l].event.ExecTimerFires?
        || (inputs[l].event.DoAck? && inputs[l].event.seqId == AwaitedId(inputs[..l], k, inputs[l].i)))
  }

  lemma CompletionStep(w: World, input: Input)
    requires Inv(w) && input.i < |w.machines|
    ensures var m, e := w.machines[input.i], input.event;
      if m.phase == Executed && (e.ExecTimerFires? || (e.DoAck? && e.seqId == m.seqId)) then
        Answer(w, input) == (true, Report(e, m.seqId) + [StateChanged(Idle)])
      else Completions(Answer(w, input).1) == []
  {
    assert MachineOk(w.machines[input.i], w.buckets, w.counter);
    var m, e, signals := w.machines[input.i], input.event, Answer(w, input).1;
    if m.phase == Executed && (e.ExecTimerFires? || (e.DoAck? && e.seqId == m.seqId)) {
      assert signals == Report(e, m.seqId) + [StateChanged(Idle)];
    } else {
      assert forall s :: s in signals ==> !s.Succeeded? && !s.Failed?;
      hide Answer;
      NoCompletions(signals);
    }
  }

  lemma {:induction false} NoCompletions(signals: seq<Signal>)
    requires forall s :: s in signals ==> !s.Succeeded? && !s.Failed?
    ensures Completions(signals) == []
  {
    if signals != [] {
      NoCompletions(signals[..|signals| - 1]);
    }
  }

  /** In every run an input reports the end of a command if and only if its machine still executes one and
      the input is its acknowledgement, under the id that is awaited, or the end of the wait; success is
      reported for a positive acknowledgement only. */
  lemma CompletionsExactly(guarded: seq<bool>, inputs: seq<Input>, l: nat)
    requires Addressed(|guarded|, inputs) && l < |inputs|
    ensures (exists k :: Concludes(guarded, inputs, k, l)) || Completions(Response(guarded, inputs, l).1) == []
    ensures forall k: nat :: Concludes(guarded, inputs, k, l) ==>
              Response(guarded, inputs, l)
              == (true, Report(inputs[l].event, AwaitedId(inputs[..l], k, inputs[l].i)) + [StateChanged(Idle)])
  {
    var front, input := inputs[..l], inputs[l];
    ReachableInv(guarded, front);
    var w := Run(Start(guarded), front);
    CompletionStep(w, input);
    hide Answer;
    hide Run;
    hide Completions;
    hide Report;
    forall k: nat | ExecutingSince(guarded, front, k, input.i)
      ensures k < |front| && front[k].event.DoOperate?
      ensures w.machines[input.i].phase == Executed && w.machines[input.i].seqId == AwaitedId(front, k, input.i)
    {
      SinceMeansExecuting(guarded, front, k, input.i);
    }
    hide AwaitedId;
    if w.machines[input.i].phase == Executed {
      var k := ExecutingMeansSince(guarded, front, input.i);
      hide ExecutingSince;
      assert input.event.ExecTimerFires? || (input.event.DoAck? && input.event.seqId == w.machines[input.i].seqId) ==>
          Concludes(guarded, inputs, k, l);
    }
  }

  // ---- which Selects are accepted ----

  lemma SelectStep(w: World, input: Input)
    requires Inv(w) && input.i < |w.machines| && input.event.DoSelect?
    ensures var m, key := w.machines[input.i], KeyOf(input.event.req);
      if m.guarded && m.phase == Idle && key !in w.buckets then
        Answer(w, input) == (true, [StateChanged(Armed), ArmedAcquired(Sbo(w.counter), key)])
      else Answer(w, input) == (false, [])
  {
  }

  lemma GuardStep(w: World, input: Input, i: nat)
    requires input.i < |w.machines| && i < |w.machines|
    ensures Step(w, input.i, input.event, input.now).machines[i].guarded == w.machines[i].guarded
  {
    DoKeepsGuard(Context(w.machines[input.i], w.buckets, w.counter), input.event, input.now);
    hide Do;
    hide Notes;
  }

  lemma DoKeepsGuard(c: Context, e: Event, now: int)
    ensures Do(c, e, now).c.m.guarded == c.m.guarded
  {
    hide Acquire;
    hide ReleaseHeld;
    match e {
      case DoSelect(req, operator) => assert Select(c, req, operator, now).c.m.guarded == c.m.guarded;
      case _ => hide Select;
    }
  }

  lemma {:induction false} GuardStays(guarded: seq<bool>, inputs: seq<Input>, i: nat)
    requires Addressed(|guarded|, inputs) && i < |guarded|
    ensures Run(Start(guarded), inputs).machines[i].guarded == guarded[i]
  {
    if inputs != [] {
      var n := |inputs| - 1;
      GuardStays(guarded, inputs[..n], i);
      LastInput(guarded, inputs);
      hide Run;
      GuardStep(Run(Start(guarded), inputs[..n]), inputs[n], i);
      hide Step;
    }
  }

  /** Some machine is armed on the key. */
  ghost predicate KeyHeld(guarded: seq<bool>, inputs: seq<Input>, key: Key)
    requires Addressed(|guarded|, inputs)
  {
    exists j: nat, i: nat, s :: ArmedSince(guarded, inputs, j, i, s) && KeyOf(inputs[j].event.req) == key
  }

  ghost predicate Resting(guarded: seq<bool>, inputs: seq<Input>, i: nat)
    requires Addressed(|guarded|, inputs)
  {
    (forall j, s :: !ArmedSince(guarded, inputs, j, i, s)) && forall k :: !ExecutingSince(guarded, inputs, k, i)
  }

  lemma {:induction false} RestingExactly(guarded: seq<bool>, inputs: seq<Input>, i: nat)
    requires Addressed(|guarded|, inputs) && i < |guarded|
    ensures Run(Start(guarded), inputs).machines[i].phase == Idle <==> Resting(guarded, inputs, i)
  {
    ReachableInv(guarded, inputs);
    var w := Run(Start(guarded), inputs);
    var m := w.machines[i];
    assert MachineOk(m, w.buckets, w.counter);
    hide Run;
    hide ArmedSince;
    hide ExecutingSince;
    if m.phase == Armed {
      var j := ArmedMeansSince(guarded, inputs, i, m.seqId);
    } else if m.phase == Executed {
      var k := ExecutingMeansSince(guarded, inputs, i);
    } else {
      forall j: nat, s ensures !ArmedSince(guarded, inputs, j, i, s) {
        ArmedExactly(guarded, inputs, i, s);
      }
      forall k: nat ensures !ExecutingSince(guarded, inputs, k, i) {
        NotExecuting(guarded, inputs, k, i);
      }
    }
  }

  lemma {:induction false} NotExecuting(guarded: seq<bool>, inputs: seq<Input>, k: nat, i: nat)
    requires Addressed(|guarded|, inputs) && i < |guarded|
    requires Run(Start(guarded), inputs).machines[i].phase != Executed
    ensures !ExecutingSince(guarded, inputs, k, i)
  {
    if ExecutingSince(guarded, inputs, k, i) {
      SinceMeansExecuting(guarded, inputs, k, i);
      assert false;
    }
  }

  lemma {:induction false} HeldExactly(guarded: seq<bool>, inputs: seq<Input>, key: Key)
    requires Addressed(|guarded|, inputs)
    ensures (exists i :: ArmedOn(Run(Start(guarded), inputs), i, key)) <==> KeyHeld(guarded, inputs, key)
  {
    var w := Run(Start(guarded), inputs);
    hide Run;
    hide ArmedSince;
    if i: nat :| ArmedOn(w, i, key) {
      var s := w.machines[i].seqId;
      var j := ArmedMeansSince(guarded, inputs, i, s);
      ArmedExactly(guarded, inputs, i, s);
      SinceEarlier(guarded, inputs, j, i, s);
      assert ArmedAs(w, i, inputs[j], s);
    }
    if j: nat, i: nat, s :| ArmedSince(guarded, inputs, j, i, s) && KeyOf(inputs[j].event.req) == key {
      SinceAddressed(guarded, inputs, j, i, s);
      ArmedExactly(guarded, inputs, i, s);
      SinceEarlier(guarded, inputs, j, i, s);
      assert ArmedAs(w, i, inputs[j], s);
      assert ArmedOn(w, i, key);
    }
  }

  lemma SinceAddressed(guarded: seq<bool>, inputs: seq<Input>, j: nat, i: nat, s: SeqId)
    requires Addressed(|guarded|, inputs) && ArmedSince(guarded, inputs, j, i, s)
    ensures i < |guarded|
  {
    hide Response;
  }

  /** In every run a Select is accepted if and only if its machine has a guard and is at rest, and its key
      is neither held by an armed machine nor stranded. A refused Select signals nothing. */
  lemma {:induction false} SelectExactly(guarded: seq<bool>, inputs: seq<Input>, k: nat)
    requires Addressed(|guarded|, inputs) && k < |inputs| && inputs[k].event.DoSelect?
    ensures var i, key := inputs[k].i, KeyOf(inputs[k].event.req);
      var front := inputs[..k];
      var (accepted, signals) := Response(guarded, inputs, k);
      && (accepted <==> guarded[i] && Resting(guarded, front, i) && !KeyHeld(guarded, front, key)
                        && !Stranded(Run(Start(guarded), front), key))
      && (!accepted ==> signals == [])
      && (accepted ==> exists s :: Selected(guarded, inputs, k, i, s))
  {
    var i, key, front := inputs[k].i, KeyOf(inputs[k].event.req), inputs[..k];
    ReachableInv(guarded, front);
    var w := Run(Start(guarded), front);
    SelectStep(w, inputs[k]);
    GuardStays(guarded, front, i);
    RestingExactly(guarded, front, i);
    HeldExactly(guarded, front, key);
    TakenExactly(guarded, front, key);
    hide Answer;
    hide Run;
    hide Resting;
    hide KeyHeld;
    hide Stranded;
    hide ArmedOn;
    assert Response(guarded, inputs, k).0 ==> Selected(guarded, inputs, k, i, Sbo(w.counter));
  }
}
