/** The poll driver and the pairing table together, over whole runs: which response ends which poll. */
module PollRuns {
  import opened Bytes
  import opened ModbusFrame
  import opened Planner
  import opened Polling
  import F = Framing

  /** The request that went out under an id, and its number. */
  datatype Asked = Asked(serial: nat, req: Request, link: nat)

  /** `asked` says what is registered; `own` is the number of the outstanding poll's request. The driver
      itself keeps neither. */
  datatype World = World(table: P.State, asked: map<Word, Asked>, serial: nat, pending: Pending, own: nat, next: nat)

  const START := World(P.INITIAL, map[], 0, Pending(0, 0, 0, 0, false), 0, 0)

  datatype Event =
    | Tick(scheduled: bool, taken: bool)     // the scheduler's and the channel's answers
    | Command(req: Request, link: nat)       // a write request of the control side
    | Arrives(frame: seq<Byte>)
    | Reset
    | LinkDown

  predicate Allowed(ev: Event) {
    ev.Command? ==> ev.req.transport == Tcp && SV.IsWrite(ev.req.fc)
  }

  function Put(w: World, req: Request, link: nat): (World, bool) {
    var tid := P.LowestFree(w.table.used, 1);
    var (table, frame) := P.Write(w.table, Tcp, req, link);
    if frame == [] then (w.(table := table), false)
    else
      (w.(table := table, asked := w.asked[tid := Asked(w.serial, req.(transactionId := tid), link)],
          serial := w.serial + 1),
       true)
  }

  function AfterSignal(p: Pending, s: P.Signal): Pending {
    match s
    case ResponseParsed(link, slave, resp) => AfterResponse(p, link, slave, resp)
    case FrameError(link, slave, kind) => AfterError(p, link, slave, kind)
  }

  function AfterSignals(p: Pending, signals: seq<P.Signal>): Pending {
    if signals == [] then p else AfterSignal(AfterSignals(p, signals[..|signals| - 1]), signals[|signals| - 1])
  }

  function Step(w: World, segments: seq<Segment>, ev: Event): World {
    match ev
    case Tick(scheduled, taken) =>
      if w.pending.active || segments == [] then w
      else
        var k := w.next % |segments|;
        var w1 := w.(next := w.next + 1);
        if !scheduled then w1
        else
          var (w2, written) := Put(w1, PollRequest(segments[k]), segments[k].slave);
          if written && taken then w2.(pending := PendingOf(segments, k), own := w.serial) else w2
    case Command(req, link) => Put(w, req, link).0
    case Arrives(frame) =>
      var (table, signals) := P.Route(w.table, Tcp, frame);
      w.(table := table, asked := map t | t in w.asked && t in table.inFlight :: w.asked[t],
         pending := AfterSignals(w.pending, signals))
    case Reset => w.(pending := w.pending.(active := false))
    case LinkDown => w.(table := P.INITIAL, asked := map[])
  }

  function PendingOf(segments: seq<Segment>, k: nat): Pending
    requires k < |segments|
  {
    Pending(segments[k].slave, segments[k].slave, FcForRead(segments[k].rt), k, true)
  }

  function Run(segments: seq<Segment>, events: seq<Event>): World {
    if events == [] then START else Step(Run(segments, events[..|events| - 1]), segments, events[|events| - 1])
  }

  ghost predicate AllAllowed(events: seq<Event>) {
    forall j :: 0 <= j < |events| ==> Allowed(events[j])
  }

  // ---- the invariant ----

  predicate IsPoll(a: Asked) { a.req.fc in {0x01, 0x02, 0x03, 0x04} }

  ghost predicate EntryOk(w: World, segments: seq<Segment>, t: Word)
    requires t in w.asked
  {
    var a := w.asked[t];
    && t != P.INVALID_ID && t in w.table.inFlight && w.table.inFlight[t] == P.InFlight(a.link, a.req.slave)
    && a.serial < w.serial && a.req.transactionId == t
    && (IsPoll(a) ==> a.link == a.req.slave)
    && (IsPoll(a) && w.pending.active ==> a.serial <= w.own)
    && (w.pending.active && a.serial == w.own ==>
          w.pending.segmentIndex < |segments| && a.req == PollAs(segments[w.pending.segmentIndex], t))
  }

  ghost predicate SerialsApart(asked: map<Word, Asked>) {
    forall t, u :: t in asked && u in asked && t != u ==> asked[t].serial != asked[u].serial
  }

  predicate OwnOk(w: World, segments: seq<Segment>) {
    && w.own < w.serial && w.pending.segmentIndex < |segments|
    && w.pending == PendingOf(segments, w.pending.segmentIndex)
  }

  ghost predicate Inv(w: World, segments: seq<Segment>) {
    && w.table.used == w.table.inFlight.Keys == w.asked.Keys
    && (forall t :: t in w.asked ==> EntryOk(w, segments, t))
    && SerialsApart(w.asked)
    && (w.pending.active ==> OwnOk(w, segments))
  }

  /** What a write does to the tables. */
  lemma {:induction false} PutShape(w: World, req: Request, link: nat)
    requires w.table.used == w.table.inFlight.Keys == w.asked.Keys && req.transport == Tcp
    ensures var (w', written) := Put(w, req, link);
      var tid := P.LowestFree(w.table.used, 1);
      && w'.pending == w.pending && w'.own == w.own && w'.next == w.next
      && (!written ==> w' == w)
      && (written ==>
            && tid != P.INVALID_ID && tid !in w.asked
            && w'.asked == w.asked[tid := Asked(w.serial, req.(transactionId := tid), link)]
            && w'.serial == w.serial + 1
            && w'.table.inFlight == w.table.inFlight[tid := P.InFlight(link, req.slave)]
            && w'.table.used == w'.table.inFlight.Keys == w'.asked.Keys)
  {
    hide RequestBytes;
    hide P.LowestFree;
    var tid := P.LowestFree(w.table.used, 1);
    if tid != P.INVALID_ID {
      assert tid !in w.table.used;
      assert (w.table.used + {tid}) - {tid} == w.table.used;
      assert w.table.inFlight[tid := P.InFlight(link, req.slave)] - {tid} == w.table.inFlight;
    }
  }

  /** What an arriving frame does. */
  lemma {:induction false} ArrivalShape(w: World, segments: seq<Segment>, frame: seq<Byte>)
    requires w.table.used == w.table.inFlight.Keys == w.asked.Keys
    ensures var w' := Step(w, segments, Arrives(frame));
      && w'.serial == w.serial && w'.own == w.own && w'.next == w.next
      && w'.table.used == w'.table.inFlight.Keys == w'.asked.Keys
      && match Parse(frame, Tcp)
         case None =>
           w'.asked == w.asked && w'.table == w.table && w'.pending == w.pending.(active := false)
         case Some(resp) =>
           if resp.transactionId in w.asked then
             var e := w.table.inFlight[resp.transactionId];
             && w'.asked == w.asked - {resp.transactionId}
             && w'.table.inFlight == w.table.inFlight - {resp.transactionId}
             && w'.pending == AfterResponse(w.pending, e.link, e.slave, resp)
           else w' == w
  {
    hide Parse;
    var (table, signals) := P.Route(w.table, Tcp, frame);
    if |signals| == 1 {
      assert signals == [signals[0]];
      OneSignal(w.pending, signals[0]);
    } else {
      assert signals == [signals[0], signals[1]];
      TwoSignals(w.pending, signals[0], signals[1]);
    }
    hide AfterSignals;
    if Parse(frame, Tcp).Some? && Parse(frame, Tcp).value.transactionId in w.asked {
      assert Step(w, segments, Arrives(frame)).asked == w.asked - {Parse(frame, Tcp).value.transactionId};
    } else {
      assert Step(w, segments, Arrives(frame)).asked == w.asked;
    }
  }

  lemma OneSignal(p: Pending, s: P.Signal)
    ensures AfterSignals(p, [s]) == AfterSignal(p, s)
  {
    assert [s][..0] == [];
  }

  lemma TwoSignals(p: Pending, s: P.Signal, t: P.Signal)
    ensures AfterSignals(p, [s, t]) == AfterSignal(AfterSignal(p, s), t)
  {
    OneSignal(p, s);
    assert [s, t][..1] == [s];
  }

  lemma {:induction false} PollKeeps(w: World, w': World, segments: seq<Segment>, k: nat, tid: Word, taken: bool)
    requires Inv(w, segments) && !w.pending.active && k < |segments|
    requires var seg := segments[k];
      && tid != P.INVALID_ID && tid !in w.asked
      && w'.asked == w.asked[tid := Asked(w.serial, PollAs(seg, tid), seg.slave)] && w'.serial == w.serial + 1
      && w'.table.inFlight == w.table.inFlight[tid := P.InFlight(seg.slave, seg.slave)]
      && w'.table.used == w'.table.inFlight.Keys == w'.asked.Keys
    requires if taken then w'.pending == PendingOf(segments, k) && w'.own == w.serial else !w'.pending.active
    ensures Inv(w', segments)
  {
    assert forall t :: t in w.asked ==> EntryOk(w, segments, t);
    forall t | t in w'.asked ensures EntryOk(w', segments, t) {
    }
    assert SerialsApart(w'.asked) by {
      assert forall t :: t in w.asked ==> w.asked[t].serial < w.serial;
    }
  }

  /** The next segment's request, registered. */
  function PutNext(w: World, segments: seq<Segment>): (World, bool)
    requires segments != []
  {
    var seg := segments[w.next % |segments|];
    Put(w.(next := w.next + 1), PollRequest(seg), seg.slave)
  }

  lemma {:induction false} TickKeeps(w: World, segments: seq<Segment>, scheduled: bool, taken: bool)
    requires Inv(w, segments)
    ensures Inv(Step(w, segments, Tick(scheduled, taken)), segments)
  {
    var w' := Step(w, segments, Tick(scheduled, taken));
    if w' == w {
    } else if scheduled && PutNext(w, segments).1 {
      var seg := segments[w.next % |segments|];
      PutShape(w.(next := w.next + 1), PollRequest(seg), seg.slave);
      hide Put;
      PollKeeps(w, w', segments, w.next % |segments|, P.LowestFree(w.table.used, 1), taken);
    } else {
      assert w' == w.(next := w.next + 1) by {
        if scheduled {
          var seg := segments[w.next % |segments|];
          PutShape(w.(next := w.next + 1), PollRequest(seg), seg.slave);
        }
      }
      hide *;
      NextKeeps(w, segments);
    }
  }

  lemma {:induction false} NextKeeps(w: World, segments: seq<Segment>)
    requires Inv(w, segments)
    ensures Inv(w.(next := w.next + 1), segments)
  {
    forall t | t in w.asked ensures EntryOk(w.(next := w.next + 1), segments, t) {
      assert EntryOk(w, segments, t);
    }
  }

  lemma {:induction false} CommandKeeps(w: World, segments: seq<Segment>, req: Request, link: nat)
    requires Inv(w, segments) && Allowed(Command(req, link))
    ensures Inv(Step(w, segments, Command(req, link)), segments)
  {
    var (w', written) := Put(w, req, link);
    PutShape(w, req, link);
    hide Put;
    if written {
      WrittenKeeps(w, w', segments, req, link, P.LowestFree(w.table.used, 1));
    }
  }

  lemma {:induction false} WrittenKeeps(w: World, w': World, segments: seq<Segment>, req: Request, link: nat, tid: Word)
    requires Inv(w, segments) && SV.IsWrite(req.fc) && tid != P.INVALID_ID && tid !in w.asked
    requires w'.pending == w.pending && w'.own == w.own && w'.serial == w.serial + 1
    requires w'.asked == w.asked[tid := Asked(w.serial, req.(transactionId := tid), link)]
    requires w'.table.inFlight == w.table.inFlight[tid := P.InFlight(link, req.slave)]
    requires w'.table.used == w'.table.inFlight.Keys == w'.asked.Keys
    ensures Inv(w', segments)
  {
    assert forall t :: t in w.asked ==> EntryOk(w, segments, t);
    forall t | t in w'.asked ensures EntryOk(w', segments, t) {
    }
    assert SerialsApart(w'.asked) by {
      assert forall t :: t in w.asked ==> w.asked[t].serial < w.serial;
    }
  }

  lemma {:induction false} ArrivalKeeps(w: World, segments: seq<Segment>, frame: seq<Byte>)
    requires Inv(w, segments)
    ensures Inv(Step(w, segments, Arrives(frame)), segments)
  {
    var w' := Step(w, segments, Arrives(frame));
    ArrivalShape(w, segments, frame);
    hide Step;
    hide Parse;
    forall t | t in w'.asked ensures EntryOk(w', segments, t) {
      assert EntryOk(w, segments, t);
    }
  }

  lemma {:induction false} StepKeeps(w: World, segments: seq<Segment>, ev: Event)
    requires Inv(w, segments) && Allowed(ev)
    ensures Inv(Step(w, segments, ev), segments)
  {
    match ev
    case Tick(scheduled, taken) => TickKeeps(w, segments, scheduled, taken);
    case Command(req, link) => CommandKeeps(w, segments, req, link);
    case Arrives(frame) => ArrivalKeeps(w, segments, frame);
    case Reset =>
      forall t | t in w.asked ensures EntryOk(Step(w, segments, Reset), segments, t) {
        assert EntryOk(w, segments, t);
      }
    case LinkDown =>
  }

  lemma {:induction false} RunKeeps(segments: seq<Segment>, events: seq<Event>)
    requires AllAllowed(events)
    ensures Inv(Run(segments, events), segments)
  {
    if events != [] {
      var front := events[..|events| - 1];
      RunKeeps(segments, front);
      StepKeeps(Run(segments, front), segments, events[|events| - 1]);
    }
  }

  // ---- whose response ends the poll ----

  /** A response that a slave may send: to a registered request, with its function code. */
  predicate Answers(w: World, resp: Response) {
    resp.transactionId in w.asked && BaseFc(resp.fc) == w.asked[resp.transactionId].req.fc
  }

  /** The driver takes it for the outstanding poll. */
  predicate Takes(w: World, resp: Response) {
    && resp.transactionId in w.asked
    && Matches(w.pending, w.asked[resp.transactionId].link, w.asked[resp.transactionId].req.slave, resp)
  }

  /** Every response the driver may take is the answer to the outstanding poll's own request. */
  ghost predicate TakesOwnOnly(w: World) {
    forall resp :: Answers(w, resp) && Takes(w, resp) ==> w.asked[resp.transactionId].serial == w.own
  }

  /** Another request to the same slave with the same function code is still unanswered. */
  predicate Rival(w: World, t: Word) {
    t in w.asked && w.asked[t].serial != w.own && w.asked[t].req.slave == w.pending.slave
      && w.asked[t].req.fc == w.pending.fc
  }

  /** In every run, while a poll is outstanding: the response that ends it is sure to be its own if and
      only if no earlier poll of the same slave and function code is still unanswered; and its own
      request is the one of the segment that will be sampled. */
  lemma {:induction false} TakesOwnExactly(segments: seq<Segment>, events: seq<Event>)
    requires AllAllowed(events) && Run(segments, events).pending.active
    ensures var w := Run(segments, events);
      && (TakesOwnOnly(w) <==> !exists t :: Rival(w, t))
      && (forall t :: Rival(w, t) ==> IsPoll(w.asked[t]) && w.asked[t].serial < w.own)
      && (forall t :: t in w.asked && w.asked[t].serial == w.own ==>
            w.pending.segmentIndex < |segments| && w.asked[t].req == PollAs(segments[w.pending.segmentIndex], t))
  {
    RunKeeps(segments, events);
    var w := Run(segments, events);
    hide Run;
    forall t | t in w.asked ensures EntryOk(w, segments, t) {
    }
    forall t | Rival(w, t) ensures !TakesOwnOnly(w) {
      var resp := Response(Tcp, t, w.pending.slave, w.pending.fc, false, 0, [], []);
      assert EntryOk(w, segments, t);
      assert Answers(w, resp) && Takes(w, resp);
    }
    if !TakesOwnOnly(w) {
      var resp :| Answers(w, resp) && Takes(w, resp) && w.asked[resp.transactionId].serial != w.own;
      assert Rival(w, resp.transactionId);
    }
  }

  // ---- how an earlier poll is left unanswered ----

  predicate StrayAt(w: World, t: Word, n: nat) {
    t in w.asked && w.asked[t].serial == n && IsPoll(w.asked[t]) && !(w.pending.active && w.own == n)
  }

  /** Poll `n` is unanswered and not outstanding any more. */
  ghost predicate Stray(w: World, n: nat) { exists t :: StrayAt(w, t, n) }

  predicate Registered(w: World, n: nat) {
    exists t :: t in w.asked && w.asked[t].serial == n
  }

  /** The event answers request `n` or clears the table. */
  predicate Settles(w: World, ev: Event, n: nat) {
    || ev.LinkDown?
    || (ev.Arrives? && Parse(ev.frame, Tcp).Some? && var tid := Parse(ev.frame, Tcp).value.transactionId;
        tid in w.asked && w.asked[tid].serial == n)
  }

  /** The event ends poll `n` without its answer: a reset, a malformed frame, the answer to another
      request that the driver takes for it; or the channel refuses the poll's request. */
  predicate Abandons(w: World, segments: seq<Segment>, ev: Event, n: nat) {
    if w.pending.active then
      w.own == n && Registered(w, n) &&
      match ev
      case Reset => true
      case Arrives(frame) =>
        (match Parse(frame, Tcp)
         case None => true
         case Some(resp) => Takes(w, resp) && w.asked[resp.transactionId].serial != n)
      case _ => false
    else
      ev.Tick? && segments != [] && ev.scheduled && !ev.taken && n == w.serial
      && Put(w, PollRequest(segments[w.next % |segments|]), segments[w.next % |segments|].slave).1
  }

  lemma {:induction false} StrayStep(w: World, segments: seq<Segment>, ev: Event, n: nat)
    requires Inv(w, segments) && Allowed(ev)
    ensures Stray(Step(w, segments, ev), n) <==> (Stray(w, n) && !Settles(w, ev, n)) || Abandons(w, segments, ev, n)
  {
    match ev
    case Tick(scheduled, taken) => StrayTick(w, segments, scheduled, taken, n);
    case Command(req, link) => StrayCommand(w, segments, req, link, n);
    case Arrives(frame) => StrayArrival(w, segments, frame, n);
    case Reset => StrayReset(w, segments, n);
    case LinkDown =>
  }

  lemma {:induction false} StrayReset(w: World, segments: seq<Segment>, n: nat)
    requires Inv(w, segments)
    ensures Stray(Step(w, segments, Reset), n) <==> Stray(w, n) || Abandons(w, segments, Reset, n)
  {
    var w' := Step(w, segments, Reset);
    forall t | t in w.asked ensures EntryOk(w, segments, t) && (StrayAt(w, t, n) ==> StrayAt(w', t, n)) {
    }
    if Registered(w, n) && w.pending.active && w.own == n {
      var t :| t in w.asked && w.asked[t].serial == n;
      assert EntryOk(w, segments, t) && StrayAt(w', t, n);
    }
    forall t | StrayAt(w', t, n) ensures StrayAt(w, t, n) || Abandons(w, segments, Reset, n) {
    }
  }

  lemma {:induction false} StrayPoll(w: World, w': World, segments: seq<Segment>, k: nat, tid: Word, taken: bool,
                                     n: nat)
    requires Inv(w, segments) && !w.pending.active && k < |segments| && tid !in w.asked
    requires w'.asked == w.asked[tid := Asked(w.serial, PollAs(segments[k], tid), segments[k].slave)]
    requires if taken then w'.pending.active && w'.own == w.serial else !w'.pending.active
    ensures Stray(w', n) <==> Stray(w, n) || (!taken && n == w.serial)
  {
    assert forall t :: t in w.asked ==> EntryOk(w, segments, t);
    assert forall t :: StrayAt(w, t, n) ==> StrayAt(w', t, n);
    assert forall t :: StrayAt(w', t, n) && t != tid ==> StrayAt(w, t, n);
    assert StrayAt(w', tid, n) <==> !taken && n == w.serial;
  }

  lemma {:induction false} StrayTick(w: World, segments: seq<Segment>, scheduled: bool, taken: bool, n: nat)
    requires Inv(w, segments)
    ensures Stray(Step(w, segments, Tick(scheduled, taken)), n)
      <==> Stray(w, n) || Abandons(w, segments, Tick(scheduled, taken), n)
  {
    var ev := Tick(scheduled, taken);
    var w' := Step(w, segments, ev);
    if !w.pending.active && segments != [] && scheduled {
      var seg := segments[w.next % |segments|];
      PutShape(w.(next := w.next + 1), PollRequest(seg), seg.slave);
      PutAlike(w, PollRequest(seg), seg.slave);
      hide Put;
      if Put(w, PollRequest(seg), seg.slave).1 {
        StrayPoll(w, w', segments, w.next % |segments|, P.LowestFree(w.table.used, 1), taken, n);
      } else {
        assert forall t :: StrayAt(w, t, n) <==> StrayAt(w', t, n);
      }
    } else {
      hide Put;
      assert forall t :: StrayAt(w, t, n) <==> StrayAt(w', t, n);
    }
  }

  lemma PutAlike(w: World, req: Request, link: nat)
    ensures Put(w.(next := w.next + 1), req, link).1 == Put(w, req, link).1
  {
    hide P.Write;
    hide P.LowestFree;
  }

  lemma {:induction false} StrayCommand(w: World, segments: seq<Segment>, req: Request, link: nat, n: nat)
    requires Inv(w, segments) && Allowed(Command(req, link))
    ensures Stray(Step(w, segments, Command(req, link)), n) <==> Stray(w, n)
  {
    var w' := Step(w, segments, Command(req, link));
    assert forall t :: t in w.asked ==> EntryOk(w, segments, t);
    PutShape(w, req, link);
    hide Put;
    assert forall t :: StrayAt(w, t, n) <==> StrayAt(w', t, n);
  }

  lemma {:induction false} StrayArrival(w: World, segments: seq<Segment>, frame: seq<Byte>, n: nat)
    requires Inv(w, segments)
    ensures Stray(Step(w, segments, Arrives(frame)), n)
      <==> (Stray(w, n) && !Settles(w, Arrives(frame), n)) || Abandons(w, segments, Arrives(frame), n)
  {
    var ev := Arrives(frame);
    var w' := Step(w, segments, ev);
    ArrivalShape(w, segments, frame);
    hide Step;
    hide Parse;
    forall t | t in w.asked ensures EntryOk(w, segments, t) {
    }
    forall t | StrayAt(w', t, n) ensures (StrayAt(w, t, n) && !Settles(w, ev, n)) || Abandons(w, segments, ev, n) {
      assert t in w.asked && w'.asked[t] == w.asked[t];
    }
    forall t | StrayAt(w, t, n) && !Settles(w, ev, n) ensures StrayAt(w', t, n) {
    }
    if Abandons(w, segments, ev, n) {
      var t :| t in w.asked && w.asked[t].serial == n;
      assert EntryOk(w, segments, t) && StrayAt(w', t, n);
    }
  }

  ghost predicate AbandonedAt(segments: seq<Segment>, events: seq<Event>, j: nat, n: nat) {
    && j < |events| && Abandons(Run(segments, events[..j]), segments, events[j], n)
    && forall i :: j < i < |events| ==> !Settles(Run(segments, events[..i]), events[i], n)
  }

  /** Over every run: poll `n` is left unanswered if and only if at some point it was abandoned and since
      then neither its answer came nor the link went down. */
  lemma {:induction false} StrayExactly(segments: seq<Segment>, events: seq<Event>, n: nat)
    requires AllAllowed(events)
    ensures Stray(Run(segments, events), n) <==> exists j :: AbandonedAt(segments, events, j, n)
  {
    if events != [] {
      var k := |events| - 1;
      var front, ev := events[..k], events[k];
      StrayExactly(segments, front, n);
      RunKeeps(segments, front);
      StrayStep(Run(segments, front), segments, ev, n);
      AbandonedNext(segments, events, n);
      hide *;
      RunStep(segments, events);
    }
  }

  lemma RunStep(segments: seq<Segment>, events: seq<Event>)
    requires events != []
    ensures Run(segments, events) == Step(Run(segments, events[..|events| - 1]), segments, events[|events| - 1])
  {
  }

  lemma {:induction false} AbandonedNext(segments: seq<Segment>, events: seq<Event>, n: nat)
    requires events != []
    ensures var k := |events| - 1;
      var w := Run(segments, events[..k]);
      (exists j :: AbandonedAt(segments, events, j, n))
      <==> (((exists j :: AbandonedAt(segments, events[..k], j, n)) && !Settles(w, events[k], n))
            || Abandons(w, segments, events[k], n))
  {
    hide Run;
    hide Settles;
    hide Abandons;
    var k := |events| - 1;
    var front := events[..k];
    assert forall i :: 0 <= i <= k ==> front[..i] == events[..i];
    if Abandons(Run(segments, front), segments, events[k], n) {
      assert AbandonedAt(segments, events, k, n);
    }
    if (exists j :: AbandonedAt(segments, front, j, n)) && !Settles(Run(segments, front), events[k], n) {
      var j :| AbandonedAt(segments, front, j, n);
      assert AbandonedAt(segments, events, j, n);
    }
    forall j: nat | AbandonedAt(segments, events, j, n) && j < k
      ensures AbandonedAt(segments, front, j, n) && !Settles(Run(segments, front), events[k], n)
    {
    }
  }

  /** Where nothing was ever abandoned, every poll is ended by its own answer. */
  lemma {:induction false} TakesOwnInCleanRuns(segments: seq<Segment>, events: seq<Event>)
    requires AllAllowed(events) && Run(segments, events).pending.active
    requires forall j, n :: 0 <= j < |events| ==> !Abandons(Run(segments, events[..j]), segments, events[j], n)
    ensures TakesOwnOnly(Run(segments, events))
  {
    var w := Run(segments, events);
    TakesOwnExactly(segments, events);
    hide Run;
    hide Abandons;
    hide TakesOwnOnly;
    forall t | Rival(w, t) ensures Stray(w, w.asked[t].serial) {
      assert StrayAt(w, t, w.asked[t].serial);
    }
    forall n: nat ensures !Stray(w, n) {
      StrayExactly(segments, events, n);
    }
  }

  // ---- when polling goes on ----

  /** A tick sends a request. */
  predicate Sends(w: World, segments: seq<Segment>, ev: Event) {
    && ev.Tick? && !w.pending.active && segments != [] && ev.scheduled && ev.taken
    && Put(w, PollRequest(segments[w.next % |segments|]), segments[w.next % |segments|].slave).1
  }

  /** A reset, a malformed frame, or a response that the driver takes for its poll. */
  predicate Ends(w: World, ev: Event) {
    match ev
    case Reset => true
    case Arrives(frame) => (match Parse(frame, Tcp) case None => true case Some(resp) => Takes(w, resp))
    case _ => false
  }

  lemma {:induction false} PendingStep(w: World, segments: seq<Segment>, ev: Event)
    requires Inv(w, segments) && Allowed(ev)
    ensures Step(w, segments, ev).pending.active <==> (w.pending.active && !Ends(w, ev)) || Sends(w, segments, ev)
    ensures w.pending.active && !Ends(w, ev) ==> Step(w, segments, ev).pending == w.pending
    ensures w.pending.active && ev.Tick? ==> Step(w, segments, ev) == w
  {
    match ev
    case Tick(_, _) =>
      if segments != [] {
        var seg := segments[w.next % |segments|];
        PutShape(w.(next := w.next + 1), PollRequest(seg), seg.slave);
        PutAlike(w, PollRequest(seg), seg.slave);
      }
      hide Put;
    case Command(req, link) =>
      PutShape(w, req, link);
      hide Put;
    case Arrives(frame) =>
      ArrivalShape(w, segments, frame);
      assert forall t :: t in w.asked ==> EntryOk(w, segments, t);
      hide Step;
      hide Parse;
    case _ =>
  }

  /** The poll sent by event `j` has not ended since. */
  ghost predicate OutstandingSince(segments: seq<Segment>, events: seq<Event>, j: nat) {
    && j < |events| && Sends(Run(segments, events[..j]), segments, events[j])
    && forall i :: j < i < |events| ==> !Ends(Run(segments, events[..i]), events[i])
  }

  /** Over every run a poll is outstanding if and only if some tick sent one and since then there was
      neither a response that the driver took for it, nor a malformed frame, nor a reset. Time alone and
      the loss of the link do not end it. */
  lemma {:induction false} OutstandingExactly(segments: seq<Segment>, events: seq<Event>)
    requires AllAllowed(events)
    ensures Run(segments, events).pending.active <==> exists j :: OutstandingSince(segments, events, j)
  {
    if events != [] {
      var k := |events| - 1;
      OutstandingExactly(segments, events[..k]);
      RunKeeps(segments, events[..k]);
      PendingStep(Run(segments, events[..k]), segments, events[k]);
      OutstandingNext(segments, events);
      hide *;
      RunStep(segments, events);
    }
  }

  lemma {:induction false} OutstandingNext(segments: seq<Segment>, events: seq<Event>)
    requires events != []
    ensures var k := |events| - 1;
      var w := Run(segments, events[..k]);
      (exists j :: OutstandingSince(segments, events, j))
      <==> (((exists j :: OutstandingSince(segments, events[..k], j)) && !Ends(w, events[k]))
            || Sends(w, segments, events[k]))
  {
    hide Run;
    hide Sends;
    hide Ends;
    var k := |events| - 1;
    var front := events[..k];
    assert forall i :: 0 <= i <= k ==> front[..i] == events[..i];
    if Sends(Run(segments, front), segments, events[k]) {
      assert OutstandingSince(segments, events, k);
    }
    if j: nat :| OutstandingSince(segments, front, j) && !Ends(Run(segments, front), events[k]) {
      assert OutstandingSince(segments, events, j);
    }
    if j: nat :| OutstandingSince(segments, events, j) && j < k {
      assert OutstandingSince(segments, front, j) && !Ends(Run(segments, front), events[k]);
    }
  }

  ghost predicate NotEnded(segments: seq<Segment>, events: seq<Event>, i: nat, k: nat)
    requires k <= |events|
  {
    forall j :: i <= j < k ==> !Ends(Run(segments, events[..j]), events[j])
  }

  lemma {:induction false} RunNext(segments: seq<Segment>, events: seq<Event>, k: nat)
    requires AllAllowed(events) && k < |events|
    ensures Inv(Run(segments, events[..k]), segments) && Allowed(events[k])
    ensures Run(segments, events[..k + 1]) == Step(Run(segments, events[..k]), segments, events[k])
  {
    assert events[..k + 1][..k] == events[..k];
    assert AllAllowed(events[..k]);
    RunKeeps(segments, events[..k]);
    RunStep(segments, events[..k + 1]);
    hide *;
  }

  /** Until it ends, no tick does anything: no request goes out, for this segment or for any other, and
      the rotation stands still. */
  lemma {:induction false} SilentWhileOutstanding(segments: seq<Segment>, events: seq<Event>, i: nat, k: nat)
    requires AllAllowed(events) && i <= k <= |events|
    requires Run(segments, events[..i]).pending.active && NotEnded(segments, events, i, k)
    ensures var w, w' := Run(segments, events[..i]), Run(segments, events[..k]);
      w'.pending == w.pending && w'.next == w.next
    ensures k < |events| && events[k].Tick? ==> Run(segments, events[..k + 1]) == Run(segments, events[..k])
    decreases k
  {
    if i < k {
      SilentWhileOutstanding(segments, events, i, k - 1);
      RunNext(segments, events, k - 1);
      var w := Run(segments, events[..k - 1]);
      hide Run;
      assert !Ends(w, events[k - 1]);
      hide Ends;
      PendingStep(w, segments, events[k - 1]);
      NextMoves(w, segments, events[k - 1]);
      hide Step;
    }
    if k < |events| {
      RunNext(segments, events, k);
      hide Run;
      PendingStep(Run(segments, events[..k]), segments, events[k]);
      hide Step;
    }
  }

  lemma {:induction false} NextMoves(w: World, segments: seq<Segment>, ev: Event)
    requires w.pending.active
    ensures Step(w, segments, ev).next == w.next
  {
    hide P.Write;
    hide P.Route;
  }

  // ---- a concrete run ----

  /** A frame with an unknown function code: well formed for the accumulator, refused by the parser. */
  const UNKNOWN_FUNCTION: seq<Byte> := [0, 9, 0, 0, 0, 2, 1, 0x2B]

  lemma UnknownFunctionIsMalformed()
    ensures F.Good(UNKNOWN_FUNCTION, true) && Parse(UNKNOWN_FUNCTION, Tcp) == None
  {
  }

  /** Two segments of one slave and type: the first is polled, a malformed frame ends the poll, the second
      is polled, and the first one's answer is taken for it. */
  lemma {:induction false} MalformedRun(s0: Segment, s1: Segment, resp: Response) returns (events: seq<Event>)
    requires s0.slave == s1.slave && s0.rt == s1.rt && 1 <= s0.slave <= 247 && s0.qty > 0 && s1.qty > 0
    requires resp.transactionId == 1 && resp.fc == FcForRead(s0.rt)
    ensures events == [Tick(true, true), Arrives(UNKNOWN_FUNCTION), Tick(true, true)] && AllAllowed(events)
    ensures var w := Run([s0, s1], events);
      && w.pending.active && w.pending.segmentIndex == 1 && Takes(w, resp)
      && 1 in w.asked && w.asked[1].req == PollAs(s0, 1) && Answers(w, resp) && Rival(w, 1)
  {
    events := [Tick(true, true), Arrives(UNKNOWN_FUNCTION), Tick(true, true)];
    var w := MalformedWorld(s0, s1, events);
    hide Run;
    hide PollAs;
  }

  lemma {:induction false} MalformedWorld(s0: Segment, s1: Segment, events: seq<Event>) returns (w: World)
    requires 1 <= s0.slave <= 247 && s0.qty > 0 && 1 <= s1.slave <= 247 && s1.qty > 0
    requires events == [Tick(true, true), Arrives(UNKNOWN_FUNCTION), Tick(true, true)]
    ensures w == Run([s0, s1], events)
    ensures 1 in w.asked && w.asked[1] == Asked(0, PollAs(s0, 1), s0.slave)
    ensures w.own == 1 && w.pending == PendingOf([s0, s1], 1)
  {
    var segments := [s0, s1];
    UnknownFunctionIsMalformed();
    hide Parse;
    var w1 := Polled0(s0, s1);
    var w2 := Step(w1, segments, events[1]);
    ArrivalShape(w1, segments, UNKNOWN_FUNCTION);
    Polled1(s0, s1, w2);
    w := Step(w2, segments, events[2]);
    hide Step;
    assert events[..3] == events && events[..2][..1] == events[..1] && events[..1][..0] == [];
    RunStep(segments, events[..1]);
    RunStep(segments, events[..2]);
    RunStep(segments, events);
  }

  lemma Buildable(seg: Segment, tid: Word)
    requires 1 <= seg.slave <= 247 && seg.qty > 0
    ensures RequestBytes(PollAs(seg, tid)) != []
  {
  }

  lemma {:induction false} Polled0(s0: Segment, s1: Segment) returns (w: World)
    requires 1 <= s0.slave <= 247 && s0.qty > 0
    ensures w == Step(START, [s0, s1], Tick(true, true))
    ensures w.asked == map[1 := Asked(0, PollAs(s0, 1), s0.slave)]
      && w.table == P.State(map[1 := P.InFlight(s0.slave, s0.slave)], {1})
    ensures w.serial == 1 && w.own == 0 && w.next == 1 && w.pending == PendingOf([s0, s1], 0)
  {
    w := Step(START, [s0, s1], Tick(true, true));
    assert P.LowestFree({}, 1) == 1;
    Buildable(s0, 1);
    hide RequestBytes;
    assert {} + {1} == {1};
  }

  lemma {:induction false} Polled1(s0: Segment, s1: Segment, w: World)
    requires 1 <= s1.slave <= 247 && s1.qty > 0 && !w.pending.active && w.serial == 1 && w.next == 1
    requires w.asked == map[1 := Asked(0, PollAs(s0, 1), s0.slave)]
      && w.table == P.State(map[1 := P.InFlight(s0.slave, s0.slave)], {1})
    ensures var w' := Step(w, [s0, s1], Tick(true, true));
      && w'.asked == w.asked[2 := Asked(1, PollAs(s1, 2), s1.slave)]
      && w'.own == 1 && w'.pending == PendingOf([s0, s1], 1)
  {
    assert P.LowestFree({1}, 1) == P.LowestFree({1}, 2) == 2;
    Buildable(s1, 2);
    hide RequestBytes;
  }
}
