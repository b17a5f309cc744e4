/** Transaction-id pairing of the protocol engine: the table of unanswered requests as a function of
    the engine's history. */
module Pairing {
  import opened Bytes
  import opened ModbusFrame
  import H = Histories

  datatype InFlight = InFlight(link: nat, slave: Byte)

  /** Table of unanswered TCP requests and the allocator's used ids. */
  datatype State = State(inFlight: map<Word, InFlight>, used: set<Word>)

  const INVALID_ID: Word := 0
  const INITIAL := State(map[], {})

  /** The engine emits the first three only. */
  datatype ErrorKind = Malformed | Exception | Spurious | Crc | Length | Timeout | Unsupported

  datatype Signal =
    | ResponseParsed(link: nat, slave: Byte, resp: Response)
    | FrameError(link: nat, slave: Byte, kind: ErrorKind)

  /** Lowest free id from `id` up, 0 when there is none. */
  function LowestFree(used: set<Word>, id: nat): (r: Word)
    requires 1 <= id <= 65536
    ensures r == INVALID_ID ==> forall k: Word :: id <= k ==> k in used
    ensures r != INVALID_ID ==> id <= r && r !in used && forall k: Word :: id <= k < r ==> k in used
    decreases 65536 - id
  {
    if id == 65536 then INVALID_ID
    else if id !in used then id
    else LowestFree(used, id + 1)
  }

  function Register(st: State, tid: Word, link: nat, slave: Byte): State {
    State(if tid in st.inFlight then st.inFlight else st.inFlight[tid := InFlight(link, slave)], st.used + {tid})
  }

  function Forget(st: State, tid: Word): State {
    State(st.inFlight - {tid}, st.used - {tid})
  }

  /** `writeRequest`: new table and the bytes written, none on failure. */
  function Write(st: State, transport: Transport, req: Request, link: nat): (State, seq<Byte>) {
    var tcp := transport == Tcp && req.transport == Tcp;
    var tid := if tcp then LowestFree(st.used, 1) else req.transactionId;
    if tcp && tid == INVALID_ID then (st, [])
    else
      var r := req.(transactionId := tid);
      var st1 := if tcp then Register(st, tid, link, r.slave) else st;
      var frame := RequestBytes(r);
      if frame != [] then (st1, frame)
      else if tid != INVALID_ID then (Forget(st1, tid), [])
      else (st1, [])
  }

  /** One extracted frame: parse, pair, signal. */
  function Route(st: State, transport: Transport, frame: seq<Byte>): (State, seq<Signal>) {
    match Parse(frame, transport)
    case None => (st, [FrameError(0, 0, Malformed)])
    case Some(resp) =>
      if transport == Rtu then (st, Answer(0, resp.slave, resp))
      else if resp.transactionId !in st.inFlight then (st, [FrameError(0, resp.slave, Spurious)])
      else
        var e := st.inFlight[resp.transactionId];
        (Forget(st, resp.transactionId), Answer(e.link, e.slave, resp))
  }

  function Answer(link: nat, slave: Byte, resp: Response): seq<Signal> {
    [ResponseParsed(link, slave, resp)] + if resp.isException then [FrameError(link, slave, Exception)] else []
  }

  function RouteAll(st: State, transport: Transport, frames: seq<seq<Byte>>): (State, seq<Signal>) {
    if frames == [] then (st, [])
    else
      var (st1, s1) := RouteAll(st, transport, frames[..|frames| - 1]);
      var (st2, s2) := Route(st1, transport, frames[|frames| - 1]);
      (st2, s1 + s2)
  }

  // ---- whole runs ----

  datatype Event =
    | Wrote(req: Request, link: nat)
    | Arrived(frame: seq<Byte>)
    | LinkDown

  /** What happened to transaction ids. */
  datatype Note =
    | Registered(tid: Word, link: nat, slave: Byte)
    | Delivered(tid: Word, link: nat, slave: Byte)
    | Refused(tid: Word)      // a response without an unanswered request
    | Dropped(tid: Word)      // registration withdrawn because no frame was built
    | Cleared                 // the link went down

  function Step(st: State, transport: Transport, e: Event): (State, seq<Note>) {
    match e
    case Wrote(req, link) =>
      var (st', frame) := Write(st, transport, req, link);
      var tcp := transport == Tcp && req.transport == Tcp;
      var tid := if tcp then LowestFree(st.used, 1) else req.transactionId;
      (st', (if tcp && tid != INVALID_ID then [Registered(tid, link, req.slave)] else [])
            + (if frame == [] && tid != INVALID_ID then [Dropped(tid)] else []))
    case Arrived(frame) =>
      var (st', signals) := Route(st, transport, frame);
      var resp := Parse(frame, transport);
      (st', if transport == Rtu || resp.None? then []
            else if signals[0].ResponseParsed?
            then [Delivered(resp.value.transactionId, signals[0].link, signals[0].slave)]
            else [Refused(resp.value.transactionId)])
    case LinkDown => (INITIAL, [Cleared])
  }

  function Run(transport: Transport, events: seq<Event>): (State, seq<Note>) {
    if events == [] then (INITIAL, [])
    else
      var (st, log) := Run(transport, events[..|events| - 1]);
      var (st', notes) := Step(st, transport, events[|events| - 1]);
      (st', log + notes)
  }

  predicate Concerns(n: Note, tid: Word) { n.Cleared? || n.tid == tid }

  /** The last thing that happened to `tid`, a refused response aside. */
  function LastNote(log: seq<Note>, tid: Word): Option<Note> {
    if log == [] then None
    else
      var n := log[|log| - 1];
      if Concerns(n, tid) && !n.Refused? then Some(n) else LastNote(log[..|log| - 1], tid)
  }

  /** Unanswered: the last thing that happened to the id is its registration, for this link and slave. */
  ghost predicate Unanswered(log: seq<Note>, tid: Word, link: nat, slave: Byte) {
    LastNote(log, tid) == Some(Registered(tid, link, slave))
  }

  /** The table is exactly the unanswered registrations of the log, and the allocator agrees. */
  ghost predicate Agrees(st: State, log: seq<Note>) {
    && st.used == st.inFlight.Keys && INVALID_ID !in st.inFlight
    && forall tid: Word :: match LastNote(log, tid)
         case Some(Registered(_, link, slave)) => tid in st.inFlight && st.inFlight[tid] == InFlight(link, slave)
         case _ => tid !in st.inFlight
  }

  /** What a log may say next. */
  ghost predicate Justified(log: seq<Note>, n: Note) {
    match n
    case Registered(tid, _, _) => tid != INVALID_ID && forall l, s :: !Unanswered(log, tid, l, s)
    case Delivered(tid, link, slave) => Unanswered(log, tid, link, slave)
    case Refused(tid) => forall l, s :: !Unanswered(log, tid, l, s)
    case Dropped(_) => true
    case Cleared => true
  }

  ghost predicate JustifiedLog(log: seq<Note>) {
    H.Each(Justified, log)
  }

  lemma LastNoteAppend(log: seq<Note>, n: Note, tid: Word)
    ensures LastNote(log + [n], tid) == if Concerns(n, tid) && !n.Refused? then Some(n) else LastNote(log, tid)
  {
    assert (log + [n])[..|log|] == log;
  }

  /** The state after one note. */
  function Apply(st: State, n: Note): State {
    match n
    case Registered(tid, link, slave) => State(st.inFlight[tid := InFlight(link, slave)], st.used + {tid})
    case Delivered(tid, _, _) => Forget(st, tid)
    case Refused(_) => st
    case Dropped(tid) => Forget(st, tid)
    case Cleared => INITIAL
  }

  lemma NoteKeepsAgreement(st: State, log: seq<Note>, n: Note)
    requires Agrees(st, log)
    requires n.Registered? ==> n.tid != INVALID_ID
    ensures Agrees(Apply(st, n), log + [n])
  {
    forall tid: Word ensures LastNote(log + [n], tid)
        == if Concerns(n, tid) && !n.Refused? then Some(n) else LastNote(log, tid)
    {
      LastNoteAppend(log, n, tid);
    }
  }

  lemma JustifiedByAgreement(st: State, log: seq<Note>, n: Note)
    requires Agrees(st, log)
    requires match n
      case Registered(tid, _, _) => tid != INVALID_ID && tid !in st.inFlight
      case Delivered(tid, link, slave) => tid in st.inFlight && st.inFlight[tid] == InFlight(link, slave)
      case Refused(tid) => tid !in st.inFlight
      case _ => true
    ensures Justified(log, n)
  {
    if n.Registered? || n.Delivered? || n.Refused? {
      assert match LastNote(log, n.tid)
        case Some(Registered(t, link, slave)) => n.tid in st.inFlight && st.inFlight[n.tid] == InFlight(link, slave)
        case _ => n.tid !in st.inFlight;
      LastNoteConcerns(log, n.tid);
    }
  }

  lemma {:induction false} LastNoteConcerns(log: seq<Note>, tid: Word)
    ensures LastNote(log, tid).Some? ==> Concerns(LastNote(log, tid).value, tid)
  {
    if log != [] {
      LastNoteConcerns(log[..|log| - 1], tid);
    }
  }

  lemma OneNote(st: State, log: seq<Note>, n: Note)
    requires Agrees(st, log) && JustifiedLog(log)
    requires match n
      case Registered(tid, _, _) => tid != INVALID_ID && tid !in st.inFlight
      case Delivered(tid, link, slave) => tid in st.inFlight && st.inFlight[tid] == InFlight(link, slave)
      case Refused(tid) => tid !in st.inFlight
      case _ => true
    ensures Agrees(Apply(st, n), log + [n]) && JustifiedLog(log + [n])
  {
    JustifiedByAgreement(st, log, n);
    hide Justified;
    H.Append(Justified, log, n);
    NoteKeepsAgreement(st, log, n);
  }

  lemma StepKeepsAgreement(st: State, transport: Transport, e: Event, log: seq<Note>)
    requires Agrees(st, log) && JustifiedLog(log)
    ensures var (st', notes) := Step(st, transport, e); Agrees(st', log + notes) && JustifiedLog(log + notes)
  {
    hide RequestBytes;
    hide Parse;
    hide LastNote;
    hide JustifiedLog;
    var (st', notes) := Step(st, transport, e);
    var s, l := st, log;
    if |notes| > 0 {
      OneNote(s, l, notes[0]);
      s, l := Apply(s, notes[0]), l + [notes[0]];
    }
    if |notes| > 1 {
      OneNote(s, l, notes[1]);
      s, l := Apply(s, notes[1]), l + [notes[1]];
    }
    assert s == st';
    assert l == log + notes;
  }

  /** In every run: an id is allocated exactly while it is in the table, the table holds exactly the
      registered and not yet answered, withdrawn or cleared requests, and every response is
      delivered with the link and slave of the unanswered request that holds its id. */
  lemma {:induction false} RunAgrees(transport: Transport, events: seq<Event>)
    ensures var (st, log) := Run(transport, events); Agrees(st, log) && JustifiedLog(log)
  {
    if events != [] {
      RunAgrees(transport, events[..|events| - 1]);
      var (st, log) := Run(transport, events[..|events| - 1]);
      StepKeepsAgreement(st, transport, events[|events| - 1], log);
    }
  }

  /** Between two deliveries of one id it was registered again: no request is answered twice. */
  lemma AnsweredAtMostOnce(transport: Transport, events: seq<Event>, i: nat, j: nat)
    requires var log := Run(transport, events).1;
      i < j < |log| && log[i].Delivered? && log[j].Delivered? && log[i].tid == log[j].tid
    ensures var log := Run(transport, events).1;
      exists k :: i < k < j && log[k] == Registered(log[j].tid, log[j].link, log[j].slave)
  {
    RunAgrees(transport, events);
    var log := Run(transport, events).1;
    assert Justified(log[..j], log[j]);
    var k := LastNoteIndex(log[..j], log[j].tid);
    assert log[..j][i] == log[i];
  }

  /** After the link went down every response is refused until its id has been registered again. */
  lemma NothingSurvivesLinkDown(transport: Transport, events: seq<Event>, i: nat, j: nat)
    requires var log := Run(transport, events).1; i < j < |log| && log[i].Cleared? && log[j].Delivered?
    ensures var log := Run(transport, events).1;
      exists k :: i < k < j && log[k] == Registered(log[j].tid, log[j].link, log[j].slave)
  {
    RunAgrees(transport, events);
    var log := Run(transport, events).1;
    assert Justified(log[..j], log[j]);
    var k := LastNoteIndex(log[..j], log[j].tid);
    assert log[..j][i] == log[i];
  }

  /** A registration stands until its id is answered, withdrawn or cleared: in particular for good, on
      one connection, when the channel refused the frame and no answer can come. */
  lemma HeldUntilAnswered(transport: Transport, events: seq<Event>, i: nat)
    requires var log := Run(transport, events).1;
      i < |log| && log[i].Registered? && forall j :: i < j < |log| ==> !Concerns(log[j], log[i].tid) || log[j].Refused?
    ensures var (st, log) := Run(transport, events);
      var n := log[i];
      n.tid in st.used && n.tid in st.inFlight && st.inFlight[n.tid] == InFlight(n.link, n.slave)
  {
    RunAgrees(transport, events);
    var (st, log) := Run(transport, events);
    LastNoteAt(log, i);
    hide Run;
    hide LastNote;
    hide JustifiedLog;
  }

  lemma {:induction false} LastNoteAt(log: seq<Note>, i: nat)
    requires i < |log| && log[i].Registered?
    requires forall j :: i < j < |log| ==> !Concerns(log[j], log[i].tid) || log[j].Refused?
    ensures LastNote(log, log[i].tid) == Some(log[i])
  {
    if i < |log| - 1 {
      var front := log[..|log| - 1];
      assert forall j :: 0 <= j < |front| ==> front[j] == log[j];
      LastNoteAt(front, i);
    }
  }

  lemma {:induction false} LastNoteIndex(log: seq<Note>, tid: Word) returns (k: nat)
    requires LastNote(log, tid).Some?
    ensures k < |log| && log[k] == LastNote(log, tid).value
    ensures forall i :: k < i < |log| ==> !Concerns(log[i], tid) || log[i].Refused?
  {
    var n := log[|log| - 1];
    if Concerns(n, tid) && !n.Refused? {
      k := |log| - 1;
    } else {
      k := LastNoteIndex(log[..|log| - 1], tid);
    }
  }

  // ---- what a frame makes the engine signal ----

  /** In every run an arriving frame is signalled as follows. Over TCP a reply to an unanswered request is
      handed on with that request's link and slave, any other as a spurious one; on a serial line every
      reply is handed on with its own slave. An exception is reported after it, and what does not parse is
      malformed. */
  lemma RouteTells(transport: Transport, events: seq<Event>, frame: seq<Byte>)
    ensures var (st, log) := Run(transport, events);
      var signals := Route(st, transport, frame).1;
      match Parse(frame, transport)
      case None => signals == [FrameError(0, 0, Malformed)]
      case Some(resp) =>
        var told := (link: nat, slave: Byte) =>
          if resp.isException then [ResponseParsed(link, slave, resp), FrameError(link, slave, Exception)]
          else [ResponseParsed(link, slave, resp)];
        if transport == Rtu then signals == told(0, frame[0])
        else
          && (forall link, slave :: Unanswered(log, resp.transactionId, link, slave) ==> signals == told(link, slave))
          && ((exists link, slave :: Unanswered(log, resp.transactionId, link, slave))
              || signals == [FrameError(0, resp.slave, Spurious)])
  {
    RunAgrees(transport, events);
    var (st, log) := Run(transport, events);
    hide Run;
    hide LastNote;
    hide JustifiedLog;
    var parsed := Parse(frame, transport);
    if parsed.Some? {
      assert transport == Rtu ==> parsed.value.slave == frame[0];
      hide Parse;
      var tid := parsed.value.transactionId;
      assert match LastNote(log, tid)
        case Some(Registered(t, link, slave)) => tid in st.inFlight && st.inFlight[tid] == InFlight(link, slave)
        case _ => tid !in st.inFlight;
      LastNoteConcerns(log, tid);
      if transport == Tcp && tid in st.inFlight {
        assert Unanswered(log, tid, st.inFlight[tid].link, st.inFlight[tid].slave);
      }
    }
  }

  /** Frames are routed one after the other, none skipped, and the signals come in that order. */
  lemma {:induction false} RoutedInOrder(st: State, transport: Transport, a: seq<seq<Byte>>, f: seq<Byte>,
                                         b: seq<seq<Byte>>)
    ensures var (st1, s1) := RouteAll(st, transport, a);
      var (st2, s2) := Route(st1, transport, f);
      var (st3, s3) := RouteAll(st2, transport, b);
      RouteAll(st, transport, a + [f] + b) == (st3, s1 + s2 + s3)
  {
    hide Route;
    if b == [] {
      assert a + [f] + b == a + [f] && (a + [f])[..|a|] == a;
      var (st1, s1) := RouteAll(st, transport, a);
      var s2 := Route(st1, transport, f).1;
      assert s1 + s2 + [] == s1 + s2;
    } else {
      var n := |b| - 1;
      assert (a + [f] + b)[..|a| + 1 + n] == a + [f] + b[..n];
      RoutedInOrder(st, transport, a, f, b[..n]);
      var (st1, s1) := RouteAll(st, transport, a);
      var (st2, s2) := Route(st1, transport, f);
      var (st3, s3) := RouteAll(st2, transport, b[..n]);
      var more := Route(st3, transport, b[n]).1;
      assert s1 + s2 + s3 + more == s1 + s2 + (s3 + more);
    }
  }
}
