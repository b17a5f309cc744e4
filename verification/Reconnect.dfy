/** The receiving side across disconnects: the byte ring keeps what it holds when the link goes down,
    the pairing table does not. */
module Reconnect {
  import opened Bytes
  import opened ModbusFrame
  import C = Crc16
  import F = Framing
  import P = Pairing

  /** Byte queue and table of one engine. */
  datatype Link = Link(stream: F.Stream, table: P.State)

  const FRESH := Link(F.EMPTY, P.INITIAL)

  datatype Event =
    | Chunk(bytes: seq<Byte>, stale: Byte)
    | Wrote(req: Request, link: nat)
    | Down

  function Step(l: Link, transport: Transport, e: Event): (Link, seq<P.Signal>) {
    match e
    case Chunk(bytes, stale) =>
      if bytes == [] then (l, [])
      else
        var (q, frames) := F.Receive(l.stream, bytes, stale, transport == Tcp);
        var (t, signals) := P.RouteAll(l.table, transport, frames);
        (Link(q, t), signals)
    case Wrote(req, link) => (l.(table := P.Write(l.table, transport, req, link).0), [])
    case Down => (l.(table := P.INITIAL), [])
  }

  function Run(transport: Transport, events: seq<Event>): (Link, seq<P.Signal>) {
    if events == [] then (FRESH, [])
    else
      var (l, signals) := Run(transport, events[..|events| - 1]);
      var (l', more) := Step(l, transport, events[|events| - 1]);
      (l', signals + more)
  }

  lemma {:induction false} RunNext(transport: Transport, events: seq<Event>, e: Event)
    ensures var (l, signals) := Run(transport, events);
      var (l', more) := Step(l, transport, e);
      Run(transport, events + [e]) == (l', signals + more)
  {
    assert (events + [e])[..|events|] == events;
    hide Step;
  }

  // ---- a ring that has slid still holds bytes ----

  ghost predicate Settled(s: F.Stream) { s.slid > 0 ==> |s.q| >= 3 }

  lemma {:induction false} DrainSettled(s: F.Stream, stale: Byte, tcp: bool)
    requires Settled(s)
    ensures Settled(F.Drain(s, stale, tcp).0)
    decreases |s.q|
  {
    var (s', frame) := F.Extract(s, stale, tcp);
    hide C.Crc;
    if frame != [] {
      hide F.Inspect;
      DrainSettled(s', stale, tcp);
    }
  }

  lemma {:induction false} RunSettled(transport: Transport, events: seq<Event>)
    ensures Settled(Run(transport, events).0.stream)
  {
    if events != [] {
      var front, e := events[..|events| - 1], events[|events| - 1];
      RunSettled(transport, front);
      var s := Run(transport, front).0.stream;
      if e.Chunk? && e.bytes != [] {
        DrainSettled(s.(q := F.Last(s.q + e.bytes, F.CAPACITY)), e.stale, transport == Tcp);
      }
      hide F.Drain;
      hide P.RouteAll;
      hide P.Write;
    }
  }

  // ---- the next connection ----

  /** Good frames, cut into chunks that would not overfill the ring if it were empty. */
  ghost predicate Traffic(s: F.Stream, fs: seq<seq<Byte>>, chunks: seq<seq<Byte>>, stales: seq<Byte>, tcp: bool) {
    && |chunks| == |stales| && F.AllGood(fs, tcp) && F.Flatten(chunks) == F.Flatten(fs)
    && F.NeverOverfills(s.(q := [], slid := 0), chunks, stales, tcp)
  }

  /** All traffic of the next connection comes out frame by frame. */
  ghost predicate Clean(s: F.Stream, tcp: bool) {
    forall fs, chunks, stales :: Traffic(s, fs, chunks, stales, tcp) ==> F.Run(s, chunks, stales, tcp).1 == fs
  }

  /** A good frame that does not begin with byte `b`. */
  function Other(b: Byte, tcp: bool): seq<Byte> {
    if tcp then [if b == 0 then 1 else 0, 0, 0, 0, 0, 3, 1, 0x83, 2]
    else C.Seal([if b == 1 then 2 else 1, 0x83, 2])
  }

  lemma OtherIsGood(b: Byte, tcp: bool)
    ensures var f := Other(b, tcp); F.Good(f, tcp) && |f| == (if tcp then 9 else 5) && f[0] != b
  {
    if !tcp {
      C.SealVerifies([if b == 1 then 2 else 1, 0x83, 2]);
      hide C.Crc;
      hide C.Verifies;
    }
  }

  /** The first frame handed out begins with the first byte buffered. */
  lemma FirstByte(s: F.Stream, stale: Byte, tcp: bool)
    requires s.q != []
    ensures var frames := F.Drain(s, stale, tcp).1; frames != [] ==> frames[0] != [] && frames[0][0] == s.q[0]
  {
    hide F.Extract;
    var frame := F.Extract(s, stale, tcp).1;
    if frame != [] {
      assert s.q[..|frame|] == frame;
    }
  }

  lemma {:induction false} ResidueSpoils(s: F.Stream, tcp: bool)
    requires s.q != [] && |s.q| <= F.CAPACITY
    ensures !Clean(s, tcp)
  {
    var size: nat := if tcp then 9 else 5;
    var dropped: nat := if |s.q| + size > F.CAPACITY then |s.q| + size - F.CAPACITY else 0;
    var f := Other(s.q[dropped], tcp);
    OtherIsGood(s.q[dropped], tcp);
    hide Other;
    hide F.Good;
    hide C.Crc;
    var q := F.Last(s.q + f, F.CAPACITY);
    assert q[0] == s.q[dropped];
    FirstByte(s.(q := q), 0, tcp);
    OneChunk(s, f, 0, tcp);
    hide F.Drain;
    OneFrameTraffic(s, f, tcp);
    assert F.Run(s, [f], [0], tcp).1 != [f];
  }

  lemma OneFrameTraffic(s: F.Stream, f: seq<Byte>, tcp: bool)
    requires F.Good(f, tcp) && |f| <= F.CAPACITY
    ensures Traffic(s, [f], [f], [0], tcp)
  {
    hide F.Good;
    hide F.Receive;
    var cleared := s.(q := [], slid := 0);
    var none: seq<seq<Byte>>, nothing: seq<Byte> := [], [];
    assert [f][1..] == none && [0][1..] == nothing;
    var after := F.Receive(cleared, f, 0, tcp).0;
    assert F.NeverOverfills(after, none, nothing, tcp);
    assert F.NeverOverfills(cleared, [f], [0], tcp);
  }

  lemma OneChunk(s: F.Stream, chunk: seq<Byte>, stale: Byte, tcp: bool)
    ensures F.Run(s, [chunk], [stale], tcp) == F.Receive(s, chunk, stale, tcp)
  {
    hide F.Receive;
    var (s', frames) := F.Receive(s, chunk, stale, tcp);
    var none: seq<seq<Byte>>, nothing: seq<Byte> := [], [];
    assert [chunk][1..] == none && [stale][1..] == nothing;
    assert F.Run(s', none, nothing, tcp) == (s', none);
    assert frames + [] == frames;
  }

  lemma {:induction false} NothingBuffered(s: F.Stream, tcp: bool)
    requires s.q == [] && s.slid == 0
    ensures Clean(s, tcp)
  {
    forall fs, chunks, stales | Traffic(s, fs, chunks, stales, tcp) ensures F.Run(s, chunks, stales, tcp).1 == fs {
      assert s.(q := [], slid := 0) == s;
      hide F.NeverOverfills;
      hide F.Run;
      F.EveryFrameDelivered(s, fs, chunks, stales, tcp);
    }
  }

  /** In every run of chunks, requests and disconnects: a disconnect empties the table and leaves the
      buffered bytes alone, and the frames of the next connection come out exactly if and only if
      nothing was buffered. */
  lemma {:induction false} CleanExactly(transport: Transport, events: seq<Event>)
    ensures var (l, l') := (Run(transport, events).0, Run(transport, events + [Down]).0);
      && l'.stream == l.stream && l'.table == P.INITIAL
      && (Clean(l'.stream, transport == Tcp) <==> l.stream.q == [])
  {
    RunNext(transport, events, Down);
    RunSettled(transport, events);
    RunInRing(transport, events);
    var s := Run(transport, events).0.stream;
    hide Run;
    if s.q == [] {
      NothingBuffered(s, transport == Tcp);
    } else {
      ResidueSpoils(s, transport == Tcp);
    }
    hide Clean;
  }

  lemma {:induction false} DrainShrinks(s: F.Stream, stale: Byte, tcp: bool)
    ensures |F.Drain(s, stale, tcp).0.q| <= |s.q|
    decreases |s.q|
  {
    hide F.Extract;
    var (s', frame) := F.Extract(s, stale, tcp);
    if frame != [] {
      DrainShrinks(s', stale, tcp);
    }
  }

  lemma {:induction false} RunInRing(transport: Transport, events: seq<Event>)
    ensures |Run(transport, events).0.stream.q| <= F.CAPACITY
  {
    if events != [] {
      var front, e := events[..|events| - 1], events[|events| - 1];
      RunInRing(transport, front);
      var s := Run(transport, front).0.stream;
      if e.Chunk? && e.bytes != [] {
        DrainShrinks(s.(q := F.Last(s.q + e.bytes, F.CAPACITY)), e.stale, transport == Tcp);
      }
      hide F.Drain;
      hide P.RouteAll;
      hide P.Write;
    }
  }

  // ---- a reply stitched together across a disconnect ----

  /** Read one register of slave 1. */
  const READ_ONE := Request(Tcp, 0, 1, 3, 0, 1, [], [])

  /** The reply to the first such request, without its last two bytes. */
  const CUT_SHORT: seq<Byte> := [0, 1, 0, 0, 0, 5, 1, 3, 2]

  /** A whole reply carrying the value 7. */
  const REPLY_SEVEN: seq<Byte> := [0, 1, 0, 0, 0, 5, 1, 3, 2, 0, 7]

  lemma Waits(s: F.Stream, chunk: seq<Byte>, stale: Byte)
    requires s == F.EMPTY && chunk == CUT_SHORT
    ensures F.Receive(s, chunk, stale, true) == (F.Stream(CUT_SHORT, 0, 0), [])
  {
    assert s.q + chunk == CUT_SHORT;
    assert F.Inspect(CUT_SHORT, stale, true) == F.Wait;
  }

  lemma Stitches(stale: Byte)
    ensures F.Receive(F.Stream(CUT_SHORT, 0, 0), REPLY_SEVEN, stale, true)
      == (F.Stream(REPLY_SEVEN[2..], 0, 0), [CUT_SHORT + [0, 1]])
  {
    var q := CUT_SHORT + REPLY_SEVEN;
    var frame, rest := CUT_SHORT + [0, 1], REPLY_SEVEN[2..];
    assert q == frame + rest && |q| == 20;
    assert F.Inspect(q, stale, true) == F.Take(11);
    assert q[..11] == frame && q[11..] == rest;
    assert F.Inspect(rest, stale, true) == F.Wait;
    assert F.Drain(F.Stream(rest, 0, 0), stale, true) == (F.Stream(rest, 0, 0), []);
    assert [frame] + [] == [frame];
  }

  function Told(value: Word): Response { Response(Tcp, 1, 1, 3, false, 0, [value], []) }

  lemma ReplyMeans(f: seq<Byte>, hi: Byte, lo: Byte)
    requires f == [0, 1, 0, 0, 0, 5, 1, 3, 2, hi, lo]
    ensures Parse(f, Tcp) == Some(Told(BE(hi, lo)))
  {
    assert BE(f[0], f[1]) == 1 && BE(f[2], f[3]) == 0 && BE(f[4], f[5]) == 5;
    var data := f[9..11];
    assert data == [hi, lo];
    assert BytesWords(data) == [BE(hi, lo)];
    hide BytesWords;
    hide BE;
  }

  lemma Asked(l: Link)
    requires l.table == P.INITIAL
    ensures Step(l, Tcp, Wrote(READ_ONE, 1)) == (l.(table := WAITING.table), [])
  {
    assert P.LowestFree({}, 1) == 1;
    assert RequestBytes(READ_ONE.(transactionId := 1)) != [];
    hide RequestBytes;
    assert l.table.used + {1} == {1};
  }

  /** The new request holds id 1 while the old reply's beginning is still buffered. */
  const WAITING := Link(F.Stream(CUT_SHORT, 0, 0), P.State(map[1 := P.InFlight(1, 1)], {1}))

  lemma {:induction false} Then(events: seq<Event>, l: Link, signals: seq<P.Signal>, e: Event, l': Link,
                                more: seq<P.Signal>)
    requires Run(Tcp, events) == (l, signals) && Step(l, Tcp, e) == (l', more)
    ensures Run(Tcp, events + [e]) == (l', signals + more)
  {
    RunNext(Tcp, events, e);
  }

  lemma CutShort(l: Link, stale: Byte)
    requires l.stream == F.EMPTY
    ensures Step(l, Tcp, Chunk(CUT_SHORT, stale)) == (l.(stream := F.Stream(CUT_SHORT, 0, 0)), [])
  {
    Waits(l.stream, CUT_SHORT, stale);
    NoFrames(l.table);
    hide F.Receive;
    hide P.RouteAll;
  }

  lemma Answered(frame: seq<Byte>)
    requires Parse(frame, Tcp) == Some(Told(1))
    ensures P.Route(WAITING.table, Tcp, frame) == (P.INITIAL, [P.ResponseParsed(1, 1, Told(1))])
  {
    hide Parse;
    var answer := [P.ResponseParsed(1, 1, Told(1))];
    assert answer + [] == answer;
    assert WAITING.table.inFlight - {1} == map[] && WAITING.table.used - {1} == {};
  }

  lemma Delivered(l: Link, stale: Byte, bytes: seq<Byte>, rest: F.Stream, frame: seq<Byte>)
    requires bytes != [] && F.Receive(l.stream, bytes, stale, true) == (rest, [frame])
    ensures Step(l, Tcp, Chunk(bytes, stale))
      == (Link(rest, P.Route(l.table, Tcp, frame).0), P.Route(l.table, Tcp, frame).1)
  {
    hide F.Receive;
    OneFrame(l.table, frame);
    hide P.RouteAll;
    hide P.Route;
  }

  const ASKED := Link(F.EMPTY, WAITING.table)
  const LOST := WAITING.(table := P.INITIAL)

  lemma Shapes()
    ensures FRESH.table == P.INITIAL && FRESH.(table := WAITING.table) == ASKED && ASKED.stream == F.EMPTY
    ensures ASKED.(stream := F.Stream(CUT_SHORT, 0, 0)) == WAITING && LOST == WAITING.(table := P.INITIAL)
    ensures LOST.table == P.INITIAL && LOST.(table := WAITING.table) == WAITING
      && WAITING.stream == F.Stream(CUT_SHORT, 0, 0)
  {
  }

  lemma Bytewise()
    ensures REPLY_SEVEN == [0, 1, 0, 0, 0, 5, 1, 3, 2, 0, 7] && CUT_SHORT + [0, 1] == [0, 1, 0, 0, 0, 5, 1, 3, 2, 0, 1]
    ensures BE(0, 1) == 1 && BE(0, 7) == 7
  {
  }

  lemma {:induction false} UntilTheReply(stale: Byte) returns (events: seq<Event>)
    ensures events == [Wrote(READ_ONE, 1)] + [Chunk(CUT_SHORT, stale)] + [Down] + [Wrote(READ_ONE, 1)]
    ensures Run(Tcp, events) == (WAITING, [])
  {
    hide *;
    Shapes();
    var none: seq<P.Signal> := [];
    assert none + none == none;
    Asked(FRESH);
    CutShort(ASKED, stale);
    GoesDown(WAITING);
    Asked(LOST);
    Begins();
    events := [];
    Then(events, FRESH, none, Wrote(READ_ONE, 1), ASKED, none);
    events := [Wrote(READ_ONE, 1)];
    assert [] + events == events;
    Then(events, ASKED, none, Chunk(CUT_SHORT, stale), WAITING, none);
    events := events + [Chunk(CUT_SHORT, stale)];
    Then(events, WAITING, none, Down, LOST, none);
    events := events + [Down];
    Then(events, LOST, none, Wrote(READ_ONE, 1), WAITING, none);
    events := events + [Wrote(READ_ONE, 1)];
  }

  /** A reply cut short by a disconnect, and the next connection's first reply: the ring hands out one
      frame made of both, it is paired with the new request, whose id is the lowest free one again, and
      the host reads 1 where the slave sent 7. */
  lemma {:induction false} StitchedRun(stale: Byte) returns (events: seq<Event>)
    ensures events == [Wrote(READ_ONE, 1)] + [Chunk(CUT_SHORT, stale)] + [Down] + [Wrote(READ_ONE, 1)]
                      + [Chunk(REPLY_SEVEN, stale)]
    ensures Run(Tcp, events).1 == [P.ResponseParsed(1, 1, Told(1))] && Parse(REPLY_SEVEN, Tcp) == Some(Told(7))
  {
    hide *;
    Shapes();
    Bytewise();
    events := UntilTheReply(stale);
    var rest := F.Stream(REPLY_SEVEN[2..], 0, 0);
    Stitches(stale);
    ReplyMeans(CUT_SHORT + [0, 1], 0, 1);
    ReplyMeans(REPLY_SEVEN, 0, 7);
    Answered(CUT_SHORT + [0, 1]);
    Delivered(WAITING, stale, REPLY_SEVEN, rest, CUT_SHORT + [0, 1]);
    var last := [P.ResponseParsed(1, 1, Told(1))];
    Then(events, WAITING, [], Chunk(REPLY_SEVEN, stale), Link(rest, P.INITIAL), last);
    events := events + [Chunk(REPLY_SEVEN, stale)];
    assert [] + last == last;
  }

  lemma Begins()
    ensures Run(Tcp, []) == (FRESH, [])
  {
  }

  lemma GoesDown(l: Link)
    ensures Step(l, Tcp, Down) == (l.(table := P.INITIAL), [])
  {
  }

  lemma NoFrames(st: P.State)
    ensures P.RouteAll(st, Tcp, []) == (st, [])
  {
  }

  lemma OneFrame(st: P.State, frame: seq<Byte>)
    ensures P.RouteAll(st, Tcp, [frame]) == P.Route(st, Tcp, frame)
  {
    hide P.Route;
    assert [frame][..0] == [];
    var (st', s) := P.Route(st, Tcp, frame);
    assert [] + s == s;
  }
}
