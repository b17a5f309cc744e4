/** The poll driver: one segment read at a time, and what each polled point is told. */
module Polling {
  import opened Bytes
  import opened ModbusFrame
  import opened Planner
  import P = Pairing
  import SV = SlaveValues
  import W = WirePath

  function FcForRead(rt: RegisterType): Byte {
    match rt
    case Coil => 0x01
    case DiscreteInput => 0x02
    case InputRegister => 0x04
    case HoldingRegister => 0x03
  }

  function PollRequest(seg: Segment): Request {
    Request(Tcp, 0, seg.slave, FcForRead(seg.rt), seg.startAddr, seg.qty, [], [])
  }

  /** The request as it goes out, under the transaction id the engine has drawn. */
  function PollAs(seg: Segment, tid: Word): Request { PollRequest(seg).(transactionId := tid) }

  /** What a point gets out of a response: a bit, or its raw registers before decoding. */
  datatype Sample = BitSample(pointId: nat, on: bool) | WordSample(pointId: nat, raw: seq<Word>)

  /** Float32 points carry a single scaled register in the simulator's layout. */
  function RawCount(p: Point): nat {
    if p.dataType.Float32? then 1 else RegisterCountFor(p.dataType)
  }

  /** The sample of one point, None when the response is too short for it. */
  function SampleOf(seg: Segment, p: Point, resp: Response): Option<Sample>
    requires seg.startAddr <= p.addr
  {
    var offset: nat := p.addr - seg.startAddr;
    if IsBitType(seg.rt) then
      if offset >= seg.qty || offset / 8 >= |resp.coils| then None
      else Some(BitSample(p.pointId, TestBit(resp.coils[offset / 8], offset % 8)))
    else if offset + RawCount(p) > |resp.registers| then None
    else Some(WordSample(p.pointId, resp.registers[offset..offset + RawCount(p)]))
  }

  function SamplesOf(seg: Segment, ps: seq<Point>, resp: Response): seq<Sample>
    requires forall p :: p in ps ==> seg.startAddr <= p.addr
  {
    if ps == [] then []
    else
      SamplesOf(seg, ps[..|ps| - 1], resp) +
      match SampleOf(seg, ps[|ps| - 1], resp) { case None => [] case Some(s) => [s] }
  }

  datatype Pending = Pending(link: nat, slave: Byte, fc: Byte, segmentIndex: nat, active: bool)

  function BaseFc(fc: Byte): Byte { if fc >= 0x80 then fc - 0x80 else fc }

  /** The driver takes the response for the outstanding poll: link, slave and function code agree. */
  predicate Matches(p: Pending, link: nat, slave: Byte, resp: Response) {
    0x01 <= BaseFc(resp.fc) <= 0x04 && p.active && link == p.link && slave == p.slave && BaseFc(resp.fc) == p.fc
  }

  function AfterResponse(p: Pending, link: nat, slave: Byte, resp: Response): Pending {
    if Matches(p, link, slave, resp) then p.(active := false) else p
  }

  function AfterError(p: Pending, link: nat, slave: Byte, kind: P.ErrorKind): Pending {
    var ends := kind != P.Exception && kind != P.Spurious;
    if p.active && ends && (slave == 0 || (link == p.link && slave == p.slave)) then p.(active := false) else p
  }

  class PollDriver {
    const segments: seq<Segment>
    var nextSegIdx: nat
    var running: bool
    var pending: Pending

    /** Segments are proper and an outstanding poll is one of them. */
    ghost predicate Valid()
      reads this
    {
      && (forall k :: 0 <= k < |segments| ==> Proper(segments[k]))
      && (pending.active ==>
            && pending.segmentIndex < |segments|
            && pending.link == pending.slave == segments[pending.segmentIndex].slave
            && pending.fc == FcForRead(segments[pending.segmentIndex].rt))
    }

    constructor (points: seq<Point>, segments: seq<Segment>)
      requires Planned(points, segments)
      ensures Valid() && !pending.active && this.segments == segments
    {
      this.segments := segments;
      nextSegIdx := 0;
      running := false;
      pending := Pending(0, 0, 0, 0, false);
    }

    /** A tick sends at most one request, and none while one is outstanding; `scheduled` and
        `written` are the scheduler's and the engine's answers. */
    method OnPollTick(scheduled: bool, written: bool) returns (sent: Option<Request>)
      requires Valid()
      modifies this
      ensures Valid() && running == old(running)
      ensures !running || old(pending).active || segments == [] ==>
        sent.None? && pending == old(pending) && nextSegIdx == old(nextSegIdx)
      ensures running && !old(pending).active && segments != [] ==>
        && nextSegIdx == old(nextSegIdx) + 1
        && (sent.Some? <==> scheduled && written) && (pending.active <==> sent.Some?)
        && (sent.Some? ==>
              && pending.segmentIndex == old(nextSegIdx) % |segments|
              && sent.value == PollRequest(segments[pending.segmentIndex]))
    {
      sent := None;
      if !running || pending.active || segments == [] {
        return;
      }
      var segmentIndex := nextSegIdx % |segments|;
      var seg := segments[segmentIndex];
      nextSegIdx := nextSegIdx + 1;
      if !scheduled || !written {
        return;
      }
      var req := PollRequest(seg);
      pending := Pending(seg.slave, seg.slave, req.fc, segmentIndex, true);
      sent := Some(req);
    }

    /** A response that does not match the outstanding poll changes nothing; a matching one ends it,
        and if it is not an exception every point of the segment is sampled or counted as dropped. */
    method OnResponseParsed(link: nat, slave: Byte, resp: Response) returns (samples: seq<Sample>, drops: nat)
      requires Valid()
      modifies this
      ensures Valid() && nextSegIdx == old(nextSegIdx) && running == old(running)
      ensures pending == AfterResponse(old(pending), link, slave, resp)
      ensures
        var seg := if old(pending).active then segments[old(pending).segmentIndex] else Segment(0, Coil, 0, 0, []);
        if Matches(old(pending), link, slave, resp) && !resp.isException
        then
          && (forall p :: p in seg.points ==> seg.startAddr <= p.addr)
          && samples == SamplesOf(seg, seg.points, resp) && drops == |seg.points| - |samples|
        else samples == [] && drops == 0
    {
      samples, drops := [], 0;
      var fc := if resp.fc >= 0x80 then resp.fc - 0x80 else resp.fc;
      if fc < 0x01 || fc > 0x04 {
        return;
      }
      if !pending.active || link != pending.link || slave != pending.slave || fc != pending.fc {
        return;
      }
      pending := pending.(active := false);
      if resp.isException {
        return;
      }
      var seg := segments[pending.segmentIndex];
      assert Proper(seg);
      assert forall p :: p in seg.points ==> Inside(p, ReadOf(seg));
      hide Proper;
      for i := 0 to |seg.points|
        invariant samples == SamplesOf(seg, seg.points[..i], resp)
        invariant drops == i - |samples| && Valid() && pending == old(pending).(active := false)
        invariant nextSegIdx == old(nextSegIdx) && running == old(running)
      {
        assert seg.points[..i + 1][..i] == seg.points[..i];
        var s := SampleOf(seg, seg.points[i], resp);
        if s.None? {
          drops := drops + 1;
        } else {
          samples := samples + [s.value];
        }
      }
      assert seg.points[..|seg.points|] == seg.points;
    }

    /** A frame error ends the outstanding poll unless it is an exception or a spurious reply, and only
        with slave 0, as malformed frames have it, or with the poll's own link and slave. */
    method OnFrameError(link: nat, slave: Byte, kind: P.ErrorKind)
      requires Valid()
      modifies this`pending
      ensures Valid() && pending == AfterError(old(pending), link, slave, kind)
    {
      if pending.active && kind != P.Exception && kind != P.Spurious
         && (slave == 0 || (link == pending.link && slave == pending.slave)) {
        pending := pending.(active := false);
      }
    }

    method ResetPending()
      requires Valid()
      modifies this`pending
      ensures Valid() && pending == old(pending).(active := false)
    {
      pending := pending.(active := false);
    }
  }

  /** The cells of the slave a point stands for. */
  ghost predicate TellsTruth(regs: SV.Regs, p: Point, s: Sample) {
    && s.pointId == p.pointId
    && (match p.regType
        case Coil => s.BitSample? && s.on == SV.BitAt(regs.coils, p.addr)
        case DiscreteInput => s.BitSample? && s.on == SV.BitAt(regs.discretes, p.addr)
        case HoldingRegister => s.WordSample? && s.raw == SV.ReadWords(regs.holding, p.addr, RawCount(p))
        case InputRegister => s.WordSample? && s.raw == SV.ReadWords(regs.input, p.addr, RawCount(p)))
  }

  lemma BitPointTold(regs: SV.Regs, seg: Segment, tid: Word, p: Point, resp: Response)
    requires Inside(p, ReadOf(seg)) && IsBitType(seg.rt) && !resp.isException
    requires seg.qty <= 2000
    requires W.ReadAnswered(regs, PollAs(seg, tid), resp)
    ensures SampleOf(seg, p, resp).Some? && TellsTruth(regs, p, SampleOf(seg, p, resp).value)
  {
    var req := PollAs(seg, tid);
    var cells := if req.fc == 0x01 then regs.coils else regs.discretes;
    var offset: nat := p.addr - seg.startAddr;
    assert SV.UnpackBits(resp.coils, req.quantity)[offset] == SV.ReadBits(cells, seg.startAddr, seg.qty)[offset];
    assert SV.Cell(seg.startAddr, offset) == p.addr;
  }

  lemma WordPointTold(regs: SV.Regs, seg: Segment, tid: Word, p: Point, resp: Response)
    requires Inside(p, ReadOf(seg)) && !IsBitType(seg.rt) && !resp.isException
    requires seg.qty <= 125
    requires W.ReadAnswered(regs, PollAs(seg, tid), resp)
    ensures SampleOf(seg, p, resp).Some? && TellsTruth(regs, p, SampleOf(seg, p, resp).value)
  {
    var req := PollAs(seg, tid);
    var cells := if req.fc == 0x03 then regs.holding else regs.input;
    var offset: nat := p.addr - seg.startAddr;
    assert resp.registers == SV.ReadWords(cells, seg.startAddr, seg.qty);
    assert RawCount(p) <= Width(p);
    forall k | 0 <= k < RawCount(p)
      ensures resp.registers[offset + k] == SV.ReadWords(cells, p.addr, RawCount(p))[k]
    {
      assert SV.Cell(seg.startAddr, offset + k) == SV.Cell(p.addr, k);
    }
    assert resp.registers[offset..offset + RawCount(p)] == SV.ReadWords(cells, p.addr, RawCount(p));
  }

  lemma {:induction false} AllTold(regs: SV.Regs, seg: Segment, ps: seq<Point>, resp: Response)
    requires forall p :: p in ps ==> seg.startAddr <= p.addr
    requires forall p :: p in ps ==> SampleOf(seg, p, resp).Some? && TellsTruth(regs, p, SampleOf(seg, p, resp).value)
    ensures var samples := SamplesOf(seg, ps, resp);
      |samples| == |ps| && forall i :: 0 <= i < |ps| ==> TellsTruth(regs, ps[i], samples[i])
  {
    if ps != [] {
      AllTold(regs, seg, ps[..|ps| - 1], resp);
    }
  }

  /** A response within the slave's registers gives every point of the segment its cells and drops
      none; otherwise it is exception 2. */
  ghost predicate Told(seg: Segment, regs: SV.Regs, resp: Response) {
    var fits := seg.startAddr + seg.qty <= W.CellCount(regs, FcForRead(seg.rt));
    && resp.isException == !fits && (resp.isException ==> resp.exceptionCode == 0x02)
    && (forall p :: p in seg.points ==> seg.startAddr <= p.addr)
    && (fits ==>
          var samples := SamplesOf(seg, seg.points, resp);
          |samples| == |seg.points| && forall i :: 0 <= i < |samples| ==> TellsTruth(regs, seg.points[i], samples[i]))
  }

  /** A planned segment polled under any transaction id: the slave's answer tells every one of its
      points the truth, or is exception 2, never 3. */
  lemma PolledPointsToldTruth(points: seq<Point>, segments: seq<Segment>, k: nat, tid: Word, regs: SV.Regs,
                              resp: Response)
    requires Planned(points, segments) && k < |segments|
    requires W.ReadAnswered(regs, PollAs(segments[k], tid), resp)
    ensures Told(segments[k], regs, resp)
  {
    var seg := segments[k];
    assert Proper(seg);
    PlanIsSensible(points, segments, k);
    hide SV.UnpackBits;
    assert seg.qty <= W.ReadLimit(FcForRead(seg.rt));
    assert forall p :: p in seg.points ==> Inside(p, ReadOf(seg));
    if !resp.isException {
      forall p | p in seg.points
        ensures SampleOf(seg, p, resp).Some? && TellsTruth(regs, p, SampleOf(seg, p, resp).value)
      {
        if IsBitType(seg.rt) {
          BitPointTold(regs, seg, tid, p, resp);
        } else {
          WordPointTold(regs, seg, tid, p, resp);
        }
      }
      AllTold(regs, seg, seg.points, resp);
    }
  }

  /** One poll, all the way: the engine writes the request under `tid` and registers it; the slave
      answers with `reply`; whenever that reply comes back while the registration stands, it is paired
      with it, handed to the driver with the segment's link and slave, and tells the points the truth. */
  ghost predicate Polled(seg: Segment, bank: SV.Bank, slaves: seq<Byte>, st: P.State, tid: Word, reply: seq<Byte>,
                         resp: Response)
    requires seg.slave in bank
  {
    var (st', frame) := P.Write(st, Tcp, PollRequest(seg), seg.slave);
    && tid != P.INVALID_ID && tid !in st.used && frame == RequestBytes(PollAs(seg, tid))
    && tid in st'.inFlight && st'.inFlight[tid] == P.InFlight(seg.slave, seg.slave)
    && W.Serve(bank, slaves, Tcp, frame) == W.Served(bank, reply)
    && (forall later: P.State :: Awaits(later, tid, seg.slave) ==> Delivers(later, seg.slave, reply, resp))
    && Told(seg, bank[seg.slave], resp)
  }

  ghost predicate Awaits(st: P.State, tid: Word, slave: Byte) {
    tid in st.inFlight && st.inFlight[tid] == P.InFlight(slave, slave)
  }

  ghost predicate Delivers(st: P.State, slave: Byte, reply: seq<Byte>, resp: Response) {
    P.Route(st, Tcp, reply) == (P.Forget(st, resp.transactionId), P.Answer(slave, slave, resp))
  }

  /** Every planned segment of a known slave that the engine can write is polled truthfully. */
  lemma PollCycle(points: seq<Point>, segments: seq<Segment>, k: nat, bank: SV.Bank, slaves: seq<Byte>, st: P.State)
    requires Planned(points, segments) && k < |segments| && st.used == st.inFlight.Keys
    requires segments[k].slave in slaves && segments[k].slave in bank
    requires P.Write(st, Tcp, PollRequest(segments[k]), segments[k].slave).1 != []
    ensures exists tid, reply, resp :: Polled(segments[k], bank, slaves, st, tid, reply, resp)
  {
    var seg := segments[k];
    var tid := P.LowestFree(st.used, 1);
    var (st', frame) := P.Write(st, Tcp, PollRequest(seg), seg.slave);
    assert PollAs(seg, tid) == PollRequest(seg).(transactionId := tid);
    assert frame == RequestBytes(PollAs(seg, tid)) && tid != P.INVALID_ID && tid !in st.inFlight;
    assert st'.inFlight[tid] == P.InFlight(seg.slave, seg.slave);
    var req := PollAs(seg, tid);
    assert req.fc in {0x01, 0x02, 0x03, 0x04} && req.transport == Tcp && req.slave == seg.slave
      && req.transactionId == tid;
    hide *;
    W.ReadEndToEnd(bank, slaves, req);
    var reply, resp :| W.ReadTold(bank, slaves, req, reply, resp);
    W.ToldOf(bank, slaves, req, reply, resp);
    Exchanged(bank, slaves, req, reply, resp);
    PolledPointsToldTruth(points, segments, k, tid, bank[seg.slave], resp);
    forall later: P.State | Awaits(later, tid, seg.slave) ensures Delivers(later, seg.slave, reply, resp) {
      Paired(later, seg.slave, bank[seg.slave], req, reply, resp);
    }
    Completed(seg, bank, slaves, st, tid, reply, resp);
  }

  /** The planner's limit is the slave's: a longer segment would be refused with exception 3, and no other
      is. */
  lemma LimitIsTheSlaves(seg: Segment, tid: Word, regs: SV.Regs, resp: Response)
    requires W.ReadAnswered(regs, PollAs(seg, tid), resp)
    ensures resp.isException && resp.exceptionCode == 0x03 <==> seg.qty > MaxQty(seg.rt)
  {
    hide SV.UnpackBits;
  }

  /** On a serial line the reply to a read is handed on with the slave's own address, and nothing else is
      signalled unless it is an exception. */
  ghost predicate HandedOn(st: P.State, slave: Byte, reply: seq<Byte>, resp: Response) {
    P.Route(st, Rtu, reply)
    == (st, if resp.isException then [P.ResponseParsed(0, slave, resp), P.FrameError(0, slave, P.Exception)]
            else [P.ResponseParsed(0, slave, resp)])
  }

  /** Every serial read of a known slave is served, framed, parsed and handed on truthfully, whatever the
      engine has in flight. */
  lemma SerialRead(bank: SV.Bank, slaves: seq<Byte>, req: Request, st: P.State)
    requires req.fc in {0x01, 0x02, 0x03, 0x04} && RequestBytes(req) != [] && req.transport == Rtu
    requires req.slave in slaves && req.slave in bank
    ensures exists reply, resp :: W.ReadTold(bank, slaves, req, reply, resp) && HandedOn(st, req.slave, reply, resp)
  {
    hide *;
    W.ReadEndToEnd(bank, slaves, req);
    var reply, resp :| W.ReadTold(bank, slaves, req, reply, resp);
    W.ToldOf(bank, slaves, req, reply, resp);
    SerialParsed(bank, slaves, req, reply, resp);
    SerialRouted(st, reply, resp, bank[req.slave], req);
  }

  lemma SerialParsed(bank: SV.Bank, slaves: seq<Byte>, req: Request, reply: seq<Byte>, resp: Response)
    requires W.Exchange(bank, slaves, req, bank, reply, resp) && req.transport == Rtu
    ensures Parse(reply, Rtu) == Some(resp)
  {
    hide W.Serve;
    hide Parse;
  }

  lemma SerialRouted(st: P.State, reply: seq<Byte>, resp: Response, regs: SV.Regs, req: Request)
    requires Parse(reply, Rtu) == Some(resp) && W.ReadAnswered(regs, req, resp)
    ensures HandedOn(st, req.slave, reply, resp)
  {
    hide Parse;
    var first, after := P.ResponseParsed(0, req.slave, resp), P.FrameError(0, req.slave, P.Exception);
    assert [first] + [] == [first] && [first] + [after] == [first, after];
  }

  lemma Exchanged(bank: SV.Bank, slaves: seq<Byte>, req: Request, reply: seq<Byte>, resp: Response)
    requires W.Exchange(bank, slaves, req, bank, reply, resp) && req.transport == Tcp
    ensures W.Serve(bank, slaves, Tcp, RequestBytes(req)) == W.Served(bank, reply) && Parse(reply, Tcp) == Some(resp)
  {
    hide W.Serve;
    hide Parse;
    hide RequestBytes;
  }

  lemma Paired(st: P.State, slave: Byte, regs: SV.Regs, req: Request, reply: seq<Byte>, resp: Response)
    requires Parse(reply, Tcp) == Some(resp) && W.ReadAnswered(regs, req, resp)
    requires req.transport == Tcp && Awaits(st, req.transactionId, slave)
    ensures Delivers(st, slave, reply, resp)
  {
    hide Parse;
  }

  lemma Completed(seg: Segment, bank: SV.Bank, slaves: seq<Byte>, st: P.State, tid: Word, reply: seq<Byte>,
                  resp: Response)
    requires seg.slave in bank
    requires var (st', frame) := P.Write(st, Tcp, PollRequest(seg), seg.slave);
      && frame == RequestBytes(PollAs(seg, tid)) && tid in st'.inFlight
      && st'.inFlight[tid] == P.InFlight(seg.slave, seg.slave)
    requires tid != P.INVALID_ID && tid !in st.used
    requires W.Serve(bank, slaves, Tcp, RequestBytes(PollAs(seg, tid))) == W.Served(bank, reply)
    requires forall later: P.State :: Awaits(later, tid, seg.slave) ==> Delivers(later, seg.slave, reply, resp)
    requires Told(seg, bank[seg.slave], resp)
    ensures Polled(seg, bank, slaves, st, tid, reply, resp)
  {
    hide P.Write;
    hide RequestBytes;
    hide W.Serve;
    hide Told;
    hide Awaits;
    hide Delivers;
  }
}
