/** From the slave's cells to the engineering value of a polled point. */
module PolledValues {
  import opened Bytes
  import opened ModbusFrame
  import opened Planner
  import opened Polling
  import opened PointDecoding
  import P = Pairing
  import SV = SlaveValues

  /** What the point table holds for a point besides its place. */
  datatype Format = Format(order: ByteOrder, scale: real, offset: real)

  const ZEROS: seq<Byte> := [0, 0, 0, 0, 0, 0, 0, 0]

  /** What the driver publishes for a sample: bits, the simulator's single-register floats, and the types
      that decode without a floating-point layout. */
  function Published(p: Point, s: Sample, fmt: Format): Option<real> {
    match s
    case BitSample(_, on) => Some(Scaled(if on then 1 else 0, fmt.scale, fmt.offset))
    case WordSample(_, raw) =>
      if p.dataType.Float32? then
        if |raw| < 1 then None else Some(Scaled(raw[0], fmt.scale, fmt.offset))
      else if !IsExact(p.dataType) || |raw| > MAX_REGISTERS then None
      else Some(Decode(Reassembled(raw, fmt.order, ZEROS), p.dataType, fmt.scale, fmt.offset))
  }

  /** The slave shows the engineering value `e` at the point: its raw value, scaled, is `e` less the
      offset. */
  ghost predicate Shows(regs: SV.Regs, p: Point, fmt: Format, e: real) {
    exists r: int :: ShowsRaw(regs, p, fmt, r) && Worth(r, fmt, e)
  }

  predicate Worth(r: int, fmt: Format, e: real) { r as real * fmt.scale == e - fmt.offset }

  /** The slave shows the raw value `v` at the point: a bit, one raw register for a float, one byte of a
      register for a Bool, or the registers of an integer laid out in the point's byte order. */
  ghost predicate ShowsRaw(regs: SV.Regs, p: Point, fmt: Format, v: int) {
    match p.regType
    case Coil => v == if SV.BitAt(regs.coils, p.addr) then 1 else 0
    case DiscreteInput => v == if SV.BitAt(regs.discretes, p.addr) then 1 else 0
    case HoldingRegister => WordsShow(regs.holding, p, fmt, v)
    case InputRegister => WordsShow(regs.input, p, fmt, v)
  }

  /** The byte of its register that a Bool point looks at. */
  function SeenByte(w: Word, order: ByteOrder): Byte {
    match order
    case ABCD => Hi(w)
    case BADC => Lo(w)
    case DCBA => Lo(w)
    case CDAB => 0
  }

  lemma BoolPublished(words: seq<Word>, p: Point, fmt: Format, v: int, raw: seq<Word>)
    requires p.dataType.Bool? && WordsShow(words, p, fmt, v) && raw == SV.ReadWords(words, p.addr, 1)
    ensures Published(p, WordSample(p.pointId, raw), fmt) == Some(Scaled(v, fmt.scale, fmt.offset))
  {
    var w := SV.WordAt(words, p.addr);
    assert raw == [w] by {
      assert SV.Cell(p.addr, 0) == p.addr;
    }
    BoolSeesOneByte(w, fmt.order);
    assert ZEROS == seq(8, _ => 0);
    hide Scaled;
    hide Reassembled;
  }

  ghost predicate WordsShow(words: seq<Word>, p: Point, fmt: Format, v: int) {
    if p.dataType.Float32? then v == SV.WordAt(words, p.addr)
    else if p.dataType.Bool? then v == if SeenByte(SV.WordAt(words, p.addr), fmt.order) != 0 then 1 else 0
    else
      && Representable(v, p.dataType) && Complete(fmt.order, RegisterCountFor(p.dataType))
      && SV.ReadWords(words, p.addr, RegisterCountFor(p.dataType)) == Layout(Encode(v, p.dataType), fmt.order)
  }

  lemma WordsPublished(words: seq<Word>, p: Point, fmt: Format, v: int, raw: seq<Word>)
    requires WordsShow(words, p, fmt, v) && raw == SV.ReadWords(words, p.addr, RawCount(p))
    ensures Published(p, WordSample(p.pointId, raw), fmt) == Some(Scaled(v, fmt.scale, fmt.offset))
  {
    hide Scaled;
    hide Decode;
    hide Reassembled;
    hide Layout;
    hide Encode;
    if p.dataType.Bool? {
      BoolPublished(words, p, fmt, v, raw);
    } else if !p.dataType.Float32? {
      RoundTripScaled(v, p.dataType, fmt.order, ZEROS, fmt.scale, fmt.offset);
    }
  }

  /** A point that is told the truth publishes the engineering value the slave shows. */
  lemma TruthPublished(regs: SV.Regs, p: Point, fmt: Format, e: real, s: Sample)
    requires TellsTruth(regs, p, s) && Shows(regs, p, fmt, e)
    ensures Published(p, s, fmt) == Some(e)
  {
    hide TellsTruth;
    hide ShowsRaw;
    hide Worth;
    var r: int :| ShowsRaw(regs, p, fmt, r) && Worth(r, fmt, e);
    hide Shows;
    RawPublished(regs, p, fmt, r, s);
    hide Published;
    WorthScaled(r, fmt, e);
    hide Scaled;
  }

  lemma WorthScaled(r: int, fmt: Format, e: real)
    requires Worth(r, fmt, e)
    ensures Scaled(r, fmt.scale, fmt.offset) == e
  {
    ScaledBack(r, fmt.scale, fmt.offset, e);
  }

  lemma RawPublished(regs: SV.Regs, p: Point, fmt: Format, v: int, s: Sample)
    requires TellsTruth(regs, p, s) && ShowsRaw(regs, p, fmt, v)
    ensures Published(p, s, fmt) == Some(Scaled(v, fmt.scale, fmt.offset))
  {
    hide Scaled;
    hide WordsShow;
    hide SV.ReadWords;
    if p.regType.HoldingRegister? {
      WordsPublished(regs.holding, p, fmt, v, s.raw);
    } else if p.regType.InputRegister? {
      WordsPublished(regs.input, p, fmt, v, s.raw);
    }
  }

  /** Every value that the slave shows at a point of the segment is published. */
  ghost predicate AllPublished(seg: Segment, regs: SV.Regs, formats: nat -> Format, resp: Response)
    requires forall p :: p in seg.points ==> seg.startAddr <= p.addr
  {
    var samples := SamplesOf(seg, seg.points, resp);
    && |samples| == |seg.points|
    && forall i, e :: 0 <= i < |samples| && Shows(regs, seg.points[i], formats(seg.points[i].pointId), e) ==>
         Published(seg.points[i], samples[i], formats(seg.points[i].pointId)) == Some(e)
  }

  lemma ToldPublished(seg: Segment, regs: SV.Regs, formats: nat -> Format, resp: Response)
    requires Told(seg, regs, resp) && !resp.isException
    requires forall p :: p in seg.points ==> seg.startAddr <= p.addr
    ensures AllPublished(seg, regs, formats, resp)
  {
    var samples := SamplesOf(seg, seg.points, resp);
    hide SamplesOf;
    hide Shows;
    hide Published;
    forall i, e | 0 <= i < |samples| && Shows(regs, seg.points[i], formats(seg.points[i].pointId), e)
      ensures Published(seg.points[i], samples[i], formats(seg.points[i].pointId)) == Some(e)
    {
      TruthPublished(regs, seg.points[i], formats(seg.points[i].pointId), e, samples[i]);
    }
  }

  /** A poll that ends in published values, or in exception 2. */
  ghost predicate Valued(seg: Segment, formats: nat -> Format, bank: SV.Bank, slaves: seq<Byte>, st: P.State,
                         tid: Word, reply: seq<Byte>, resp: Response)
    requires seg.slave in bank && forall p :: p in seg.points ==> seg.startAddr <= p.addr
  {
    && Polled(seg, bank, slaves, st, tid, reply, resp)
    && (!resp.isException ==> AllPublished(seg, bank[seg.slave], formats, resp))
  }

  /** From the request to the engineering values: a planned segment of a known slave that the engine can
      write publishes, for every one of its points, the value the slave shows. */
  lemma PolledValue(points: seq<Point>, segments: seq<Segment>, k: nat, formats: nat -> Format, bank: SV.Bank,
                    slaves: seq<Byte>, st: P.State)
    requires Planned(points, segments) && k < |segments| && st.used == st.inFlight.Keys
    requires segments[k].slave in slaves && segments[k].slave in bank
    requires P.Write(st, Tcp, PollRequest(segments[k]), segments[k].slave).1 != []
    ensures forall p :: p in segments[k].points ==> segments[k].startAddr <= p.addr
    ensures exists tid, reply, resp :: Valued(segments[k], formats, bank, slaves, st, tid, reply, resp)
  {
    var seg := segments[k];
    assert Proper(seg);
    assert forall p :: p in seg.points ==> Inside(p, ReadOf(seg));
    hide *;
    PollCycle(points, segments, k, bank, slaves, st);
    var tid, reply, resp :| Polled(seg, bank, slaves, st, tid, reply, resp);
    PolledTold(seg, bank, slaves, st, tid, reply, resp);
    if !resp.isException {
      ToldPublished(seg, bank[seg.slave], formats, resp);
    }
    Concluded(seg, formats, bank, slaves, st, tid, reply, resp);
  }

  lemma PolledTold(seg: Segment, bank: SV.Bank, slaves: seq<Byte>, st: P.State, tid: Word, reply: seq<Byte>,
                   resp: Response)
    requires seg.slave in bank && Polled(seg, bank, slaves, st, tid, reply, resp)
    ensures Told(seg, bank[seg.slave], resp)
  {
    hide Told;
    hide Delivers;
  }

  lemma Concluded(seg: Segment, formats: nat -> Format, bank: SV.Bank, slaves: seq<Byte>, st: P.State,
                  tid: Word, reply: seq<Byte>, resp: Response)
    requires seg.slave in bank && forall p :: p in seg.points ==> seg.startAddr <= p.addr
    requires Polled(seg, bank, slaves, st, tid, reply, resp)
    requires !resp.isException ==> AllPublished(seg, bank[seg.slave], formats, resp)
    ensures Valued(seg, formats, bank, slaves, st, tid, reply, resp)
  {
    hide Polled;
    hide AllPublished;
  }
}
