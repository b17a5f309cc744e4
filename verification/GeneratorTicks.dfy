/** The simulator's data tick between a write and the read that follows it. */
module GeneratorTicks {
  import opened Bytes
  import opened ModbusFrame
  import opened WirePath
  import SV = SlaveValues

  /** A tick publishes one slave's working image. The generator computes it from its own state and never
      from the bank, so an acknowledged write is not in it. */
  datatype Tick = Tick(slave: Byte, image: SV.Regs)

  function AfterTicks(bank: SV.Bank, ticks: seq<Tick>): SV.Bank {
    if ticks == [] then bank
    else
      var last := ticks[|ticks| - 1];
      AfterTicks(bank, ticks[..|ticks| - 1])[last.slave := last.image]
  }

  /** The image that the last tick of the slave published. */
  function LastImage(ticks: seq<Tick>, slave: Byte): Option<SV.Regs> {
    if ticks == [] then None
    else
      var last := ticks[|ticks| - 1];
      if last.slave == slave then Some(last.image) else LastImage(ticks[..|ticks| - 1], slave)
  }

  lemma {:induction false} LastImageNone(ticks: seq<Tick>, slave: Byte)
    ensures LastImage(ticks, slave) == None <==> forall t :: t in ticks ==> t.slave != slave
  {
    if ticks != [] {
      var front, last := ticks[..|ticks| - 1], ticks[|ticks| - 1];
      assert ticks == front + [last];
      LastImageNone(front, slave);
    }
  }

  lemma {:induction false} Published(bank: SV.Bank, ticks: seq<Tick>, slave: Byte)
    requires slave in bank
    ensures slave in AfterTicks(bank, ticks)
    ensures AfterTicks(bank, ticks)[slave]
         == match LastImage(ticks, slave) { case None => bank[slave] case Some(image) => image }
  {
    if ticks != [] {
      Published(bank, ticks[..|ticks| - 1], slave);
    }
  }

  /** The registers hold what the write carries, at the addresses it names. */
  ghost predicate Carries(regs: SV.Regs, w: Request)
    requires WriteRequest(w)
  {
    && InRange(regs, w)
    && (if WritesBits(w) then SV.ReadBits(regs.coils, w.address, WriteCount(w)) == CoilValues(w)
        else SV.ReadWords(regs.holding, w.address, WriteCount(w)) == w.registers)
  }

  /** A write, then ticks, then a read. */
  ghost predicate Exchanged(bank: SV.Bank, slaves: seq<Byte>, w: Request, ticks: seq<Tick>, r: Request,
                            written: SV.Bank, ack: seq<Byte>, acked: Response, reply: seq<Byte>, answer: Response) {
    && Exchange(bank, slaves, w, written, ack, acked) && !acked.isException
    && var ticked := AfterTicks(written, ticks);
       Exchange(ticked, slaves, r, ticked, reply, answer)
  }

  ghost predicate Survives(ticks: seq<Tick>, w: Request)
    requires WriteRequest(w)
  {
    || (forall t :: t in ticks ==> t.slave != w.slave)
    || (LastImage(ticks, w.slave).Some? && Carries(LastImage(ticks, w.slave).value, w))
  }

  /** An acknowledged write is read back if and only if no tick of its slave lies between, or the last one
      happens to publish the same values. */
  lemma WriteSurvives(bank: SV.Bank, slaves: seq<Byte>, w: Request, ticks: seq<Tick>, r: Request)
    requires WriteRequest(w) && w.slave in slaves && w.slave in bank && InRange(bank[w.slave], w)
    requires RequestBytes(r) != [] && r.slave == w.slave && r.fc == (if WritesBits(w) then 0x01 else 0x03)
    requires r.address == w.address && r.quantity == WriteCount(w)
    ensures exists written, ack, acked, reply, answer ::
              Exchanged(bank, slaves, w, ticks, r, written, ack, acked, reply, answer)
              && (ReadsBack(w, r, answer) <==> Survives(ticks, w))
  {
    assert r.fc in {0x01, 0x02, 0x03, 0x04};
    hide *;
    WriteEndToEnd(bank, slaves, w);
    var written, ack, acked :| WriteTold(bank, slaves, w, written, ack, acked);
    WrittenOf(bank, slaves, w, written, ack, acked);
    AfterWrite(bank, w, written, acked);
    Acknowledged(bank, w, written, acked);
    var ticked := AfterTicks(written, ticks);
    Published(written, ticks, w.slave);
    ReadEndToEnd(ticked, slaves, r);
    var reply, answer :| ReadTold(ticked, slaves, r, reply, answer);
    ToldOf(ticked, slaves, r, reply, answer);
    ReadsWhatIsThere(ticked[w.slave], w, r, answer);
    Outcome(bank[w.slave], written, ticks, w);
    Composed(bank, slaves, w, ticks, r, written, ack, acked, reply, answer);
  }

  lemma Composed(bank: SV.Bank, slaves: seq<Byte>, w: Request, ticks: seq<Tick>, r: Request,
                 written: SV.Bank, ack: seq<Byte>, acked: Response, reply: seq<Byte>, answer: Response)
    requires Exchange(bank, slaves, w, written, ack, acked) && !acked.isException
    requires Exchange(AfterTicks(written, ticks), slaves, r, AfterTicks(written, ticks), reply, answer)
    ensures Exchanged(bank, slaves, w, ticks, r, written, ack, acked, reply, answer)
  {
    hide Exchange;
    hide AfterTicks;
  }

  lemma Acknowledged(bank: SV.Bank, w: Request, after: SV.Bank, resp: Response)
    requires WriteRequest(w) && w.slave in bank && InRange(bank[w.slave], w)
    requires WriteAnswered(bank, w, after, resp)
    ensures !resp.isException
  {
    hide Written;
  }

  lemma Outcome(regs: SV.Regs, written: SV.Bank, ticks: seq<Tick>, w: Request)
    requires WriteRequest(w) && w.slave in written && InRange(regs, w) && Written(regs, w, written[w.slave])
    requires w.slave in AfterTicks(written, ticks)
    requires AfterTicks(written, ticks)[w.slave]
          == match LastImage(ticks, w.slave) { case None => written[w.slave] case Some(image) => image }
    ensures Carries(AfterTicks(written, ticks)[w.slave], w) <==> Survives(ticks, w)
  {
    WrittenCarries(regs, w, written[w.slave]);
    LastImageNone(ticks, w.slave);
    hide Carries;
    hide Written;
    hide AfterTicks;
    hide LastImage;
  }

  lemma WrittenCarries(regs: SV.Regs, w: Request, regs': SV.Regs)
    requires WriteRequest(w) && InRange(regs, w) && Written(regs, w, regs')
    ensures Carries(regs', w)
  {
    SameSizes(regs, w, regs');
    if WritesBits(w) {
      BitsReadBack(regs, w, regs');
    } else {
      WordsReadBack(regs, w, regs');
    }
    hide Written;
  }

  lemma ReadsWhatIsThere(regs: SV.Regs, w: Request, r: Request, answer: Response)
    requires WriteRequest(w) && r.address == w.address && r.quantity == WriteCount(w)
    requires r.fc == (if WritesBits(w) then 0x01 else 0x03)
    requires ReadAnswered(regs, r, answer)
    ensures ReadsBack(w, r, answer) <==> Carries(regs, w)
  {
    hide SV.UnpackBits;
    hide SV.ReadBits;
    hide SV.ReadWords;
  }
}
