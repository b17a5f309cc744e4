/** Both ends of the wire together: a request built on the host, served by the slave and parsed on
    the host again. */
module WirePath {
  import opened Bytes
  import opened Crc16
  import opened Framing
  import opened ModbusFrame
  import opened MbapCodec
  import SV = SlaveValues

  const MAX_SERVER_PDU: nat := 255

  /** Header, function code, byte count and at most 255 data bytes. */
  const MAX_REPLY: nat := 264

  /** What a server does with its input: the new bank and the reply, or no reply. */
  datatype Served = Dropped | Served(bank: SV.Bank, reply: seq<Byte>)

  /** One round of the TCP server: header, then `length - 1` bytes of PDU; bad lengths drop the
      connection. */
  function ServeTcp(bank: SV.Bank, slaves: seq<Byte>, input: seq<Byte>): Served {
    match ParseHeader(input)
    case None => Dropped
    case Some(h) =>
      if h.length < 2 || h.length - 1 > MAX_SERVER_PDU || |input| < 6 + h.length then Dropped
      else
        var (bank', pdu) := SV.Handle(bank, slaves, h.unitId, input[7..6 + h.length]);
        Served(bank', HeaderBytes(Header(h.transactionId, 0, Wrap(|pdu| + 1), h.unitId)) + pdu)
  }

  /** One RTU frame, delimited by silence. */
  function ServeRtu(bank: SV.Bank, slaves: seq<Byte>, frame: seq<Byte>): Served {
    if !Verifies(frame) then Dropped
    else
      var (bank', pdu) := SV.Handle(bank, slaves, frame[0], frame[1..|frame| - 2]);
      Served(bank', Seal([frame[0]] + pdu))
  }

  function Serve(bank: SV.Bank, slaves: seq<Byte>, transport: Transport, input: seq<Byte>): Served {
    if transport == Tcp then ServeTcp(bank, slaves, input) else ServeRtu(bank, slaves, input)
  }

  /** A reply PDU on the wire. */
  function Framed(transport: Transport, transactionId: Word, unit: Byte, pdu: seq<Byte>): seq<Byte> {
    if transport == Tcp then HeaderBytes(Header(transactionId, 0, Wrap(|pdu| + 1), unit)) + pdu
    else Seal([unit] + pdu)
  }

  /** The request's PDU has reached the handler unchanged, and its answer has been framed. */
  ghost predicate Arrived(bank: SV.Bank, slaves: seq<Byte>, req: Request, bank': SV.Bank, pdu: seq<Byte>) {
    && SV.Handle(bank, slaves, req.slave, RequestPdu(req)) == (bank', pdu)
    && Serve(bank, slaves, req.transport, RequestBytes(req))
       == Served(bank', Framed(req.transport, req.transactionId, req.slave, pdu))
  }

  lemma BehindHeader(h: Header, pdu: seq<Byte>)
    requires h.length == 1 + |pdu|
    ensures |HeaderBytes(h) + pdu| == 6 + h.length && (HeaderBytes(h) + pdu)[7..6 + h.length] == pdu
  {
    var b := HeaderBytes(h);
    hide HeaderBytes;
    assert (b + pdu)[7..] == pdu;
  }

  /** Both servers hand the host's PDU, unchanged, to the addressed slave, and frame its answer. */
  lemma RequestArrives(bank: SV.Bank, slaves: seq<Byte>, req: Request)
    requires RequestBytes(req) != [] && (req.transport == Tcp ==> |RequestPdu(req)| <= MAX_SERVER_PDU)
    ensures exists bank', reply :: Arrived(bank, slaves, req, bank', reply)
  {
    WordInverse();
    hide Hi;
    hide Lo;
    hide BE;
    hide Crc;
    hide SV.Handle;
    hide RequestPdu;
    var pdu := RequestPdu(req);
    if req.transport == Tcp {
      var h := Header(req.transactionId, 0, 1 + |pdu|, req.slave);
      assert Mbap(req.transactionId, req.slave, |pdu|) == HeaderBytes(h);
      HeaderRoundTrip(h, pdu);
      BehindHeader(h, pdu);
    } else {
      var body := [req.slave] + pdu;
      SealVerifies(body);
      assert Seal(body)[..|body|] == body;
      assert Seal(body)[1..|Seal(body)| - 2] == pdu;
    }
    var (bank', reply) := SV.Handle(bank, slaves, req.slave, pdu);
    assert Arrived(bank, slaves, req, bank', reply);
  }

  // ---- what a reply PDU means to the host ----

  /** Reply PDUs a slave may send: exception, read data, write echo. */
  ghost predicate ReplyPdu(pdu: seq<Byte>) {
    |pdu| >= 2 &&
    if pdu[0] >= 0x80 then |pdu| == 2
    else if pdu[0] in {0x01, 0x02, 0x03, 0x04} then |pdu| == 2 + pdu[1] as nat && (pdu[0] >= 0x03 ==> pdu[1] % 2 == 0)
    else pdu[0] in {0x05, 0x06, 0x0F, 0x10} && |pdu| == 5
  }

  function Meaning(transport: Transport, transactionId: Word, unit: Byte, pdu: seq<Byte>): Response
    requires ReplyPdu(pdu)
  {
    var resp := Fresh(transport, if transport == Tcp then transactionId else 0, unit, pdu[0]);
    if pdu[0] >= 0x80 then resp.(isException := true, exceptionCode := pdu[1])
    else if pdu[0] <= 0x02 then resp.(coils := pdu[2..])
    else if pdu[0] <= 0x04 then resp.(registers := BytesWords(pdu[2..]))
    else if pdu[0] <= 0x06 then
      // the two parsers differ here: TCP keeps the address field, RTU the value field
      resp.(registers := [if transport == Tcp then BE(pdu[1], pdu[2]) else BE(pdu[3], pdu[4])])
    else resp
  }

  lemma ReplyUnderstoodTcp(transactionId: Word, unit: Byte, pdu: seq<Byte>)
    requires ReplyPdu(pdu)
    ensures var f := Framed(Tcp, transactionId, unit, pdu);
      GoodTcp(f) && ParseTcp(f) == Some(Meaning(Tcp, transactionId, unit, pdu))
  {
    WordInverse();
    hide Hi;
    hide Lo;
    hide BE;
    var h := Header(transactionId, 0, |pdu| + 1, unit);
    var f := HeaderBytes(h) + pdu;
    HeaderRoundTrip(h, pdu);
    assert f[7] == pdu[0] && f[8] == pdu[1];
    assert f[9..] == pdu[2..];
    assert BE(f[4], f[5]) == |pdu| + 1 && BE(f[2], f[3]) == 0 && BE(f[0], f[1]) == transactionId;
    if pdu[0] in {0x01, 0x02, 0x03, 0x04} {
      assert f[9..9 + f[8] as nat] == pdu[2..];
    } else if pdu[0] in {0x05, 0x06} {
      assert f[9] == pdu[2];
    }
  }

  lemma ReplyUnderstoodRtu(unit: Byte, pdu: seq<Byte>)
    requires ReplyPdu(pdu)
    ensures var f := Framed(Rtu, 0, unit, pdu);
      GoodRtu(f) && ParseRtu(f) == Some(Meaning(Rtu, 0, unit, pdu))
  {
    WordInverse();
    hide Hi;
    hide Lo;
    hide BE;
    hide Crc;
    var body := [unit] + pdu;
    SealVerifies(body);
    var f := Seal(body);
    hide Verifies;
    assert f[0] == unit && f[1] == pdu[0] && f[2] == pdu[1];
    assert |f| == |pdu| + 3;
    if pdu[0] in {0x01, 0x02, 0x03, 0x04} {
      assert f[3..3 + f[2] as nat] == pdu[2..];
    } else if pdu[0] in {0x05, 0x06} {
      assert f[4] == pdu[3] && f[5] == pdu[4];
    }
  }

  /** A framed reply is a good frame of its transport and is parsed to its meaning. */
  lemma ReplyUnderstood(transport: Transport, transactionId: Word, unit: Byte, pdu: seq<Byte>)
    requires ReplyPdu(pdu)
    ensures var f := Framed(transport, transactionId, unit, pdu);
      && Good(f, transport == Tcp) && |f| <= MAX_REPLY
      && Parse(f, transport) == Some(Meaning(transport, transactionId, unit, pdu))
  {
    hide Crc;
    if transport == Tcp {
      ReplyUnderstoodTcp(transactionId, unit, pdu);
    } else {
      ReplyUnderstoodRtu(unit, pdu);
    }
  }

  /** One exchange: the request is built on the host and served; the reply is a frame of its transport
      that the stream accumulator takes, and the host parses it to `answer`. */
  ghost predicate Exchange(bank: SV.Bank, slaves: seq<Byte>, req: Request, bank': SV.Bank, reply: seq<Byte>,
                           answer: Response) {
    && Serve(bank, slaves, req.transport, RequestBytes(req)) == Served(bank', reply)
    && Good(reply, req.transport == Tcp) && |reply| <= MAX_REPLY
    && Parse(reply, req.transport) == Some(answer)
  }

  /** What the slave's handler answers is what the host is told. */
  ghost predicate Relayed(bank: SV.Bank, slaves: seq<Byte>, req: Request, reply: seq<Byte>) {
    var (bank', pdu) := SV.Handle(bank, slaves, req.slave, RequestPdu(req));
    ReplyPdu(pdu)
      && Exchange(bank, slaves, req, bank', reply, Meaning(req.transport, req.transactionId, req.slave, pdu))
  }

  lemma AnswerRelayed(bank: SV.Bank, slaves: seq<Byte>, req: Request)
    requires RequestBytes(req) != [] && (req.transport == Tcp ==> |RequestPdu(req)| <= MAX_SERVER_PDU)
    requires ReplyPdu(SV.Handle(bank, slaves, req.slave, RequestPdu(req)).1)
    ensures exists reply :: Relayed(bank, slaves, req, reply)
  {
    hide *;
    RequestArrives(bank, slaves, req);
    var bank', pdu :| Arrived(bank, slaves, req, bank', pdu);
    var reply := Framed(req.transport, req.transactionId, req.slave, pdu);
    ArrivedMeans(bank, slaves, req, bank', pdu);
    ReplyUnderstood(req.transport, req.transactionId, req.slave, pdu);
    Assembled(bank, slaves, req, bank', reply, Meaning(req.transport, req.transactionId, req.slave, pdu));
    RelayedOf(bank, slaves, req, reply);
  }

  lemma RelayedOf(bank: SV.Bank, slaves: seq<Byte>, req: Request, reply: seq<Byte>)
    ensures var (bank', pdu) := SV.Handle(bank, slaves, req.slave, RequestPdu(req));
      Relayed(bank, slaves, req, reply) <==>
        ReplyPdu(pdu)
          && Exchange(bank, slaves, req, bank', reply, Meaning(req.transport, req.transactionId, req.slave, pdu))
  {
    hide SV.Handle;
    hide RequestPdu;
    hide ReplyPdu;
    hide Exchange;
  }

  lemma ArrivedMeans(bank: SV.Bank, slaves: seq<Byte>, req: Request, bank': SV.Bank, pdu: seq<Byte>)
    requires Arrived(bank, slaves, req, bank', pdu)
    ensures SV.Handle(bank, slaves, req.slave, RequestPdu(req)) == (bank', pdu)
    ensures Serve(bank, slaves, req.transport, RequestBytes(req))
         == Served(bank', Framed(req.transport, req.transactionId, req.slave, pdu))
  {
  }

  lemma Assembled(bank: SV.Bank, slaves: seq<Byte>, req: Request, bank': SV.Bank, reply: seq<Byte>, answer: Response)
    requires Serve(bank, slaves, req.transport, RequestBytes(req)) == Served(bank', reply)
    requires Good(reply, req.transport == Tcp) && |reply| <= MAX_REPLY && Parse(reply, req.transport) == Some(answer)
    ensures Exchange(bank, slaves, req, bank', reply, answer)
  {
  }

  // ---- reads ----

  function ReadLimit(fc: Byte): nat { if fc <= 0x02 then 2000 else 125 }

  function CellCount(regs: SV.Regs, fc: Byte): nat {
    if fc == 0x01 then |regs.coils| * 8
    else if fc == 0x02 then |regs.discretes| * 8
    else if fc == 0x03 then |regs.holding|
    else |regs.input|
  }

  /** What a host must be told about a read of `regs`. */
  ghost predicate ReadAnswered(regs: SV.Regs, req: Request, resp: Response) {
    && resp.slave == req.slave
    && resp.transactionId == (if req.transport == Tcp then req.transactionId else 0)
    && (if req.quantity > ReadLimit(req.fc) then
          resp.isException && resp.exceptionCode == 0x03 && resp.fc == req.fc + 0x80
        else if req.address + req.quantity > CellCount(regs, req.fc) then
          resp.isException && resp.exceptionCode == 0x02 && resp.fc == req.fc + 0x80
        else
          && !resp.isException && resp.fc == req.fc
          && (req.fc <= 0x02 ==>
                && |resp.coils| == (req.quantity + 7) / 8
                && SV.UnpackBits(resp.coils, req.quantity)
                   == SV.ReadBits(if req.fc == 0x01 then regs.coils else regs.discretes, req.address, req.quantity))
          && (req.fc >= 0x03 ==>
                resp.registers
                == SV.ReadWords(if req.fc == 0x03 then regs.holding else regs.input, req.address, req.quantity)))
  }

  lemma ReadPdu(req: Request)
    requires req.fc in {0x01, 0x02, 0x03, 0x04} && req.quantity > 0
    ensures var pdu := RequestPdu(req);
      && |pdu| == 5 && pdu[0] == req.fc
      && BE(pdu[1], pdu[2]) == req.address && BE(pdu[3], pdu[4]) == req.quantity
  {
    WordInverse();
    hide Hi;
    hide Lo;
    hide BE;
  }

  lemma BitsReplyMeans(bytes: seq<Byte>, req: Request, pdu: seq<Byte>)
    requires req.fc in {0x01, 0x02}
    requires |pdu| == 5 && BE(pdu[1], pdu[2]) == req.address && BE(pdu[3], pdu[4]) == req.quantity > 0
    requires req.quantity <= 2000 && req.address + req.quantity <= |bytes| * 8
    ensures var reply := SV.BitsReply(req.fc, bytes, pdu).bytes;
      && ReplyPdu(reply) && reply[0] == req.fc && |reply[2..]| == (req.quantity + 7) / 8
      && SV.UnpackBits(reply[2..], req.quantity) == SV.ReadBits(bytes, req.address, req.quantity)
  {
    WordInverse();
    hide Hi;
    hide Lo;
    hide BE;
    var bits := SV.ReadBits(bytes, req.address, req.quantity);
    var reply := SV.BitsReply(req.fc, bytes, pdu).bytes;
    assert reply[2..] == SV.PackBits(bits);
    SV.PackRoundTrip(bits);
  }

  lemma WordsReplyMeans(ws: seq<Word>, req: Request, pdu: seq<Byte>)
    requires req.fc in {0x03, 0x04}
    requires |pdu| == 5 && BE(pdu[1], pdu[2]) == req.address && BE(pdu[3], pdu[4]) == req.quantity > 0
    requires req.quantity <= 125 && req.address + req.quantity <= |ws|
    ensures var reply := SV.WordsReply(req.fc, ws, pdu).bytes;
      && ReplyPdu(reply) && reply[0] == req.fc
      && BytesWords(reply[2..]) == SV.ReadWords(ws, req.address, req.quantity)
  {
    WordInverse();
    hide Hi;
    hide Lo;
    hide BE;
    var values := SV.ReadWords(ws, req.address, req.quantity);
    var reply := SV.WordsReply(req.fc, ws, pdu).bytes;
    assert reply[2..] == WordBytes(values);
    WordBytesRoundTrip(values);
  }

  /** A slave's answer to a read PDU, seen through the host's parser. */
  lemma ReadReplyMeans(regs: SV.Regs, req: Request)
    requires req.fc in {0x01, 0x02, 0x03, 0x04} && req.quantity > 0
    ensures var (regs', reply) := SV.Dispatch(regs, RequestPdu(req), false);
      regs' == regs && ReplyPdu(reply.bytes)
      && ReadAnswered(regs, req, Meaning(req.transport, req.transactionId, req.slave, reply.bytes))
  {
    WordInverse();
    hide Hi;
    hide Lo;
    hide BE;
    var pdu := RequestPdu(req);
    ReadPdu(req);
    if req.quantity <= ReadLimit(req.fc) && req.address + req.quantity <= CellCount(regs, req.fc) {
      if req.fc <= 0x02 {
        BitsReplyMeans(if req.fc == 0x01 then regs.coils else regs.discretes, req, pdu);
      } else {
        WordsReplyMeans(if req.fc == 0x03 then regs.holding else regs.input, req, pdu);
      }
    }
  }

  lemma ReadHandled(bank: SV.Bank, slaves: seq<Byte>, req: Request)
    requires req.fc in {0x01, 0x02, 0x03, 0x04} && req.quantity > 0
    requires req.slave in slaves && req.slave in bank
    ensures |RequestPdu(req)| == 5
    ensures var (bank', pdu) := SV.Handle(bank, slaves, req.slave, RequestPdu(req));
      && bank' == bank && ReplyPdu(pdu)
      && ReadAnswered(bank[req.slave], req, Meaning(req.transport, req.transactionId, req.slave, pdu))
  {
    ReadPdu(req);
    ReadReplyMeans(bank[req.slave], req);
    hide SV.Dispatch;
    hide RequestPdu;
    hide ReadAnswered;
    hide BE;
  }

  /** The host is told exactly what the slave holds, and the bank is untouched. */
  ghost predicate ReadTold(bank: SV.Bank, slaves: seq<Byte>, req: Request, reply: seq<Byte>, answer: Response)
    requires req.slave in bank
  {
    Exchange(bank, slaves, req, bank, reply, answer) && ReadAnswered(bank[req.slave], req, answer)
  }

  /** End to end: every FC01-04 request the host can build for a listed slave comes back, over TCP
      or RTU, as exactly the slave's cells or exactly the exception the range checks dictate; the
      bank is untouched, and the reply is a frame the stream accumulator re-assembles. */
  lemma ReadEndToEnd(bank: SV.Bank, slaves: seq<Byte>, req: Request)
    requires req.fc in {0x01, 0x02, 0x03, 0x04} && RequestBytes(req) != []
    requires req.slave in slaves && req.slave in bank
    ensures exists reply, answer :: ReadTold(bank, slaves, req, reply, answer)
  {
    assert req.quantity > 0;
    ReadHandled(bank, slaves, req);
    hide *;
    AnswerRelayed(bank, slaves, req);
    var reply :| Relayed(bank, slaves, req, reply);
    RelayedOf(bank, slaves, req, reply);
    var pdu := SV.Handle(bank, slaves, req.slave, RequestPdu(req)).1;
    ToldOf(bank, slaves, req, reply, Meaning(req.transport, req.transactionId, req.slave, pdu));
  }

  lemma ToldOf(bank: SV.Bank, slaves: seq<Byte>, req: Request, reply: seq<Byte>, answer: Response)
    requires req.slave in bank
    ensures ReadTold(bank, slaves, req, reply, answer)
      <==> Exchange(bank, slaves, req, bank, reply, answer) && ReadAnswered(bank[req.slave], req, answer)
  {
  }

  ghost predicate KnownRead(bank: SV.Bank, slaves: seq<Byte>, transport: Transport, req: Request) {
    && req.fc in {0x01, 0x02, 0x03, 0x04} && RequestBytes(req) != [] && req.transport == transport
    && req.slave in slaves && req.slave in bank
  }

  ghost predicate Replied(bank: SV.Bank, slaves: seq<Byte>, req: Request, reply: seq<Byte>) {
    Serve(bank, slaves, req.transport, RequestBytes(req)) == Served(bank, reply)
  }

  ghost predicate Delivered(bank: SV.Bank, req: Request, frame: seq<Byte>) {
    && req.slave in bank && Parse(frame, req.transport).Some?
    && ReadAnswered(bank[req.slave], req, Parse(frame, req.transport).value)
  }

  lemma EachReply(bank: SV.Bank, slaves: seq<Byte>, transport: Transport, req: Request, reply: seq<Byte>)
    requires KnownRead(bank, slaves, transport, req) && Replied(bank, slaves, req, reply)
    ensures Good(reply, transport == Tcp) && |reply| <= MAX_REPLY && Delivered(bank, req, reply)
  {
    ReadEndToEnd(bank, slaves, req);
    hide Serve;
    hide Parse;
    hide RequestBytes;
    hide ReadAnswered;
    hide Good;
    var r, answer :| ReadTold(bank, slaves, req, r, answer);
    assert r == reply;
  }

  /** A series of reads whose replies arrive as one byte stream, cut anywhere into chunks of at most
      3833 bytes: the accumulator hands out one frame for each request, in order, and each frame
      parses to exactly the slave's cells or exception. */
  lemma ReadsThroughTheStream(bank: SV.Bank, slaves: seq<Byte>, transport: Transport, reqs: seq<Request>,
                              replies: seq<seq<Byte>>, chunks: seq<seq<Byte>>, stales: seq<Byte>)
    requires forall i :: 0 <= i < |reqs| ==> KnownRead(bank, slaves, transport, reqs[i])
    requires |replies| == |reqs|
    requires forall i :: 0 <= i < |reqs| ==> Replied(bank, slaves, reqs[i], replies[i])
    requires |chunks| == |stales| && Flatten(chunks) == Flatten(replies)
    requires forall c :: c in chunks ==> |c| + MAX_REPLY <= CAPACITY + 1
    ensures Run(EMPTY, chunks, stales, transport == Tcp) == (EMPTY, replies)
    ensures forall i :: 0 <= i < |reqs| ==> Delivered(bank, reqs[i], replies[i])
  {
    forall i | 0 <= i < |reqs|
      ensures Good(replies[i], transport == Tcp) && |replies[i]| <= MAX_REPLY
      ensures Delivered(bank, reqs[i], replies[i])
    {
      EachReply(bank, slaves, transport, reqs[i], replies[i]);
    }
    hide Good;
    hide KnownRead;
    hide Replied;
    hide Delivered;
    hide Crc;
    hide Drain;
    assert forall f :: f in replies ==> |f| <= MAX_REPLY;
    assert EMPTY.q + Flatten(chunks) == Flatten(chunks);
    assert replies != [] ==> |EMPTY.q| < |replies[0]| by {
      if replies != [] {
        GoodNotEmpty(replies[0], transport == Tcp);
      }
    }
    SmallChunksNeverOverfill(EMPTY, replies, chunks, stales, transport == Tcp, MAX_REPLY);
    EveryFrameDelivered(EMPTY, replies, chunks, stales, transport == Tcp);
  }

  lemma GoodNotEmpty(f: seq<Byte>, tcp: bool)
    requires Good(f, tcp)
    ensures |f| > 0
  {
  }

  /** Exception 1, and nothing has changed. */
  ghost predicate Refused(bank: SV.Bank, slaves: seq<Byte>, req: Request, reply: seq<Byte>, answer: Response) {
    && Exchange(bank, slaves, req, bank, reply, answer)
    && answer.isException && answer.exceptionCode == 0x01 && answer.fc == req.fc + 0x80
  }

  /** A slave that is not listed, or has no registers, answers exception 1 to everything. */
  lemma UnknownSlave(bank: SV.Bank, slaves: seq<Byte>, req: Request)
    requires RequestBytes(req) != [] && (req.transport == Tcp ==> |RequestPdu(req)| <= MAX_SERVER_PDU)
    requires req.slave !in slaves || req.slave !in bank
    ensures exists reply, answer :: Refused(bank, slaves, req, reply, answer)
  {
    hide Crc;
    hide Hi;
    hide Lo;
    hide BE;
    assert RequestPdu(req)[0] == req.fc < 0x80;
    hide RequestPdu;
    hide RequestBytes;
    AnswerRelayed(bank, slaves, req);
    var reply :| Relayed(bank, slaves, req, reply);
    RelayedOf(bank, slaves, req, reply);
    hide Exchange;
    var pdu := SV.Handle(bank, slaves, req.slave, RequestPdu(req)).1;
    assert Refused(bank, slaves, req, reply, Meaning(req.transport, req.transactionId, req.slave, pdu));
  }

  // ---- the 16-bit address space ----

  /** For a slave with `n` registers and an accepted range, the answer is the window of registers for
      every content exactly when the range stays inside the 16-bit address space: beyond it the
      address wraps to register 0. */
  lemma WindowExact(n: nat, addr: Word, qty: nat)
    requires addr + qty <= n
    ensures (forall ws: seq<Word> :: |ws| == n ==> SV.ReadWords(ws, addr, qty) == ws[addr..addr + qty])
        <==> addr + qty <= 65536
  {
    if addr + qty <= 65536 {
      forall ws: seq<Word> | |ws| == n ensures SV.ReadWords(ws, addr, qty) == ws[addr..addr + qty] {
      }
    } else {
      var ws: seq<Word> := seq(n, i => if i == 65536 then 1 else 0);
      var k := 65536 - addr;
      assert SV.ReadWords(ws, addr, qty)[k] == 0;
      assert ws[addr..addr + qty][k] == 1;
    }
  }

  /** A reachable case: with 65551 registers the read of two registers at 65535 is accepted, and its
      second value is register 0. */
  lemma WindowWraps(ws: seq<Word>)
    requires |ws| == 65551
    ensures SV.ReadWords(ws, 65535, 2) == [ws[65535], ws[0]]
  {
    assert SV.Cell(65535, 1) == Wrap(0) == 0;
  }

  // ---- writes ----

  /** Write requests the host builds and whose quantity the slave's limits admit. */
  ghost predicate WriteRequest(req: Request) {
    && 1 <= req.slave <= 247
    && (if req.fc == 0x05 then |req.registers| == 1 && req.registers[0] in {0x0000, 0xFF00}
        else if req.fc == 0x06 then |req.registers| == 1
        else if req.fc == 0x0F then 0 < req.quantity <= 1968 && |req.coils| == (req.quantity + 7) / 8
        else req.fc == 0x10 && 0 < req.quantity <= 123 && |req.registers| == req.quantity)
  }

  lemma WriteRequestBuilt(req: Request)
    ensures WriteRequest(req) <==>
      && RequestBytes(req) != [] && SV.IsWrite(req.fc)
      && (req.fc == 0x0F ==> req.quantity <= 1968) && (req.fc == 0x10 ==> req.quantity <= 123)
  {
    hide Crc;
    hide Hi;
    hide Lo;
  }

  /** The range a write addresses. */
  function WriteCount(req: Request): nat {
    if req.fc in {0x05, 0x06} then 1 else req.quantity
  }

  predicate WritesBits(req: Request) { req.fc in {0x05, 0x0F} }

  ghost predicate InRange(regs: SV.Regs, req: Request) {
    req.address + WriteCount(req) <= if WritesBits(req) then |regs.coils| * 8 else |regs.holding|
  }

  /** The values a coil write carries. */
  function CoilValues(req: Request): seq<bool>
    requires WriteRequest(req) && WritesBits(req)
  {
    if req.fc == 0x05 then [req.registers[0] == 0xFF00] else SV.UnpackBits(req.coils, req.quantity)
  }

  /** The registers after a write: exactly the addressed cells have the carried values. */
  ghost predicate Written(regs: SV.Regs, req: Request, regs': SV.Regs)
    requires WriteRequest(req)
  {
    && regs'.input == regs.input && regs'.discretes == regs.discretes
    && |regs'.coils| == |regs.coils| && |regs'.holding| == |regs.holding|
    && (if WritesBits(req) then
          && regs'.holding == regs.holding
          && forall reg: Word :: SV.BitAt(regs'.coils, reg)
               == if SV.Offset(req.address, reg) < WriteCount(req) && reg / 8 < |regs.coils|
                  then CoilValues(req)[SV.Offset(req.address, reg)] else SV.BitAt(regs.coils, reg)
        else
          && regs'.coils == regs.coils
          && forall reg: Word :: SV.WordAt(regs'.holding, reg)
               == if SV.Offset(req.address, reg) < WriteCount(req) && reg < |regs.holding|
                  then req.registers[SV.Offset(req.address, reg)] else SV.WordAt(regs.holding, reg))
  }

  lemma WritePduSingle(req: Request)
    requires WriteRequest(req) && req.fc in {0x05, 0x06}
    ensures var pdu := RequestPdu(req);
      && |pdu| == 5 && pdu[0] == req.fc
      && BE(pdu[1], pdu[2]) == req.address && BE(pdu[3], pdu[4]) == req.registers[0]
  {
    WordInverse();
    hide Hi;
    hide Lo;
    hide BE;
  }

  /** Layout of a multiple write. */
  lemma MultiplePdu(fc: Byte, address: Word, quantity: Word, count: Byte, data: seq<Byte>)
    ensures var pdu := [fc] + Pair(address) + Pair(quantity) + [count] + data;
      && |pdu| == 6 + |data| && pdu[0] == fc && pdu[5] == count && pdu[6..] == data
      && BE(pdu[1], pdu[2]) == address && BE(pdu[3], pdu[4]) == quantity
  {
    WordInverse();
    hide Hi;
    hide Lo;
    hide BE;
  }

  lemma WritePduCoils(req: Request)
    requires WriteRequest(req) && req.fc == 0x0F
    ensures var pdu := RequestPdu(req);
      && 7 <= |pdu| <= 252 && pdu[0] == req.fc
      && BE(pdu[1], pdu[2]) == req.address && BE(pdu[3], pdu[4]) == req.quantity
      && |pdu| == 6 + pdu[5] as nat
      && pdu[5] as nat == (req.quantity + 7) / 8 && pdu[6..] == req.coils
  {
    assert |req.coils| <= 246;
    MultiplePdu(req.fc, req.address, req.quantity, |req.coils| % 256, req.coils);
    hide BE;
    hide Pair;
  }

  lemma WritePduRegisters(req: Request)
    requires WriteRequest(req) && req.fc == 0x10
    ensures var pdu := RequestPdu(req);
      && 7 <= |pdu| <= 252 && pdu[0] == req.fc
      && BE(pdu[1], pdu[2]) == req.address && BE(pdu[3], pdu[4]) == req.quantity
      && |pdu| == 6 + pdu[5] as nat
      && pdu[5] as nat == req.quantity * 2 && pdu[6..] == WordBytes(req.registers)
  {
    var count := req.quantity * 2;
    MultiplePdu(req.fc, req.address, req.quantity, count, WordBytes(req.registers));
    assert |WordBytes(req.registers)| == count;
    RegistersPdu(req, count);
    hide *;
  }

  lemma RegistersPdu(req: Request, count: Byte)
    requires WriteRequest(req) && req.fc == 0x10 && count == req.quantity * 2
    ensures RequestPdu(req)
         == [req.fc] + Pair(req.address) + Pair(req.quantity) + [count] + WordBytes(req.registers)
  {
    hide WordBytes;
    hide Pair;
  }

  lemma CoilWritten(regs: SV.Regs, req: Request)
    requires WriteRequest(req) && req.fc == 0x05 && InRange(regs, req)
    ensures Written(regs, req, regs.(coils := SV.WithBitAt(regs.coils, req.address, req.registers[0] == 0xFF00)))
  {
    var on := req.registers[0] == 0xFF00;
    forall reg: Word
      ensures SV.BitAt(SV.WithBitAt(regs.coils, req.address, on), reg)
           == if SV.Offset(req.address, reg) < 1 && reg / 8 < |regs.coils|
              then [on][SV.Offset(req.address, reg)] else SV.BitAt(regs.coils, reg)
    {
      SV.WithBitAtTest(regs.coils, req.address, on, reg);
      SV.CellOffset(req.address, 0, reg);
      hide SV.WithBitAt;
      hide SV.BitAt;
      hide SV.Offset;
    }
  }

  lemma RegisterWritten(regs: SV.Regs, req: Request)
    requires WriteRequest(req) && req.fc == 0x06 && InRange(regs, req)
    ensures Written(regs, req, regs.(holding := SV.WithWord(regs.holding, req.address, req.registers[0])))
  {
    forall reg: Word
      ensures SV.WordAt(SV.WithWord(regs.holding, req.address, req.registers[0]), reg)
           == if SV.Offset(req.address, reg) < 1 && reg < |regs.holding|
              then req.registers[SV.Offset(req.address, reg)] else SV.WordAt(regs.holding, reg)
    {
      SV.CellOffset(req.address, 0, reg);
    }
  }

  lemma CoilsWritten(regs: SV.Regs, req: Request)
    requires WriteRequest(req) && req.fc == 0x0F
    ensures Written(regs, req, regs.(coils := SV.WriteBits(regs.coils, req.address, CoilValues(req))))
  {
    forall reg: Word
      ensures SV.BitAt(SV.WriteBits(regs.coils, req.address, CoilValues(req)), reg)
           == if SV.Offset(req.address, reg) < req.quantity && reg / 8 < |regs.coils|
              then CoilValues(req)[SV.Offset(req.address, reg)] else SV.BitAt(regs.coils, reg)
    {
      SV.WriteBitsAt(regs.coils, req.address, CoilValues(req), reg);
    }
  }

  lemma RegistersWritten(regs: SV.Regs, req: Request)
    requires WriteRequest(req) && req.fc == 0x10
    ensures Written(regs, req, regs.(holding := SV.WriteWords(regs.holding, req.address, req.registers)))
  {
    forall reg: Word
      ensures SV.WordAt(SV.WriteWords(regs.holding, req.address, req.registers), reg)
           == if SV.Offset(req.address, reg) < req.quantity && reg < |regs.holding|
              then req.registers[SV.Offset(req.address, reg)] else SV.WordAt(regs.holding, reg)
    {
      SV.WriteWordsAt(regs.holding, req.address, req.registers, reg);
    }
  }

  /** What the slave does with any admissible write. */
  ghost predicate WriteDispatched(regs: SV.Regs, req: Request, regs': SV.Regs, reply: SV.Reply)
    requires WriteRequest(req)
  {
    && ReplyPdu(reply.bytes)
    && (if InRange(regs, req) then
          reply.exception.None? && reply.bytes[0] == req.fc && Written(regs, req, regs')
        else
          reply == SV.Exception(req.fc, 0x02) && regs' == regs)
  }

  lemma SingleDispatch(regs: SV.Regs, req: Request)
    requires WriteRequest(req) && req.fc in {0x05, 0x06}
    ensures 5 <= |RequestPdu(req)| <= 252 && RequestPdu(req)[0] == req.fc
    ensures var (regs', reply) := SV.Dispatch(regs, RequestPdu(req), true);
      WriteDispatched(regs, req, regs', reply)
  {
    hide BE;
    hide Written;
    WritePduSingle(req);
    if InRange(regs, req) {
      if req.fc == 0x05 { CoilWritten(regs, req); } else { RegisterWritten(regs, req); }
    }
    hide RequestPdu;
  }

  lemma MultipleDispatch(regs: SV.Regs, req: Request)
    requires WriteRequest(req) && req.fc in {0x0F, 0x10}
    ensures 5 <= |RequestPdu(req)| <= 252 && RequestPdu(req)[0] == req.fc
    ensures var (regs', reply) := SV.Dispatch(regs, RequestPdu(req), true);
      WriteDispatched(regs, req, regs', reply)
  {
    hide BE;
    hide Written;
    if req.fc == 0x0F {
      WritePduCoils(req);
      CoilsWritten(regs, req);
    } else {
      WritePduRegisters(req);
      WordBytesRoundTrip(req.registers);
      RegistersWritten(regs, req);
    }
    hide RequestPdu;
  }

  lemma WriteDispatch(regs: SV.Regs, req: Request)
    requires WriteRequest(req)
    ensures 5 <= |RequestPdu(req)| <= 252 && RequestPdu(req)[0] == req.fc
    ensures var (regs', reply) := SV.Dispatch(regs, RequestPdu(req), true);
      WriteDispatched(regs, req, regs', reply)
  {
    assert req.fc in {0x05, 0x06, 0x0F, 0x10};
    hide *;
    if req.fc in {0x05, 0x06} {
      SingleDispatch(regs, req);
    } else {
      MultipleDispatch(regs, req);
    }
  }

  /** What host and bank must see after a write. */
  ghost predicate WriteAnswered(bank: SV.Bank, req: Request, bank': SV.Bank, resp: Response)
    requires WriteRequest(req) && req.slave in bank
  {
    && resp.slave == req.slave && resp.isException == !InRange(bank[req.slave], req)
    && (if InRange(bank[req.slave], req) then
          && resp.fc == req.fc
          && bank'.Keys == bank.Keys && Written(bank[req.slave], req, bank'[req.slave])
          && forall other :: other in bank && other != req.slave ==> bank'[other] == bank[other]
        else
          resp.fc == req.fc + 0x80 && resp.exceptionCode == 0x02 && bank' == bank)
  }

  lemma WriteRouted(bank: SV.Bank, slaves: seq<Byte>, id: Byte, pdu: seq<Byte>)
    requires id in slaves && id in bank && pdu != [] && SV.IsWrite(pdu[0])
    ensures var (regs, reply) := SV.Dispatch(bank[id], pdu, true);
      SV.Handle(bank, slaves, id, pdu) == (if reply.exception.None? then bank[id := regs] else bank, reply.bytes)
  {
    hide SV.Dispatch;
  }

  lemma WriteMeans(bank: SV.Bank, req: Request, regs: SV.Regs, reply: SV.Reply)
    requires WriteRequest(req) && req.slave in bank && WriteDispatched(bank[req.slave], req, regs, reply)
    ensures WriteAnswered(bank, req, if reply.exception.None? then bank[req.slave := regs] else bank,
                          Meaning(req.transport, req.transactionId, req.slave, reply.bytes))
  {
    hide Written;
    hide BE;
    hide InRange;
  }

  lemma WriteHandled(bank: SV.Bank, slaves: seq<Byte>, req: Request)
    requires WriteRequest(req) && req.slave in slaves && req.slave in bank
    ensures 5 <= |RequestPdu(req)| <= 252
    ensures var (bank', pdu) := SV.Handle(bank, slaves, req.slave, RequestPdu(req));
      && ReplyPdu(pdu)
      && WriteAnswered(bank, req, bank', Meaning(req.transport, req.transactionId, req.slave, pdu))
  {
    WriteDispatch(bank[req.slave], req);
    assert SV.IsWrite(req.fc);
    WriteRouted(bank, slaves, req.slave, RequestPdu(req));
    var (regs, reply) := SV.Dispatch(bank[req.slave], RequestPdu(req), true);
    WriteMeans(bank, req, regs, reply);
    assert ReplyPdu(reply.bytes);
    hide *;
  }

  ghost predicate WriteTold(bank: SV.Bank, slaves: seq<Byte>, req: Request, bank': SV.Bank, reply: seq<Byte>,
                            answer: Response)
    requires WriteRequest(req) && req.slave in bank
  {
    Exchange(bank, slaves, req, bank', reply, answer) && WriteAnswered(bank, req, bank', answer)
  }

  /** End to end: a write in range is acknowledged and changes exactly the addressed cells of the
      addressed slave; out of range it is refused with exception 2 and changes nothing. */
  lemma WriteEndToEnd(bank: SV.Bank, slaves: seq<Byte>, req: Request)
    requires WriteRequest(req) && req.slave in slaves && req.slave in bank
    ensures exists bank', reply, answer :: WriteTold(bank, slaves, req, bank', reply, answer)
  {
    WriteRequestBuilt(req);
    WriteHandled(bank, slaves, req);
    hide *;
    AnswerRelayed(bank, slaves, req);
    var reply :| Relayed(bank, slaves, req, reply);
    RelayedOf(bank, slaves, req, reply);
    var (bank', pdu) := SV.Handle(bank, slaves, req.slave, RequestPdu(req));
    WrittenOf(bank, slaves, req, bank', reply, Meaning(req.transport, req.transactionId, req.slave, pdu));
  }

  lemma WrittenOf(bank: SV.Bank, slaves: seq<Byte>, req: Request, bank': SV.Bank, reply: seq<Byte>, answer: Response)
    requires WriteRequest(req) && req.slave in bank
    ensures WriteTold(bank, slaves, req, bank', reply, answer)
      <==> Exchange(bank, slaves, req, bank', reply, answer) && WriteAnswered(bank, req, bank', answer)
  {
  }

  /** The answer to a read of the written range carries the written values. */
  ghost predicate ReadsBack(w: Request, r: Request, answer: Response)
    requires WriteRequest(w)
  {
    && !answer.isException
    && (if WritesBits(w) then
          |answer.coils| == (r.quantity + 7) / 8 && SV.UnpackBits(answer.coils, r.quantity) == CoilValues(w)
        else answer.registers == w.registers)
  }

  /** Two exchanges in a row, the second answered with what the first carried. */
  ghost predicate Recalls(bank: SV.Bank, slaves: seq<Byte>, w: Request, r: Request,
                          written: SV.Bank, ack: seq<Byte>, acked: Response, reply: seq<Byte>, answer: Response)
    requires WriteRequest(w)
  {
    && Exchange(bank, slaves, w, written, ack, acked) && Exchange(written, slaves, r, written, reply, answer)
    && ReadsBack(w, r, answer)
  }

  /** Write, then read the same range: the host gets back exactly what it wrote. */
  lemma WriteThenRead(bank: SV.Bank, slaves: seq<Byte>, w: Request, r: Request)
    requires WriteRequest(w) && w.slave in slaves && w.slave in bank && InRange(bank[w.slave], w)
    requires RequestBytes(r) != [] && r.slave == w.slave && r.fc == (if WritesBits(w) then 0x01 else 0x03)
    requires r.address == w.address && r.quantity == WriteCount(w)
    ensures exists written, ack, acked, reply, answer :: Recalls(bank, slaves, w, r, written, ack, acked, reply, answer)
  {
    hide *;
    WriteEndToEnd(bank, slaves, w);
    var written, ack, acked :| WriteTold(bank, slaves, w, written, ack, acked);
    WrittenOf(bank, slaves, w, written, ack, acked);
    AfterWrite(bank, w, written, acked);
    ReadEndToEnd(written, slaves, r);
    var reply, answer :| ReadTold(written, slaves, r, reply, answer);
    ToldOf(written, slaves, r, reply, answer);
    ReadBack(bank[w.slave], w, written[w.slave], r, answer);
    Recalled(bank, slaves, w, r, written, ack, acked, reply, answer);
  }

  lemma Recalled(bank: SV.Bank, slaves: seq<Byte>, w: Request, r: Request,
                 written: SV.Bank, ack: seq<Byte>, acked: Response, reply: seq<Byte>, answer: Response)
    requires WriteRequest(w) && ReadsBack(w, r, answer)
    requires Exchange(bank, slaves, w, written, ack, acked) && Exchange(written, slaves, r, written, reply, answer)
    ensures Recalls(bank, slaves, w, r, written, ack, acked, reply, answer)
  {
    hide Exchange;
  }

  lemma AfterWrite(bank: SV.Bank, w: Request, after: SV.Bank, resp: Response)
    requires WriteRequest(w) && w.slave in bank && InRange(bank[w.slave], w)
    requires WriteAnswered(bank, w, after, resp)
    ensures w.slave in after && Written(bank[w.slave], w, after[w.slave])
  {
    hide Written;
  }

  lemma ReadBack(regs: SV.Regs, w: Request, regs': SV.Regs, r: Request, answer: Response)
    requires WriteRequest(w) && InRange(regs, w) && Written(regs, w, regs')
    requires r.address == w.address && r.quantity == WriteCount(w)
    requires r.fc == (if WritesBits(w) then 0x01 else 0x03)
    requires ReadAnswered(regs', r, answer)
    ensures ReadsBack(w, r, answer)
  {
    hide Written;
    assert |regs'.coils| == |regs.coils| && |regs'.holding| == |regs.holding| by {
      SameSizes(regs, w, regs');
    }
    if WritesBits(w) {
      BitsReadBack(regs, w, regs');
    } else {
      WordsReadBack(regs, w, regs');
    }
  }

  lemma SameSizes(regs: SV.Regs, w: Request, regs': SV.Regs)
    requires WriteRequest(w) && Written(regs, w, regs')
    ensures |regs'.coils| == |regs.coils| && |regs'.holding| == |regs.holding|
  {
  }

  lemma BitsReadBack(regs: SV.Regs, w: Request, regs': SV.Regs)
    requires WriteRequest(w) && WritesBits(w) && InRange(regs, w) && Written(regs, w, regs')
    ensures SV.ReadBits(regs'.coils, w.address, WriteCount(w)) == CoilValues(w)
  {
    forall i | 0 <= i < WriteCount(w)
      ensures SV.BitAt(regs'.coils, SV.Cell(w.address, i)) == CoilValues(w)[i]
    {
      SV.CellOffset(w.address, i, SV.Cell(w.address, i));
    }
  }

  lemma WordsReadBack(regs: SV.Regs, w: Request, regs': SV.Regs)
    requires WriteRequest(w) && !WritesBits(w) && InRange(regs, w) && Written(regs, w, regs')
    ensures SV.ReadWords(regs'.holding, w.address, WriteCount(w)) == w.registers
  {
    forall i | 0 <= i < WriteCount(w)
      ensures SV.WordAt(regs'.holding, SV.Cell(w.address, i)) == w.registers[i]
    {
      SV.CellOffset(w.address, i, SV.Cell(w.address, i));
    }
  }
}
