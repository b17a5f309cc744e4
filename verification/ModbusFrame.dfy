/** Host side of the wire: building requests, parsing complete response frames. */
module ModbusFrame {
  import opened Bytes
  import opened Crc16

  datatype Transport = Rtu | Tcp

  datatype Request = Request(transport: Transport, transactionId: Word, slave: Byte, fc: Byte,
                             address: Word, quantity: Word, registers: seq<Word>, coils: seq<Byte>)

  datatype Response = Response(transport: Transport, transactionId: Word, slave: Byte, fc: Byte,
                               isException: bool, exceptionCode: Byte, registers: seq<Word>, coils: seq<Byte>)

  function Pair(w: Word): seq<Byte> { [Hi(w), Lo(w)] }

  /** The PDU of a request; empty when the request is refused. */
  function RequestPdu(req: Request): seq<Byte> {
    if req.fc in {0x01, 0x02, 0x03, 0x04} then
      if req.quantity == 0 then [] else [req.fc] + Pair(req.address) + Pair(req.quantity)
    else if req.fc == 0x05 then
      if |req.registers| != 1 || req.registers[0] !in {0x0000, 0xFF00} then []
      else [req.fc] + Pair(req.address) + Pair(req.registers[0])
    else if req.fc == 0x06 then
      if |req.registers| != 1 then [] else [req.fc] + Pair(req.address) + Pair(req.registers[0])
    else if req.fc == 0x0F then
      if req.quantity == 0 || |req.coils| != (req.quantity + 7) / 8 then []
      else [req.fc] + Pair(req.address) + Pair(req.quantity) + [|req.coils| % 256] + req.coils
    else if req.fc == 0x10 then
      if req.quantity == 0 || |req.registers| != req.quantity then []
      else [req.fc] + Pair(req.address) + Pair(req.quantity) + [req.quantity * 2 % 256]
           + WordBytes(req.registers)
    else []
  }

  /** MBAP header: transaction, protocol 0, length of unit id and PDU (16-bit), unit id. */
  function Mbap(transactionId: Word, unit: Byte, pduLen: nat): (h: seq<Byte>)
    ensures |h| == 7
  {
    Pair(transactionId) + Pair(0) + Pair((1 + pduLen) % 65536) + [unit]
  }

  function RequestBytes(req: Request): seq<Byte> {
    if !(1 <= req.slave <= 247) || RequestPdu(req) == [] then []
    else if req.transport == Tcp then Mbap(req.transactionId, req.slave, |RequestPdu(req)|) + RequestPdu(req)
    else Seal([req.slave] + RequestPdu(req))
  }

  method BuildRequest(req: Request, table: seq<Word>) returns (out: seq<Byte>)
    requires IsTable(table)
    ensures out == RequestBytes(req)
  {
    hide Crc;
    out := [];
    if req.slave < 1 || req.slave > 247 {
      return;
    }
    var pdu: seq<Byte> := [];
    if req.fc in {0x01, 0x02, 0x03, 0x04} {
      if req.quantity == 0 { return; }
      pdu := [req.fc];
      pdu := pdu + Pair(req.address);
      pdu := pdu + Pair(req.quantity);
    } else if req.fc == 0x05 {
      if |req.registers| != 1 { return; }
      var v := req.registers[0];
      if v != 0x0000 && v != 0xFF00 { return; }
      pdu := [req.fc] + Pair(req.address) + Pair(v);
    } else if req.fc == 0x06 {
      if |req.registers| != 1 { return; }
      pdu := [req.fc] + Pair(req.address) + Pair(req.registers[0]);
    } else if req.fc == 0x0F {
      if req.quantity == 0 || req.coils == [] { return; }
      var expectedBytes := (req.quantity + 7) / 8;
      if |req.coils| != expectedBytes { return; }
      pdu := [req.fc] + Pair(req.address) + Pair(req.quantity);
      pdu := pdu + [expectedBytes % 256];
      pdu := pdu + req.coils;
    } else if req.fc == 0x10 {
      if req.quantity == 0 || req.registers == [] { return; }
      if |req.registers| != req.quantity { return; }
      pdu := [req.fc] + Pair(req.address) + Pair(req.quantity);
      pdu := pdu + [req.quantity * 2 % 256];
      ghost var head := pdu;
      for i := 0 to |req.registers|
        invariant pdu == head + WordBytes(req.registers[..i])
      {
        assert req.registers[..i + 1][..i] == req.registers[..i];
        pdu := pdu + Pair(req.registers[i]);
      }
      assert req.registers[..|req.registers|] == req.registers;
    } else {
      return;
    }
    assert pdu == RequestPdu(req);
    if req.transport == Tcp {
      out := Mbap(req.transactionId, req.slave, |pdu|);
      out := out + pdu;
    } else {
      out := [req.slave];
      out := out + pdu;
      var crc := Crc16Modbus(table, out);
      out := out + [Lo(crc)] + [Hi(crc)];
    }
  }

  // ---- parsing ----

  function Fresh(transport: Transport, transactionId: Word, unit: Byte, fc: Byte): Response {
    Response(transport, transactionId, unit, fc, false, 0, [], [])
  }

  function ParseTcp(buf: seq<Byte>): Option<Response> {
    if |buf| < 8 || BE(buf[2], buf[3]) != 0 then None
    else
      var length := BE(buf[4], buf[5]);
      if length < 2 || 6 + length > |buf| then None
      else
        var resp := Fresh(Tcp, BE(buf[0], buf[1]), buf[6], buf[7]);
        if resp.fc >= 0x80 then
          if length != 3 then None else Some(resp.(isException := true, exceptionCode := buf[8]))
        else if resp.fc in {0x01, 0x02, 0x03, 0x04} then
          var byteCount: nat := if length < 3 then 0 else buf[8];
          if length < 3 || 3 + byteCount != length then None
          else if resp.fc <= 0x02 then Some(resp.(coils := buf[9..9 + byteCount]))
          else if byteCount % 2 != 0 then None
          else Some(resp.(registers := BytesWords(buf[9..9 + byteCount])))
        else if resp.fc in {0x05, 0x06, 0x0F, 0x10} then
          if length != 6 then None
          else if resp.fc <= 0x06 then Some(resp.(registers := [BE(buf[8], buf[9])]))
          else Some(resp)
        else None
  }

  function ParseRtu(buf: seq<Byte>): Option<Response> {
    if !Verifies(buf) then None
    else
      var resp := Fresh(Rtu, 0, buf[0], buf[1]);
      if resp.fc >= 0x80 then
        if |buf| != 5 then None else Some(resp.(isException := true, exceptionCode := buf[2]))
      else if resp.fc in {0x01, 0x02, 0x03, 0x04} then
        var byteCount: nat := buf[2];
        if |buf| < 5 || 5 + byteCount != |buf| then None
        else if resp.fc <= 0x02 then Some(resp.(coils := buf[3..3 + byteCount]))
        else if byteCount % 2 != 0 then None
        else Some(resp.(registers := BytesWords(buf[3..3 + byteCount])))
      else if resp.fc in {0x05, 0x06, 0x0F, 0x10} then
        if |buf| != 8 then None
        else if resp.fc <= 0x06 then Some(resp.(registers := [BE(buf[4], buf[5])]))
        else Some(resp)
      else None
  }

  function Parse(buf: seq<Byte>, transport: Transport): Option<Response> {
    if transport == Tcp then ParseTcp(buf) else ParseRtu(buf)
  }

  method ReadWords(bytes: seq<Byte>) returns (ws: seq<Word>)
    requires |bytes| % 2 == 0
    ensures ws == BytesWords(bytes)
  {
    ws := [];
    var i := 0;
    while i < |bytes|
      invariant i % 2 == 0 && i <= |bytes|
      invariant ws == BytesWords(bytes)[..i / 2]
    {
      ws := ws + [BE(bytes[i], bytes[i + 1])];
      i := i + 2;
    }
  }

  method ParseTcpResponse(buf: seq<Byte>) returns (r: Option<Response>)
    ensures r == ParseTcp(buf)
  {
    if |buf| < 8 { return None; }
    var tid := BE(buf[0], buf[1]);
    var pid := BE(buf[2], buf[3]);
    if pid != 0 { return None; }
    var mbapLen := BE(buf[4], buf[5]);
    if mbapLen < 2 || 6 + mbapLen > |buf| { return None; }
    var resp := Fresh(Tcp, tid, buf[6], buf[7]);
    if resp.fc >= 0x80 {
      if mbapLen != 3 { return None; }
      return Some(resp.(isException := true, exceptionCode := buf[8]));
    }
    if resp.fc in {0x01, 0x02, 0x03, 0x04} {
      if mbapLen < 3 { return None; }
      var byteCount: nat := buf[8];
      if 3 + byteCount != mbapLen { return None; }
      if resp.fc == 0x01 || resp.fc == 0x02 {
        return Some(resp.(coils := buf[9..9 + byteCount]));
      }
      if byteCount % 2 != 0 { return None; }
      var ws := ReadWords(buf[9..9 + byteCount]);
      return Some(resp.(registers := ws));
    } else if resp.fc == 0x05 || resp.fc == 0x06 {
      if mbapLen != 6 { return None; }
      return Some(resp.(registers := [BE(buf[8], buf[9])]));
    } else if resp.fc == 0x0F || resp.fc == 0x10 {
      if mbapLen != 6 { return None; }
      return Some(resp);
    }
    return None;
  }

  method ParseRtuResponse(buf: seq<Byte>, table: seq<Word>) returns (r: Option<Response>)
    requires IsTable(table)
    ensures r == ParseRtu(buf)
  {
    hide Crc;
    if |buf| < 4 { return None; }
    var expected := Crc16Modbus(table, buf[..|buf| - 2]);
    if expected != BE(buf[|buf| - 1], buf[|buf| - 2]) { return None; }
    var resp := Fresh(Rtu, 0, buf[0], buf[1]);
    if resp.fc >= 0x80 {
      if |buf| != 5 { return None; }
      return Some(resp.(isException := true, exceptionCode := buf[2]));
    }
    if resp.fc in {0x01, 0x02, 0x03, 0x04} {
      if |buf| < 5 { return None; }
      var byteCount: nat := buf[2];
      if 5 + byteCount != |buf| { return None; }
      if resp.fc == 0x01 || resp.fc == 0x02 {
        return Some(resp.(coils := buf[3..3 + byteCount]));
      }
      if byteCount % 2 != 0 { return None; }
      var ws := ReadWords(buf[3..3 + byteCount]);
      return Some(resp.(registers := ws));
    } else if resp.fc in {0x05, 0x06, 0x0F, 0x10} {
      if |buf| != 8 { return None; }
      if resp.fc == 0x05 || resp.fc == 0x06 {
        return Some(resp.(registers := [BE(buf[4], buf[5])]));
      }
      return Some(resp);
    }
    return None;
  }
}
