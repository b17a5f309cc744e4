/** The simulator's MBAP header codec. */
module MbapCodec {
  import opened Bytes

  datatype Header = Header(transactionId: Word, protocolId: Word, length: Word, unitId: Byte)

  function HeaderBytes(h: Header): (b: seq<Byte>)
    ensures |b| == 7
  {
    [Hi(h.transactionId), Lo(h.transactionId), Hi(h.protocolId), Lo(h.protocolId),
     Hi(h.length), Lo(h.length), h.unitId]
  }

  function ParseHeader(p: seq<Byte>): Option<Header> {
    if |p| < 7 || BE(p[2], p[3]) != 0 then None
    else Some(Header(BE(p[0], p[1]), BE(p[2], p[3]), BE(p[4], p[5]), p[6]))
  }

  /** Writes the seven header bytes in place and nothing behind them. */
  method EmitMbap(p: array<Byte>, h: Header)
    requires p.Length >= 7
    modifies p
    ensures p[..] == HeaderBytes(h) + old(p[7..])
  {
    p[0] := Hi(h.transactionId);
    p[1] := Lo(h.transactionId);
    p[2] := Hi(h.protocolId);
    p[3] := Lo(h.protocolId);
    p[4] := Hi(h.length);
    p[5] := Lo(h.length);
    p[6] := h.unitId;
  }

  /** What parses is the emission of what it parses to. */
  lemma ParsedIsEmitted(p: seq<Byte>)
    requires ParseHeader(p).Some?
    ensures HeaderBytes(ParseHeader(p).value) == p[..7]
  {
    WordInverse();
    hide Hi;
    hide Lo;
    hide BE;
  }

  /** Every protocol-0 header is read back, whatever follows it; any other is refused. */
  lemma HeaderRoundTrip(h: Header, rest: seq<Byte>)
    ensures ParseHeader(HeaderBytes(h) + rest) == if h.protocolId == 0 then Some(h) else None
  {
    WordInverse();
    hide Hi;
    hide Lo;
    hide BE;
  }
}
