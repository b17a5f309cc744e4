/** Slave side: the register set of one slave, its function-code dispatcher and the copy-on-write
    bank of all slaves. */
module SlaveValues {
  import opened Bytes

  /** What a slave holds; coils and discrete inputs are packed eight to a byte. */
  datatype Regs = Regs(holding: seq<Word>, input: seq<Word>, coils: seq<Byte>, discretes: seq<Byte>)

  /** A response PDU and, for an exception response, its code. */
  datatype Reply = Reply(bytes: seq<Byte>, exception: Option<Byte>)

  // ---- single cells; addresses are 16-bit, beyond the end reads give 0 and writes do nothing ----

  function WordAt(ws: seq<Word>, reg: Word): Word {
    if reg < |ws| then ws[reg] else 0
  }

  function WithWord(ws: seq<Word>, reg: Word, v: Word): seq<Word> {
    if reg < |ws| then ws[reg := v] else ws
  }

  predicate BitAt(bytes: seq<Byte>, reg: Word) {
    reg / 8 < |bytes| && TestBit(bytes[reg / 8], reg % 8)
  }

  function WithBitAt(bytes: seq<Byte>, reg: Word, v: bool): seq<Byte> {
    if reg / 8 < |bytes| then bytes[reg / 8 := ByteWithBit(bytes[reg / 8], reg % 8, v)] else bytes
  }

  lemma WithBitAtTest(bytes: seq<Byte>, reg: Word, v: bool, other: Word)
    ensures BitAt(WithBitAt(bytes, reg, v), other)
         == if other == reg && reg / 8 < |bytes| then v else BitAt(bytes, other)
  {
    if reg / 8 < |bytes| && reg / 8 == other / 8 {
      WithBitTest(bytes[reg / 8], reg % 8, v, other % 8);
    }
  }

  // ---- ranges: `addr + i` is passed on as a 16-bit number ----

  function Cell(addr: Word, i: nat): Word { Wrap(addr + i) }

  function ReadWords(ws: seq<Word>, addr: Word, qty: nat): seq<Word> {
    seq(qty, i requires 0 <= i < qty => WordAt(ws, Cell(addr, i)))
  }

  function ReadBits(bytes: seq<Byte>, addr: Word, qty: nat): seq<bool> {
    seq(qty, i requires 0 <= i < qty => BitAt(bytes, Cell(addr, i)))
  }

  function WriteWords(ws: seq<Word>, addr: Word, vs: seq<Word>): (r: seq<Word>)
    ensures |r| == |ws|
  {
    if vs == [] then ws
    else WithWord(WriteWords(ws, addr, vs[..|vs| - 1]), Cell(addr, |vs| - 1), vs[|vs| - 1])
  }

  function WriteBits(bytes: seq<Byte>, addr: Word, vs: seq<bool>): (r: seq<Byte>)
    ensures |r| == |bytes|
  {
    if vs == [] then bytes
    else WithBitAt(WriteBits(bytes, addr, vs[..|vs| - 1]), Cell(addr, |vs| - 1), vs[|vs| - 1])
  }

  /** Distance of a cell behind `addr`, around the 16-bit address space. */
  function Offset(addr: Word, reg: Word): Word { if reg >= addr then reg - addr else reg + 65536 - addr }

  lemma CellOffset(addr: Word, i: nat, reg: Word)
    requires i < 65536
    ensures Cell(addr, i) == reg <==> Offset(addr, reg) == i
  {
    if addr + i >= 65536 {
      assert Wrap(addr + i) == Wrap(addr + i - 65536) == addr + i - 65536;
    }
  }

  /** A range write changes exactly the addressed cells that exist. */
  lemma {:induction false} WriteWordsAt(ws: seq<Word>, addr: Word, vs: seq<Word>, reg: Word)
    requires |vs| <= 65536
    ensures WordAt(WriteWords(ws, addr, vs), reg)
         == if Offset(addr, reg) < |vs| && reg < |ws| then vs[Offset(addr, reg)] else WordAt(ws, reg)
  {
    if vs != [] {
      WriteWordsAt(ws, addr, vs[..|vs| - 1], reg);
      CellOffset(addr, |vs| - 1, reg);
    }
  }

  lemma {:induction false} WriteBitsAt(bytes: seq<Byte>, addr: Word, vs: seq<bool>, reg: Word)
    requires |vs| <= 65536
    ensures BitAt(WriteBits(bytes, addr, vs), reg)
         == if Offset(addr, reg) < |vs| && reg / 8 < |bytes| then vs[Offset(addr, reg)] else BitAt(bytes, reg)
  {
    if vs != [] {
      WriteBitsAt(bytes, addr, vs[..|vs| - 1], reg);
      CellOffset(addr, |vs| - 1, reg);
      WithBitAtTest(WriteBits(bytes, addr, vs[..|vs| - 1]), Cell(addr, |vs| - 1), vs[|vs| - 1], reg);
    }
  }

  // ---- packing bits for the wire ----

  function BitOr(bits: seq<bool>, i: nat): bool { i < |bits| && bits[i] }

  function Octet(bits: seq<bool>, j: nat): seq<bool> {
    seq(8, k requires 0 <= k < 8 => BitOr(bits, 8 * j + k))
  }

  function PackByte(bits: seq<bool>, j: nat): Byte { ByteOf(Octet(bits, j)) }

  /** Eight bits to a byte, first bit lowest, the last byte padded with zeros. */
  function PackBits(bits: seq<bool>): (bs: seq<Byte>)
    ensures |bs| == (|bits| + 7) / 8
  {
    seq((|bits| + 7) / 8, j requires 0 <= j < (|bits| + 7) / 8 => PackByte(bits, j))
  }

  function UnpackBits(bytes: seq<Byte>, qty: nat): seq<bool>
    requires (qty + 7) / 8 <= |bytes|
  {
    seq(qty, i requires 0 <= i < qty => TestBit(bytes[i / 8], i % 8))
  }

  lemma PackByteTest(bits: seq<bool>, j: nat, k: nat)
    requires k < 8
    ensures TestBit(PackByte(bits, j), k) == BitOr(bits, 8 * j + k)
  {
    FromBitsTest(Octet(bits, j), k);
  }

  lemma PackRoundTrip(bits: seq<bool>)
    ensures UnpackBits(PackBits(bits), |bits|) == bits
  {
    forall i | 0 <= i < |bits| ensures UnpackBits(PackBits(bits), |bits|)[i] == bits[i] {
      PackByteTest(bits, i / 8, i % 8);
    }
  }

  /** Bytes with the packed bits, and nothing else set, are the packed bytes. */
  lemma PackedIsUnique(bytes: seq<Byte>, bits: seq<bool>)
    requires |bytes| == (|bits| + 7) / 8
    requires forall j, k :: 0 <= j < |bytes| && 0 <= k < 8 ==> TestBit(bytes[j], k) == BitOr(bits, 8 * j + k)
    ensures bytes == PackBits(bits)
  {
    forall j | 0 <= j < |bytes| ensures bytes[j] == PackBits(bits)[j] {
      forall k | 0 <= k < 8 ensures TestBit(bytes[j], k) == TestBit(PackByte(bits, j), k) {
        PackByteTest(bits, j, k);
      }
      Pow2Values();
      BitsDetermine(bytes[j], PackByte(bits, j), 8);
    }
  }

  // ---- dispatch ----

  function Exception(fc: Byte, code: Byte): Reply {
    Reply([if fc >= 0x80 then fc else fc + 0x80, code], Some(code))
  }

  function Ok(bytes: seq<Byte>): Reply { Reply(bytes, None) }

  function BitsReply(fc: Byte, bytes: seq<Byte>, pdu: seq<Byte>): Reply
    requires |pdu| >= 1
  {
    if |pdu| != 5 then Exception(fc, 0x03)
    else
      var addr, qty := BE(pdu[1], pdu[2]), BE(pdu[3], pdu[4]);
      if qty == 0 || qty > 2000 then Exception(fc, 0x03)
      else if addr + qty > |bytes| * 8 then Exception(fc, 0x02)
      else Ok([fc, (qty + 7) / 8] + PackBits(ReadBits(bytes, addr, qty)))
  }

  function WordsReply(fc: Byte, ws: seq<Word>, pdu: seq<Byte>): Reply
    requires |pdu| >= 1
  {
    if |pdu| != 5 then Exception(fc, 0x03)
    else
      var addr, qty := BE(pdu[1], pdu[2]), BE(pdu[3], pdu[4]);
      if qty == 0 || qty > 125 then Exception(fc, 0x03)
      else if addr + qty > |ws| then Exception(fc, 0x02)
      else Ok([fc, qty * 2] + WordBytes(ReadWords(ws, addr, qty)))
  }

  function WriteCoil(regs: Regs, pdu: seq<Byte>): (Regs, Reply)
    requires |pdu| >= 1
  {
    if |pdu| != 5 then (regs, Exception(0x05, 0x03))
    else
      var addr, val := BE(pdu[1], pdu[2]), BE(pdu[3], pdu[4]);
      if val != 0xFF00 && val != 0x0000 then (regs, Exception(0x05, 0x03))
      else if addr >= |regs.coils| * 8 then (regs, Exception(0x05, 0x02))
      else (regs.(coils := WithBitAt(regs.coils, addr, val == 0xFF00)), Ok(pdu))
  }

  function WriteRegister(regs: Regs, pdu: seq<Byte>): (Regs, Reply)
    requires |pdu| >= 1
  {
    if |pdu| != 5 then (regs, Exception(0x06, 0x03))
    else
      var addr, val := BE(pdu[1], pdu[2]), BE(pdu[3], pdu[4]);
      if addr >= |regs.holding| then (regs, Exception(0x06, 0x02))
      else (regs.(holding := WithWord(regs.holding, addr, val)), Ok(pdu))
  }

  function WriteCoils(regs: Regs, pdu: seq<Byte>): (Regs, Reply)
    requires |pdu| >= 1
  {
    if |pdu| < 7 then (regs, Exception(0x0F, 0x03))
    else
      var addr, qty := BE(pdu[1], pdu[2]), BE(pdu[3], pdu[4]);
      var byteCount: nat := pdu[5];
      if qty == 0 || qty > 1968 || byteCount != (qty + 7) / 8 || 6 + byteCount != |pdu|
      then (regs, Exception(0x0F, 0x03))
      else if addr + qty > |regs.coils| * 8 then (regs, Exception(0x0F, 0x02))
      else (regs.(coils := WriteBits(regs.coils, addr, UnpackBits(pdu[6..], qty))), Ok(pdu[..5]))
  }

  function WriteRegisters(regs: Regs, pdu: seq<Byte>): (Regs, Reply)
    requires |pdu| >= 1
  {
    if |pdu| < 7 then (regs, Exception(0x10, 0x03))
    else
      var addr, qty := BE(pdu[1], pdu[2]), BE(pdu[3], pdu[4]);
      var byteCount: nat := pdu[5];
      if qty == 0 || qty > 123 || byteCount != qty * 2 || 6 + byteCount != |pdu|
      then (regs, Exception(0x10, 0x03))
      else if addr + qty > |regs.holding| then (regs, Exception(0x10, 0x02))
      else (regs.(holding := WriteWords(regs.holding, addr, BytesWords(pdu[6..]))), Ok(pdu[..5]))
  }

  predicate IsWrite(fc: Byte) { fc in {0x05, 0x06, 0x0F, 0x10} }

  function Dispatch(regs: Regs, pdu: seq<Byte>, writable: bool): (Regs, Reply) {
    if |pdu| < 1 then (regs, Exception(0xFF, 0x01))
    else
      var fc := pdu[0];
      if fc == 0x01 then (regs, BitsReply(fc, regs.coils, pdu))
      else if fc == 0x02 then (regs, BitsReply(fc, regs.discretes, pdu))
      else if fc == 0x03 then (regs, WordsReply(fc, regs.holding, pdu))
      else if fc == 0x04 then (regs, WordsReply(fc, regs.input, pdu))
      else if !IsWrite(fc) || !writable then (regs, Exception(fc, 0x01))
      else if fc == 0x05 then WriteCoil(regs, pdu)
      else if fc == 0x06 then WriteRegister(regs, pdu)
      else if fc == 0x0F then WriteCoils(regs, pdu)
      else WriteRegisters(regs, pdu)
  }

  /** A rejected request, and every read, leaves the registers alone. */
  lemma RejectedOrReadKeeps(regs: Regs, pdu: seq<Byte>, writable: bool)
    ensures (Dispatch(regs, pdu, writable).1.exception != None || |pdu| == 0 || !IsWrite(pdu[0]))
        ==> Dispatch(regs, pdu, writable).0 == regs
  {
  }

  /** All slaves' registers. */
  type Bank = map<Byte, Regs>

  /** Routing by unit id: the slave must be listed and have registers; a successful write replaces
      its registers, everything else leaves the bank alone. */
  function Route(bank: Bank, slaves: seq<Byte>, id: Byte, pdu: seq<Byte>): (Bank, Option<Reply>) {
    if id !in slaves || id !in bank then (bank, None)
    else
      var write := |pdu| >= 1 && IsWrite(pdu[0]);
      var (regs, r) := Dispatch(bank[id], pdu, write);
      (if write && r.exception.None? then bank[id := regs] else bank, Some(r))
  }

  /** The emulator's handler answers for unknown slaves with exception 1. */
  function Handle(bank: Bank, slaves: seq<Byte>, id: Byte, pdu: seq<Byte>): (Bank, seq<Byte>) {
    var (bank', r) := Route(bank, slaves, id, pdu);
    (bank', if r.Some? then r.value.bytes else Exception(if pdu == [] then 0xFF else pdu[0], 0x01).bytes)
  }
}
