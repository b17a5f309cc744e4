/** The slave's register set, dispatcher and copy-on-write bank as the simulator runs them: arrays
    updated in place, proved against the value-level definitions. */
module RegisterBanks {
  import opened Bytes
  import opened SlaveValues

  class SlaveRegset {
    const slaveId: Byte
    const holding: array<Word>
    const input: array<Word>
    const coils: array<Byte>
    const discretes: array<Byte>
    var alarmWord: Word

    /** The four images are four vectors. */
    ghost predicate Valid() {
      && holding as object != input && holding as object != coils && holding as object != discretes
      && input as object != coils && input as object != discretes
      && coils as object != discretes
    }

    ghost function Value(): Regs
      reads holding, input, coils, discretes
    {
      Regs(holding[..], input[..], coils[..], discretes[..])
    }

    constructor Allocate(slaveId: Byte, holdingSize: nat, inputSize: nat)
      ensures Valid() && fresh(holding) && fresh(input) && fresh(coils) && fresh(discretes)
      ensures |Value().coils| == (holdingSize + 7) / 8 && |Value().discretes| == (inputSize + 7) / 8
      ensures |Value().holding| == holdingSize && |Value().input| == inputSize
      ensures forall reg: Word :: WordAt(Value().holding, reg) == 0 && WordAt(Value().input, reg) == 0
      ensures forall i :: 0 <= i < |Value().coils| ==> Value().coils[i] == 0
      ensures forall i :: 0 <= i < |Value().discretes| ==> Value().discretes[i] == 0
    {
      this.slaveId := slaveId;
      holding := new Word[holdingSize](_ => 0);
      input := new Word[inputSize](_ => 0);
      coils := new Byte[(holdingSize + 7) / 8](_ => 0);
      discretes := new Byte[(inputSize + 7) / 8](_ => 0);
      alarmWord := 0;
    }

    /** The copy taken before a write. */
    constructor CopyOf(other: SlaveRegset)
      ensures Valid() && fresh(holding) && fresh(input) && fresh(coils) && fresh(discretes)
      ensures Value() == other.Value() && slaveId == other.slaveId && alarmWord == other.alarmWord
    {
      slaveId := other.slaveId;
      holding := new Word[other.holding.Length](
        i requires 0 <= i < other.holding.Length reads other.holding => other.holding[i]);
      input := new Word[other.input.Length](i requires 0 <= i < other.input.Length reads other.input => other.input[i]);
      coils := new Byte[other.coils.Length](i requires 0 <= i < other.coils.Length reads other.coils => other.coils[i]);
      discretes := new Byte[other.discretes.Length](
        i requires 0 <= i < other.discretes.Length reads other.discretes => other.discretes[i]);
      alarmWord := other.alarmWord;
    }
  }

  // ---- cells ----

  method SetWord(cells: array<Word>, reg: Word, v: Word)
    modifies cells
    ensures cells[..] == WithWord(old(cells[..]), reg, v)
  {
    if reg < cells.Length {
      cells[reg] := v;
    }
  }

  method SetBit(cells: array<Byte>, reg: Word, v: bool)
    modifies cells
    ensures cells[..] == WithBitAt(old(cells[..]), reg, v)
  {
    var byteIdx := reg / 8;
    if byteIdx >= cells.Length {
      return;
    }
    cells[byteIdx] := ByteWithBit(cells[byteIdx], reg % 8, v);
  }

  // ---- the function codes ----

  method BitsResponse(fc: Byte, cells: array<Byte>, pdu: seq<Byte>) returns (r: Reply)
    requires |pdu| >= 1
    ensures r == BitsReply(fc, cells[..], pdu)
  {
    if |pdu| != 5 { return Exception(fc, 0x03); }
    var addr, qty := BE(pdu[1], pdu[2]), BE(pdu[3], pdu[4]);
    if qty == 0 || qty > 2000 { return Exception(fc, 0x03); }
    if addr + qty > cells.Length * 8 { return Exception(fc, 0x02); }
    var byteCount := (qty + 7) / 8;
    var packed := PackCells(cells, addr, qty);
    r := Ok([fc, byteCount] + packed);
  }

  /** Sets bit `i` of the answer for every set cell `addr + i`. */
  method PackCells(cells: array<Byte>, addr: Word, qty: Word) returns (bytes: seq<Byte>)
    ensures bytes == PackBits(ReadBits(cells[..], addr, qty))
  {
    ghost var bits := ReadBits(cells[..], addr, qty);
    var packed := new Byte[(qty + 7) / 8](_ => 0);
    forall j, k | 0 <= j < packed.Length && 0 <= k < 8 ensures !TestBit(packed[j], k) {
      ZeroBit(k);
    }
    for i := 0 to qty
      invariant forall j, k :: 0 <= j < packed.Length && 0 <= k < 8
                  ==> TestBit(packed[j], k) == (8 * j + k < i && bits[8 * j + k])
    {
      var reg := Cell(addr, i);
      assert bits[i] == BitAt(cells[..], reg);
      if reg / 8 < cells.Length && TestBit(cells[reg / 8], reg % 8) {
        ghost var before := packed[i / 8];
        packed[i / 8] := ByteWithBit(packed[i / 8], i % 8, true);
        forall k | 0 <= k < 8
          ensures TestBit(packed[i / 8], k) == if k == i % 8 then true else TestBit(before, k)
        {
          WithBitTest(before, i % 8, true, k);
        }
      }
    }
    bytes := packed[..];
    PackedIsUnique(bytes, bits);
  }

  lemma {:induction false} ZeroBit(k: nat)
    ensures !TestBit(0, k)
  {
    if k > 0 {
      ZeroBit(k - 1);
    }
  }

  method WordsResponse(fc: Byte, cells: array<Word>, pdu: seq<Byte>) returns (r: Reply)
    requires |pdu| >= 1
    ensures r == WordsReply(fc, cells[..], pdu)
  {
    if |pdu| != 5 { return Exception(fc, 0x03); }
    var addr, qty := BE(pdu[1], pdu[2]), BE(pdu[3], pdu[4]);
    if qty == 0 || qty > 125 { return Exception(fc, 0x03); }
    if addr + qty > cells.Length { return Exception(fc, 0x02); }
    ghost var ws := ReadWords(cells[..], addr, qty);
    var bytes: seq<Byte> := [];
    for i := 0 to qty
      invariant bytes == WordBytes(ws[..i])
    {
      var reg := Cell(addr, i);
      var w := if reg < cells.Length then cells[reg] else 0;
      assert ws[i] == w && ws[..i + 1][..i] == ws[..i];
      bytes := bytes + [Hi(w), Lo(w)];
    }
    assert ws[..qty] == ws;
    r := Ok([fc, qty * 2] + bytes);
  }

  method StoreBits(cells: array<Byte>, addr: Word, qty: Word, data: seq<Byte>)
    requires (qty + 7) / 8 <= |data|
    modifies cells
    ensures cells[..] == WriteBits(old(cells[..]), addr, UnpackBits(data, qty))
  {
    ghost var bits := UnpackBits(data, qty);
    for i := 0 to qty
      invariant cells[..] == WriteBits(old(cells[..]), addr, bits[..i])
    {
      var on := TestBit(data[i / 8], i % 8);
      assert bits[..i + 1][..i] == bits[..i] && bits[i] == on;
      SetBit(cells, Cell(addr, i), on);
    }
    assert bits[..qty] == bits;
  }

  method StoreWords(cells: array<Word>, addr: Word, qty: Word, data: seq<Byte>)
    requires |data| == 2 * qty
    modifies cells
    ensures cells[..] == WriteWords(old(cells[..]), addr, BytesWords(data))
  {
    ghost var ws := BytesWords(data);
    for i := 0 to qty
      invariant cells[..] == WriteWords(old(cells[..]), addr, ws[..i])
    {
      assert ws[..i + 1][..i] == ws[..i];
      SetWord(cells, Cell(addr, i), BE(data[2 * i], data[2 * i + 1]));
    }
    assert ws[..qty] == ws;
  }

  method WriteSingleCoil(regs: SlaveRegset, pdu: seq<Byte>) returns (r: Reply)
    requires regs.Valid() && |pdu| >= 1
    modifies regs.coils
    ensures (regs.Value(), r) == WriteCoil(old(regs.Value()), pdu)
  {
    if |pdu| != 5 { return Exception(0x05, 0x03); }
    var addr, val := BE(pdu[1], pdu[2]), BE(pdu[3], pdu[4]);
    if val != 0xFF00 && val != 0x0000 { return Exception(0x05, 0x03); }
    if addr >= regs.coils.Length * 8 { return Exception(0x05, 0x02); }
    SetBit(regs.coils, addr, val == 0xFF00);
    r := Ok(pdu);
  }

  method WriteSingleRegister(regs: SlaveRegset, pdu: seq<Byte>) returns (r: Reply)
    requires regs.Valid() && |pdu| >= 1
    modifies regs.holding
    ensures (regs.Value(), r) == WriteRegister(old(regs.Value()), pdu)
  {
    if |pdu| != 5 { return Exception(0x06, 0x03); }
    var addr, val := BE(pdu[1], pdu[2]), BE(pdu[3], pdu[4]);
    if addr >= regs.holding.Length { return Exception(0x06, 0x02); }
    SetWord(regs.holding, addr, val);
    r := Ok(pdu);
  }

  lemma EchoedHead(pdu: seq<Byte>)
    requires |pdu| >= 5
    ensures var addr, qty := BE(pdu[1], pdu[2]), BE(pdu[3], pdu[4]);
      [pdu[0]] + [Hi(addr), Lo(addr)] + [Hi(qty), Lo(qty)] == pdu[..5]
  {
    WordInverse();
  }

  method WriteMultipleCoils(regs: SlaveRegset, pdu: seq<Byte>) returns (r: Reply)
    requires regs.Valid() && |pdu| >= 1 && pdu[0] == 0x0F
    modifies regs.coils
    ensures (regs.Value(), r) == WriteCoils(old(regs.Value()), pdu)
  {
    if |pdu| < 7 { return Exception(0x0F, 0x03); }
    var addr, qty := BE(pdu[1], pdu[2]), BE(pdu[3], pdu[4]);
    var byteCount: nat := pdu[5];
    if qty == 0 || qty > 1968 { return Exception(0x0F, 0x03); }
    if byteCount != (qty + 7) / 8 { return Exception(0x0F, 0x03); }
    if 6 + byteCount != |pdu| { return Exception(0x0F, 0x03); }
    if addr + qty > regs.coils.Length * 8 { return Exception(0x0F, 0x02); }
    StoreBits(regs.coils, addr, qty, pdu[6..]);
    r := Ok([0x0F] + [Hi(addr), Lo(addr)] + [Hi(qty), Lo(qty)]);
    EchoedHead(pdu);
  }

  method WriteMultipleRegisters(regs: SlaveRegset, pdu: seq<Byte>) returns (r: Reply)
    requires regs.Valid() && |pdu| >= 1 && pdu[0] == 0x10
    modifies regs.holding
    ensures (regs.Value(), r) == WriteRegisters(old(regs.Value()), pdu)
  {
    if |pdu| < 7 { return Exception(0x10, 0x03); }
    var addr, qty := BE(pdu[1], pdu[2]), BE(pdu[3], pdu[4]);
    var byteCount: nat := pdu[5];
    if qty == 0 || qty > 123 { return Exception(0x10, 0x03); }
    if byteCount != qty * 2 { return Exception(0x10, 0x03); }
    if 6 + byteCount != |pdu| { return Exception(0x10, 0x03); }
    if addr + qty > regs.holding.Length { return Exception(0x10, 0x02); }
    StoreWords(regs.holding, addr, qty, pdu[6..]);
    r := Ok([0x10] + [Hi(addr), Lo(addr)] + [Hi(qty), Lo(qty)]);
    EchoedHead(pdu);
  }

  /** `dispatchFull`: answers one PDU; only a writable dispatch may touch the registers. */
  method DispatchFull(regs: SlaveRegset, pdu: seq<Byte>, writable: bool) returns (r: Reply)
    requires regs.Valid()
    modifies if writable then {regs.holding as object, regs.coils} else {}
    ensures (regs.Value(), r) == Dispatch(old(regs.Value()), pdu, writable)
  {
    if |pdu| < 1 { return Exception(0xFF, 0x01); }
    var fc := pdu[0];
    if fc == 0x01 {
      r := BitsResponse(fc, regs.coils, pdu);
    } else if fc == 0x02 {
      r := BitsResponse(fc, regs.discretes, pdu);
    } else if fc == 0x03 {
      r := WordsResponse(fc, regs.holding, pdu);
    } else if fc == 0x04 {
      r := WordsResponse(fc, regs.input, pdu);
    } else if fc in {0x05, 0x06, 0x0F, 0x10} {
      if !writable { return Exception(fc, 0x01); }
      if fc == 0x05 {
        r := WriteSingleCoil(regs, pdu);
      } else if fc == 0x06 {
        r := WriteSingleRegister(regs, pdu);
      } else if fc == 0x0F {
        r := WriteMultipleCoils(regs, pdu);
      } else {
        r := WriteMultipleRegisters(regs, pdu);
      }
    } else {
      r := Exception(fc, 0x01);
    }
  }

  // ---- the bank ----

  class RegisterBank {
    var banks: map<Byte, SlaveRegset>

    ghost predicate Valid()
      reads this
    {
      forall id :: id in banks ==> banks[id].Valid()
    }

    ghost function Footprint(): set<object>
      reads this
    {
      (set id | id in banks :: banks[id].holding as object) + (set id | id in banks :: banks[id].input as object)
      + (set id | id in banks :: banks[id].coils as object) + (set id | id in banks :: banks[id].discretes as object)
    }

    ghost function Value(): Bank
      reads this, Footprint()
    {
      map id | id in banks :: banks[id].Value()
    }

    constructor ()
      ensures Valid() && Value() == map[]
    {
      banks := map[];
    }

    method Publish(slave: Byte, next: SlaveRegset)
      requires Valid() && next.Valid()
      modifies this
      ensures Valid() && banks == old(banks)[slave := next]
      ensures Value() == old(Value())[slave := next.Value()]
    {
      banks := banks[slave := next];
    }

    /** Copy-on-write of one holding register. */
    method WriteHolding(slave: Byte, addr: Word, v: Word)
      requires Valid()
      modifies this
      ensures Valid()
      ensures Value() == if slave in old(Value())
                         then old(Value())[slave := old(Value())[slave].(
                                holding := WithWord(old(Value())[slave].holding, addr, v))]
                         else old(Value())
    {
      if slave !in banks {
        return;
      }
      hide WithWord;
      ghost var before := Value();
      var copy := new SlaveRegset.CopyOf(banks[slave]);
      SetWord(copy.holding, addr, v);
      assert Value() == before && banks[slave].Value() == before[slave];
      assert copy.Value() == before[slave].(holding := WithWord(before[slave].holding, addr, v));
      Publish(slave, copy);
    }

    /** A read is served from the current snapshot. */
    method ServeRead(id: Byte, pdu: seq<Byte>) returns (r: Reply)
      requires Valid() && id in banks
      requires |pdu| == 0 || !IsWrite(pdu[0])
      ensures Value() == old(Value()) && r == Dispatch(Value()[id], pdu, false).1
    {
      r := DispatchFull(banks[id], pdu, false);
    }

    /** A write is served on a copy, which replaces the snapshot if it succeeded. */
    method ServeWrite(id: Byte, pdu: seq<Byte>) returns (r: Reply)
      requires Valid() && id in banks
      modifies this
      ensures Valid()
      ensures r == Dispatch(old(Value())[id], pdu, true).1
      ensures r.exception.Some? ==> banks == old(banks) && Value() == old(Value())
      ensures r.exception.None? ==> Value() == old(Value())[id := Dispatch(old(Value())[id], pdu, true).0]
    {
      hide Dispatch;
      ghost var before := Value();
      var writeCopy := new SlaveRegset.CopyOf(banks[id]);
      r := DispatchFull(writeCopy, pdu, true);
      assert Value() == before;
      if r.exception.None? {
        Publish(id, writeCopy);
      }
    }

    /** `dispatchBySlaveId`. The clause `modifies this` is the snapshot guarantee: no register set
        that existed before, in the bank or held elsewhere, changes. */
    method DispatchBySlaveId(id: Byte, slaves: seq<Byte>, pdu: seq<Byte>) returns (r: Option<Reply>)
      requires Valid()
      modifies this
      ensures Valid()
      ensures (Value(), r) == Route(old(Value()), slaves, id, pdu)
      ensures r.None? || r.value.exception.Some? || !IsWrite(pdu[0]) ==> banks == old(banks)
    {
      ghost var before := Value();
      assert id in banks <==> id in before;
      if id !in slaves || id !in banks {
        return None;
      }
      if |pdu| >= 1 && IsWrite(pdu[0]) {
        hide Dispatch;
        var reply := ServeWrite(id, pdu);
        r := Some(reply);
        assert (Value(), r) == Route(before, slaves, id, pdu);
      } else {
        RejectedOrReadKeeps(before[id], pdu, false);
        hide Dispatch;
        var reply := ServeRead(id, pdu);
        assert Value() == before;
        r := Some(reply);
        assert (Value(), r) == Route(before, slaves, id, pdu);
      }
    }
  }
}
