/** From registers to the value of a point: the four byte orders and the integer cases of decoding. */
module PointDecoding {
  import opened Bytes
  import opened Planner

  datatype ByteOrder = ABCD | BADC | CDAB | DCBA

  const MAX_REGISTERS: nat := 4

  /** Which big-endian byte of `n` registers ends up at position `k`; None when the code writes nothing there. */
  function Source(order: ByteOrder, n: nat, k: nat): (j: Option<nat>)
    requires k < 2 * n
    ensures j.Some? ==> j.value < 2 * n
  {
    match order
    case ABCD => Some(k)
    case BADC => Some(if k % 2 == 0 then k + 1 else k - 1)
    case DCBA => Some(2 * n - 1 - k)
    case CDAB =>
      var half := n / 2;
      if k < 2 * half then Some(k + 2 * half)
      else if k < 4 * half then Some(k - 2 * half)
      else None
  }

  /** Every byte order is its own inverse. */
  lemma SourceInvolution(order: ByteOrder, n: nat, k: nat)
    requires k < 2 * n && Source(order, n, k).Some?
    ensures Source(order, n, Source(order, n, k).value) == Some(k)
  {
  }

  /** All bytes are written except by CDAB with an odd number of registers. */
  predicate Complete(order: ByteOrder, n: nat) { order != CDAB || n % 2 == 0 }

  lemma AllWritten(order: ByteOrder, n: nat)
    ensures (forall k :: 0 <= k < 2 * n ==> Source(order, n, k).Some?) <==> Complete(order, n)
  {
    if !Complete(order, n) {
      assert Source(order, n, 2 * n - 1).None?;
    }
  }

  /** Output byte `k` for the big-endian bytes `all`; `was` is what the output buffer held before. */
  function ByteAt(all: seq<Byte>, order: ByteOrder, n: nat, was: seq<Byte>, k: nat): Byte
    requires |all| == 2 * n <= |was| && k < 2 * n
  {
    match Source(order, n, k) case Some(j) => all[j] case None => was[k]
  }

  function Reassembled(regs: seq<Word>, order: ByteOrder, was: seq<Byte>): (bs: seq<Byte>)
    requires |was| >= 2 * |regs|
    ensures |bs| == 2 * |regs|
  {
    var all := WordBytes(regs);
    seq(2 * |regs|, k requires 0 <= k < 2 * |regs| => ByteAt(all, order, |regs|, was, k))
  }

  /** Output bytes `2 * k` and `2 * k + 1`. */
  function PairAt(regs: seq<Word>, order: ByteOrder, was: seq<Byte>, k: nat): (Byte, Byte)
    requires k < |regs| && |was| >= 2 * |regs|
  {
    (Reassembled(regs, order, was)[2 * k], Reassembled(regs, order, was)[2 * k + 1])
  }

  lemma {:induction false} PairOf(regs: seq<Word>, order: ByteOrder, was: seq<Byte>, k: nat)
    requires k < |regs| && |was| >= 2 * |regs|
    ensures PairAt(regs, order, was, k)
         == (ByteAt(WordBytes(regs), order, |regs|, was, 2 * k), ByteAt(WordBytes(regs), order, |regs|, was, 2 * k + 1))
  {
    hide ByteAt;
    hide WordBytes;
  }

  lemma {:induction false} BytesOf(regs: seq<Word>, j: nat)
    requires j < |regs|
    ensures WordBytes(regs)[2 * j] == Hi(regs[j]) && WordBytes(regs)[2 * j + 1] == Lo(regs[j])
  {
  }

  /** Register by register, whatever their number: as transmitted; bytes exchanged; all bytes reversed; the
      halves exchanged, the last of an odd number not written. */
  lemma {:induction false} OrderLaw(regs: seq<Word>, was: seq<Byte>, k: nat)
    requires k < |regs| && |was| >= 2 * |regs|
    ensures PairAt(regs, ABCD, was, k) == (Hi(regs[k]), Lo(regs[k]))
    ensures PairAt(regs, BADC, was, k) == (Lo(regs[k]), Hi(regs[k]))
    ensures PairAt(regs, DCBA, was, k) == (Lo(regs[|regs| - 1 - k]), Hi(regs[|regs| - 1 - k]))
    ensures PairAt(regs, CDAB, was, k) == HalfSwapped(regs, was, k)
  {
    StraightOrders(regs, was, k);
    HalvesOrder(regs, was, k);
    hide *;
  }

  lemma {:induction false} StraightOrders(regs: seq<Word>, was: seq<Byte>, k: nat)
    requires k < |regs| && |was| >= 2 * |regs|
    ensures PairAt(regs, ABCD, was, k) == (Hi(regs[k]), Lo(regs[k]))
    ensures PairAt(regs, BADC, was, k) == (Lo(regs[k]), Hi(regs[k]))
    ensures PairAt(regs, DCBA, was, k) == (Lo(regs[|regs| - 1 - k]), Hi(regs[|regs| - 1 - k]))
  {
    PairOf(regs, ABCD, was, k);
    PairOf(regs, BADC, was, k);
    PairOf(regs, DCBA, was, k);
    BytesOf(regs, k);
    BytesOf(regs, |regs| - 1 - k);
    hide WordBytes;
    hide PairAt;
    hide Hi;
    hide Lo;
  }

  lemma {:induction false} HalvesOrder(regs: seq<Word>, was: seq<Byte>, k: nat)
    requires k < |regs| && |was| >= 2 * |regs|
    ensures PairAt(regs, CDAB, was, k) == HalfSwapped(regs, was, k)
  {
    var half := |regs| / 2;
    PairOf(regs, CDAB, was, k);
    if k < half {
      BytesOf(regs, k + half);
    } else if k < 2 * half {
      BytesOf(regs, k - half);
    }
    hide WordBytes;
    hide PairAt;
    hide Hi;
    hide Lo;
  }

  function HalfSwapped(regs: seq<Word>, was: seq<Byte>, k: nat): (Byte, Byte)
    requires k < |regs| && |was| >= 2 * |regs|
  {
    var half := |regs| / 2;
    if k < half then (Hi(regs[k + half]), Lo(regs[k + half]))
    else if k < 2 * half then (Hi(regs[k - half]), Lo(regs[k - half]))
    else (was[2 * k], was[2 * k + 1])
  }

  lemma FourOf(regs: seq<Word>, order: ByteOrder, was: seq<Byte>)
    requires |regs| == 2 && |was| >= 4
    ensures var p, q := PairAt(regs, order, was, 0), PairAt(regs, order, was, 1);
      Reassembled(regs, order, was) == [p.0, p.1, q.0, q.1]
  {
    var out := Reassembled(regs, order, was);
    hide Reassembled;
    assert out == [out[0], out[1], out[2], out[3]];
  }

  /** Two registers, byte by byte. */
  lemma FourBytes(a: Byte, b: Byte, c: Byte, d: Byte, was: seq<Byte>)
    requires |was| >= 4
    ensures var regs := [BE(a, b), BE(c, d)];
      && Reassembled(regs, ABCD, was) == [a, b, c, d] && Reassembled(regs, BADC, was) == [b, a, d, c]
      && Reassembled(regs, CDAB, was) == [c, d, a, b] && Reassembled(regs, DCBA, was) == [d, c, b, a]
  {
    WordInverse();
    hide Hi;
    hide Lo;
    hide BE;
    hide Reassembled;
    hide PairAt;
    var regs := [BE(a, b), BE(c, d)];
    OrderLaw(regs, was, 0);
    OrderLaw(regs, was, 1);
    FourOf(regs, ABCD, was);
    FourOf(regs, BADC, was);
    FourOf(regs, CDAB, was);
    FourOf(regs, DCBA, was);
  }

  function Permuted(bs: seq<Byte>, order: ByteOrder): (permuted: seq<Byte>)
    requires |bs| % 2 == 0 && Complete(order, |bs| / 2)
    ensures |permuted| == |bs|
  {
    AllWritten(order, |bs| / 2);
    seq(|bs|, k requires 0 <= k < |bs| => bs[Source(order, |bs| / 2, k).value])
  }

  /** The registers of a device that lays out the big-endian bytes `bs` in this order. */
  function Layout(bs: seq<Byte>, order: ByteOrder): seq<Word>
    requires |bs| % 2 == 0 && Complete(order, |bs| / 2)
  {
    BytesWords(Permuted(bs, order))
  }

  lemma {:induction false} BytesWordsInverse(bs: seq<Byte>)
    requires |bs| % 2 == 0
    ensures WordBytes(BytesWords(bs)) == bs
  {
    WordInverse();
    var ws := BytesWords(bs);
    var back := WordBytes(ws);
    hide WordBytes;
    forall k | 0 <= k < |bs| ensures back[k] == bs[k] {
      var i := k / 2;
      assert back[2 * i] == Hi(ws[i]) == bs[2 * i] && back[2 * i + 1] == Lo(ws[i]) == bs[2 * i + 1];
    }
  }

  lemma {:induction false} PermutedTwice(bs: seq<Byte>, order: ByteOrder, was: seq<Byte>, k: nat)
    requires |bs| % 2 == 0 && Complete(order, |bs| / 2) && k < |bs| <= |was|
    ensures ByteAt(Permuted(bs, order), order, |bs| / 2, was, k) == bs[k]
  {
    AllWritten(order, |bs| / 2);
    SourceInvolution(order, |bs| / 2, k);
    hide Source;
  }

  /** Reading back what a device laid out gives the original bytes. */
  lemma {:induction false} LayoutRoundTrip(bs: seq<Byte>, order: ByteOrder, was: seq<Byte>)
    requires |bs| % 2 == 0 && Complete(order, |bs| / 2) && |was| >= |bs|
    ensures Reassembled(Layout(bs, order), order, was) == bs
  {
    var permuted := Permuted(bs, order);
    BytesWordsInverse(permuted);
    forall k | 0 <= k < |bs| ensures ByteAt(permuted, order, |bs| / 2, was, k) == bs[k] {
      PermutedTwice(bs, order, was, k);
    }
    hide ByteAt;
    hide Permuted;
    hide WordBytes;
  }

  /** The registers determine the bytes whatever the buffer held before if and only if the byte order
      is complete for their number. */
  lemma {:induction false} ReassemblyDefinite(order: ByteOrder, regs: seq<Word>)
    ensures (forall was, was' :: |was| == |was'| == 2 * |regs| ==>
               Reassembled(regs, order, was) == Reassembled(regs, order, was'))
      <==> Complete(order, |regs|)
  {
    var n := |regs|;
    AllWritten(order, n);
    if !Complete(order, n) {
      var k: nat :| k < 2 * n && Source(order, n, k).None?;
      var was, was' := seq(2 * n, _ => 0), seq(2 * n, _ => 1);
      assert Reassembled(regs, order, was)[k] == 0 && Reassembled(regs, order, was')[k] == 1;
    }
  }

  /** The first `done` bytes are in place, the others untouched. */
  ghost predicate Partly(out: seq<Byte>, was: seq<Byte>, all: seq<Byte>, order: ByteOrder, n: nat, done: nat)
    requires |all| == 2 * n
  {
    && |out| == |was| && done <= 2 * n <= |out|
    && (forall k :: 0 <= k < done ==> out[k] == ByteAt(all, order, n, was, k))
    && (forall k :: done <= k < |out| ==> out[k] == was[k])
  }

  lemma {:induction false} Finished(out: seq<Byte>, was: seq<Byte>, regs: seq<Word>, order: ByteOrder)
    requires Partly(out, was, WordBytes(regs), order, |regs|, 2 * |regs|)
    ensures out[..2 * |regs|] == Reassembled(regs, order, was) && out[2 * |regs|..] == was[2 * |regs|..]
  {
    hide ByteAt;
    hide WordBytes;
  }

  /** Registers split into bytes, high byte first. */
  method SplitRegisters(regs: seq<Word>) returns (buf: array<Byte>)
    ensures fresh(buf) && buf[..] == WordBytes(regs)
  {
    ghost var all := WordBytes(regs);
    buf := new Byte[2 * |regs|](_ => 0);
    for i := 0 to |regs|
      invariant buf[..2 * i] == all[..2 * i]
    {
      buf[2 * i] := Hi(regs[i]);
      buf[2 * i + 1] := Lo(regs[i]);
      assert all[2 * i] == Hi(regs[i]) && all[2 * i + 1] == Lo(regs[i]);
      assert buf[..2 * (i + 1)] == buf[..2 * i] + [buf[2 * i], buf[2 * i + 1]];
    }
    assert buf[..] == buf[..2 * |regs|];
  }

  method CopyThrough(buf: array<Byte>, n: nat, out: array<Byte>)
    requires buf != out && buf.Length == 2 * n <= out.Length
    modifies out
    ensures Partly(out[..], old(out[..]), buf[..], ABCD, n, 2 * n)
  {
    for i := 0 to 2 * n
      invariant buf[..] == old(buf[..]) && Partly(out[..], old(out[..]), buf[..], ABCD, n, i)
    {
      out[i] := buf[i];
    }
  }

  /** Swaps the first half of the registers with the second; an odd last register is not written. */
  method SwapHalves(buf: array<Byte>, n: nat, out: array<Byte>)
    requires buf != out && buf.Length == 2 * n <= out.Length
    modifies out
    ensures Partly(out[..], old(out[..]), buf[..], CDAB, n, 2 * n)
  {
    var half := n / 2;
    for i := 0 to half
      invariant buf[..] == old(buf[..])
      invariant forall k :: 0 <= k < 2 * i ==> out[k] == buf[k + 2 * half]
      invariant forall k :: 2 * half <= k < 2 * half + 2 * i ==> out[k] == buf[k - 2 * half]
      invariant forall k :: 2 * i <= k < 2 * half || 2 * half + 2 * i <= k < out.Length ==> out[k] == old(out[k])
    {
      var src, dst := 2 * i, 2 * (i + half);
      out[dst + 0] := buf[src + 0];
      out[dst + 1] := buf[src + 1];
      out[src + 0] := buf[dst + 0];
      out[src + 1] := buf[dst + 1];
    }
  }

  method SwapBytes(buf: array<Byte>, n: nat, out: array<Byte>)
    requires buf != out && buf.Length == 2 * n <= out.Length
    modifies out
    ensures Partly(out[..], old(out[..]), buf[..], BADC, n, 2 * n)
  {
    for i := 0 to n
      invariant buf[..] == old(buf[..]) && Partly(out[..], old(out[..]), buf[..], BADC, n, 2 * i)
    {
      out[2 * i] := buf[2 * i + 1];
      out[2 * i + 1] := buf[2 * i];
    }
  }

  method ReverseAll(buf: array<Byte>, n: nat, out: array<Byte>)
    requires buf != out && buf.Length == 2 * n <= out.Length
    modifies out
    ensures Partly(out[..], old(out[..]), buf[..], DCBA, n, 2 * n)
  {
    for i := 0 to 2 * n
      invariant buf[..] == old(buf[..]) && Partly(out[..], old(out[..]), buf[..], DCBA, n, i)
    {
      out[i] := buf[2 * n - 1 - i];
    }
  }

  /** Fills the output buffer; too many registers or too small a buffer is refused. */
  method ReassembleBytes(regs: seq<Word>, order: ByteOrder, out: array<Byte>) returns (need: nat)
    modifies out
    ensures |regs| == 0 || |regs| > MAX_REGISTERS || out.Length < 2 * |regs| ==> need == 0 && out[..] == old(out[..])
    ensures 0 < |regs| <= MAX_REGISTERS && 2 * |regs| <= out.Length ==>
      && need == 2 * |regs| && out[..][..need] == Reassembled(regs, order, old(out[..]))
      && out[..][need..] == old(out[..])[need..]
  {
    var n := |regs|;
    need := 2 * n;
    if n == 0 || n > MAX_REGISTERS || out.Length < need {
      return 0;
    }
    var buf := SplitRegisters(regs);
    hide Partly;
    hide Source;
    match order {
      case ABCD => CopyThrough(buf, n, out);
      case CDAB => SwapHalves(buf, n, out);
      case BADC => SwapBytes(buf, n, out);
      case DCBA => ReverseAll(buf, n, out);
    }
    Finished(out[..], old(out[..]), regs, order);
  }

  // ---- integer points ----

  /** The types whose decoding does not go through a floating-point layout. */
  predicate IsExact(dt: DataType) { dt.Bool? || dt.Int16? || dt.Uint16? || dt.Int32? }

  /** Big-endian bytes as an unsigned number. */
  function Unsigned(bs: seq<Byte>): nat {
    if bs == [] then 0 else 256 * Unsigned(bs[..|bs| - 1]) + bs[|bs| - 1]
  }

  /** Two's complement of `bits` bits. */
  function Signed(u: nat, bits: nat): int { if u >= Pow2(bits) / 2 then u - Pow2(bits) else u }

  function DecodeRaw(bs: seq<Byte>, dt: DataType): int
    requires IsExact(dt)
  {
    match dt
    case Bool => if |bs| >= 1 && bs[0] != 0 then 1 else 0
    case Int16 => if |bs| < 2 then 0 else Signed(Unsigned(bs[..2]), 16)
    case Uint16 => if |bs| < 2 then 0 else Unsigned(bs[..2])
    case Int32 => if |bs| < 4 then 0 else Signed(Unsigned(bs[..4]), 32)
  }

  /** Engineering value of a raw one. */
  function Scaled(raw: int, scale: real, offset: real): real { raw as real * scale + offset }

  /** Scaling a raw value gives back the engineering value it stands for. */
  lemma ScaledBack(raw: int, scale: real, offset: real, e: real)
    requires raw as real * scale == e - offset
    ensures Scaled(raw, scale, offset) == e
  {
  }

  function Decode(bs: seq<Byte>, dt: DataType, scale: real, offset: real): real
    requires IsExact(dt)
  {
    if !dt.Bool? && |bs| < 2 * RegisterCountFor(dt) then 0.0 else Scaled(DecodeRaw(bs, dt), scale, offset)
  }

  predicate Representable(v: int, dt: DataType) {
    match dt
    case Int16 => -0x8000 <= v < 0x8000
    case Uint16 => 0 <= v < 0x1_0000
    case Int32 => -0x8000_0000 <= v < 0x8000_0000
    case _ => false
  }

  /** The big-endian bytes of a value. */
  function Encode(v: int, dt: DataType): (bs: seq<Byte>)
    requires Representable(v, dt)
    ensures |bs| == 2 * RegisterCountFor(dt)
  {
    if dt.Int32? then
      var u := if v < 0 then v + 0x1_0000_0000 else v;
      WordBytes([u / 0x1_0000, u % 0x1_0000])
    else WordBytes([if v < 0 then v + 0x1_0000 else v])
  }

  lemma Pow2Of32()
    ensures Pow2(32) == 0x1_0000_0000
  {
    Pow2Values();
    assert Pow2(18) == 0x4_0000;
    assert Pow2(20) == 0x10_0000;
    assert Pow2(22) == 0x40_0000;
    assert Pow2(24) == 0x100_0000;
    assert Pow2(26) == 0x400_0000;
    assert Pow2(28) == 0x1000_0000;
    assert Pow2(30) == 0x4000_0000;
  }

  lemma WordUnsigned(w: Word)
    ensures Unsigned(WordBytes([w])) == w
  {
    HiLo(w);
    var bs := WordBytes([w]);
    assert bs[0] == Hi(w) && bs[1] == Lo(w);
    assert bs == [Hi(w), Lo(w)];
    assert bs[..1] == [Hi(w)] && bs[..1][..0] == [];
    assert Unsigned([Hi(w)]) == Hi(w);
  }

  lemma TwoWordsUnsigned(hi: Word, lo: Word)
    ensures Unsigned(WordBytes([hi, lo])) == 0x1_0000 * hi + lo
  {
    HiLo(lo);
    var bs := WordBytes([hi, lo]);
    assert [hi, lo][..1] == [hi];
    assert bs == WordBytes([hi]) + [Hi(lo), Lo(lo)];
    assert bs[..3] == WordBytes([hi]) + [Hi(lo)];
    assert bs[..3][..2] == WordBytes([hi]);
    WordUnsigned(hi);
    assert Unsigned(bs[..3]) == 256 * hi + Hi(lo);
  }

  lemma DecodeEncode(v: int, dt: DataType)
    requires Representable(v, dt)
    ensures DecodeRaw(Encode(v, dt), dt) == v
  {
    Pow2Values();
    Pow2Of32();
    var bs := Encode(v, dt);
    assert bs[..|bs|] == bs;
    if dt.Int32? {
      var u := if v < 0 then v + 0x1_0000_0000 else v;
      TwoWordsUnsigned(u / 0x1_0000, u % 0x1_0000);
    } else {
      WordUnsigned(if v < 0 then v + 0x1_0000 else v);
    }
  }

  lemma {:induction false} DecodeOf(bs: seq<Byte>, dt: DataType, scale: real, offset: real)
    requires IsExact(dt) && |bs| == 2 * RegisterCountFor(dt)
    ensures Decode(bs, dt, scale, offset) == Scaled(DecodeRaw(bs, dt), scale, offset)
  {
  }

  /** The engineering value `e` whose raw value a device lays out in the point's byte order is decoded as
      `e`, in every order that is complete for its registers. */
  lemma {:induction false} ValueRoundTrip(v: int, dt: DataType, order: ByteOrder, was: seq<Byte>, scale: real,
                                          offset: real, e: real)
    requires Representable(v, dt) && Complete(order, RegisterCountFor(dt)) && |was| >= 2 * RegisterCountFor(dt)
    requires v as real * scale == e - offset
    ensures Decode(Reassembled(Layout(Encode(v, dt), order), order, was), dt, scale, offset) == e
  {
    RoundTripScaled(v, dt, order, was, scale, offset);
    hide *;
    ScaledBack(v, scale, offset, e);
  }

  lemma {:induction false} RoundTripScaled(v: int, dt: DataType, order: ByteOrder, was: seq<Byte>, scale: real,
                                           offset: real)
    requires Representable(v, dt) && Complete(order, RegisterCountFor(dt)) && |was| >= 2 * RegisterCountFor(dt)
    ensures Decode(Reassembled(Layout(Encode(v, dt), order), order, was), dt, scale, offset) == Scaled(v, scale, offset)
  {
    hide Scaled;
    hide Reassembled;
    hide Layout;
    hide DecodeRaw;
    hide Encode;
    var bs := Encode(v, dt);
    LayoutRoundTrip(bs, order, was);
    DecodeEncode(v, dt);
    DecodeOf(bs, dt, scale, offset);
  }

  /** A single register in order CDAB is lost: the point reads as zero, whatever the register holds. */
  lemma SingleRegisterLost(w: Word, dt: DataType, scale: real, offset: real)
    requires RegisterCountFor(dt) == 1
    ensures Decode(Reassembled([w], CDAB, seq(8, _ => 0)), dt, scale, offset) == offset
  {
    var bs := Reassembled([w], CDAB, seq(8, _ => 0));
    assert bs == [0, 0];
    Pow2Values();
    assert bs[..2] == bs && bs[..1] == [0] && bs[..1][..0] == [];
    assert Unsigned([0]) == 0;
  }

  /** A Bool point in a register looks at one byte only: the high one as transmitted, the low one when
      the order swaps bytes, and none at all in order CDAB. */
  lemma BoolSeesOneByte(w: Word, order: ByteOrder)
    ensures DecodeRaw(Reassembled([w], order, seq(8, _ => 0)), Bool) == 1
      <==> match order
           case ABCD => Hi(w) != 0
           case BADC => Lo(w) != 0
           case DCBA => Lo(w) != 0
           case CDAB => false
  {
    var all := WordBytes([w]);
    assert all[0] == Hi(w) && all[1] == Lo(w);
    var was: seq<Byte> := seq(8, _ => 0);
    assert Reassembled([w], order, was)[0] == ByteAt(all, order, 1, was, 0);
  }
}
