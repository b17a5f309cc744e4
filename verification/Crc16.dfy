/** CRC-16/MODBUS: the bit-by-bit form of the stream accumulator, the table form that host and
    simulator each carry a copy of, and what the check sum detects. */
module Crc16 {
  import opened Bytes

  const POLYNOMIAL: Word := 0xA001
  const INITIAL: Word := 0xFFFF
  const BITS: nat := 8

  function XorWords(x: Word, y: Word): Word {
    Pow2Values();
    XorBound(x, y, 16);
    Xor(x, y)
  }

  /** One shift of the reflected polynomial. */
  function Shift(crc: Word): Word {
    if crc % 2 == 1 then XorWords(crc / 2, POLYNOMIAL) else crc / 2
  }

  function Shifts(crc: Word, n: nat): Word {
    if n == 0 then crc else Shift(Shifts(crc, n - 1))
  }

  /** What one byte does to the running check sum, by definition: exclusive or, then eight shifts. */
  function Step(crc: Word, b: Byte): Word {
    Shifts(XorWords(crc, b), BITS)
  }

  function Crc(s: seq<Byte>): Word {
    if s == [] then INITIAL else Step(Crc(s[..|s| - 1]), s[|s| - 1])
  }

  // ---- the table ----

  ghost predicate IsTable(t: seq<Word>) {
    |t| == 256 && forall i: Byte :: t[i] == Shifts(i, BITS)
  }

  method TableEntry(index: Byte) returns (crc: Word)
    ensures crc == Shifts(index, BITS)
  {
    crc := index;
    for i := 0 to BITS
      invariant crc == Shifts(index, i)
    {
      crc := if crc % 2 == 1 then XorWords(crc / 2, POLYNOMIAL) else crc / 2;
    }
  }

  method BuildTable() returns (table: seq<Word>)
    ensures IsTable(table)
  {
    var t := new Word[256](_ => 0);
    for i := 0 to 256
      invariant forall j: Byte :: j < i ==> t[j] == Shifts(j, BITS)
    {
      t[i] := TableEntry(i);
    }
    table := t[..];
  }

  /** Shifting is linear over exclusive or. */
  lemma ShiftLinear(x: Word, y: Word)
    ensures Shift(XorWords(x, y)) == XorWords(Shift(x), Shift(y))
  {
    hide Xor;
    ShiftOfXor(x, y);
    if x % 2 == 1 && y % 2 == 1 {
      PolynomialTwice(x / 2, y / 2);
    } else if x % 2 == 1 {
      PolynomialLeft(x / 2, y / 2);
    } else if y % 2 == 1 {
      PolynomialRight(x / 2, y / 2);
    }
  }

  lemma ShiftOfXor(x: Word, y: Word)
    ensures Shift(XorWords(x, y))
         == if (x + y) % 2 == 1 then Xor(Xor(x / 2, y / 2), POLYNOMIAL) else Xor(x / 2, y / 2)
  {
    XorHalves(x, y);
  }

  lemma XorHalves(x: nat, y: nat)
    ensures Xor(x, y) / 2 == Xor(x / 2, y / 2)
    ensures Xor(x, y) % 2 == (x + y) % 2
  {
  }

  lemma PolynomialRight(h: Word, k: Word)
    ensures Xor(h, Xor(k, POLYNOMIAL)) == Xor(Xor(h, k), POLYNOMIAL)
  {
    Pow2Values();
    XorAssociates(h, k, POLYNOMIAL, 16);
  }

  lemma PolynomialLeft(h: Word, k: Word)
    ensures Xor(Xor(h, POLYNOMIAL), k) == Xor(Xor(h, k), POLYNOMIAL)
  {
    Pow2Values();
    XorAssociates(h, POLYNOMIAL, k, 16);
    XorCommutes(POLYNOMIAL, k);
    PolynomialRight(h, k);
  }

  lemma PolynomialTwice(h: Word, k: Word)
    ensures Xor(Xor(h, POLYNOMIAL), Xor(k, POLYNOMIAL)) == Xor(h, k)
  {
    Pow2Values();
    XorBound(k, POLYNOMIAL, 16);
    PolynomialLeft(h, Xor(k, POLYNOMIAL));
    XorAssociates(h, Xor(k, POLYNOMIAL), POLYNOMIAL, 16);
    XorAssociates(k, POLYNOMIAL, POLYNOMIAL, 16);
    XorSelf(POLYNOMIAL);
    XorZero(k);
  }

  lemma {:induction false} ShiftsLinear(x: Word, y: Word, n: nat)
    ensures Shifts(XorWords(x, y), n) == XorWords(Shifts(x, n), Shifts(y, n))
  {
    if n > 0 {
      ShiftsLinear(x, y, n - 1);
      ShiftLinear(Shifts(x, n - 1), Shifts(y, n - 1));
    }
  }

  /** `h * 2^n` written as repeated doubling. */
  function Doubled(h: nat, n: nat): nat {
    if n == 0 then h else 2 * Doubled(h, n - 1)
  }

  lemma XorDisjoint(h: nat, l: nat, n: nat)
    requires l < Pow2(n)
    ensures Xor(Doubled(h, n), l) == Doubled(h, n) + l
  {
    XorHigh(h, 0, l, n);
    ZeroXor(l);
  }

  lemma {:induction false} ShiftsDoubled(h: nat, n: nat)
    requires Doubled(h, n) < 65536
    ensures Shifts(Doubled(h, n), n) == h
  {
    if n > 0 {
      ShiftsFirst(Doubled(h, n), n - 1);
      ShiftsDoubled(h, n - 1);
    }
  }

  lemma {:induction false} ShiftsFirst(x: Word, n: nat)
    ensures Shifts(x, n + 1) == Shifts(Shift(x), n)
  {
    if n > 0 {
      ShiftsFirst(x, n - 1);
    }
  }

  lemma EvenPart(d: nat, r: nat)
    ensures (2 * d + r) / 2 == d + r / 2 && (2 * d + r) % 2 == r % 2
  {
  }

  lemma XorDouble(d: nat, r: nat, l: nat)
    requires Xor(d + r / 2, l / 2) == d + Xor(r / 2, l / 2)
    ensures Xor(2 * d + r, l) == 2 * d + Xor(r, l)
  {
    XorStep(2 * d + r, l);
    XorStep(r, l);
    hide Xor;
    EvenPart(d, r);
    EvenPart(d, r + l);
  }

  /** Exclusive or with a small number leaves the high part alone. */
  lemma {:induction false} XorHigh(h: nat, r: nat, l: nat, n: nat)
    requires r < Pow2(n) && l < Pow2(n)
    ensures Xor(Doubled(h, n) + r, l) == Doubled(h, n) + Xor(r, l)
  {
    if n == 0 {
      XorZero(h);
    } else {
      var d := Doubled(h, n - 1);
      assert Doubled(h, n) == 2 * d && Pow2(n) == 2 * Pow2(n - 1);
      hide Xor;
      XorHigh(h, r / 2, l / 2, n - 1);
      XorDouble(d, r, l);
    }
  }

  lemma Doubled8(h: nat)
    ensures Doubled(h, 8) == 256 * h
  {
    assert Doubled(h, 1) == 2 * h;
    assert Doubled(h, 2) == 4 * h;
    assert Doubled(h, 3) == 8 * h;
    assert Doubled(h, 4) == 16 * h;
    assert Doubled(h, 5) == 32 * h;
    assert Doubled(h, 6) == 64 * h;
    assert Doubled(h, 7) == 128 * h;
  }

  /** One table look-up does what the eight shifts do. */
  lemma TableStep(t: seq<Word>, crc: Word, b: Byte)
    requires IsTable(t)
    ensures Step(crc, b) == XorWords(crc / 256, t[XorWords(crc, b) % 256])
  {
    var x := XorWords(crc, b);
    Pow2Values();
    Doubled8(crc / 256);
    XorHigh(crc / 256, crc % 256, b, 8);
    XorBound(crc % 256, b, 8);
    assert x / 256 == crc / 256;
    Doubled8(x / 256);
    XorDisjoint(x / 256, x % 256, 8);
    ShiftsLinear(Doubled(x / 256, 8), x % 256, 8);
    ShiftsDoubled(x / 256, 8);
  }

  /** Table-driven check sum, as host and simulator compute it. */
  method Crc16Modbus(table: seq<Word>, data: seq<Byte>) returns (crc: Word)
    requires IsTable(table)
    ensures crc == Crc(data)
  {
    crc := INITIAL;
    for i := 0 to |data|
      invariant crc == Crc(data[..i])
    {
      TableStep(table, crc, data[i]);
      assert data[..i + 1][..i] == data[..i];
      crc := XorWords(crc / 256, table[XorWords(crc, data[i]) % 256]);
    }
    assert data[..|data|] == data;
  }

  /** `crc16ModbusVerify`: at least four bytes, the last two being the check sum of the rest, low
      byte first. */
  predicate Verifies(frame: seq<Byte>) {
    && |frame| >= 4
    && Crc(frame[..|frame| - 2]) == BE(frame[|frame| - 1], frame[|frame| - 2])
  }

  /** A body followed by its check sum. */
  function Seal(body: seq<Byte>): seq<Byte> {
    body + [Lo(Crc(body)), Hi(Crc(body))]
  }

  lemma SealVerifies(body: seq<Byte>)
    requires |body| >= 2
    ensures Verifies(Seal(body))
  {
    WordInverse();
    assert Seal(body)[..|body|] == body;
  }

  // ---- detection ----

  lemma ShiftInjective(x: Word, y: Word)
    requires Shift(x) == Shift(y)
    ensures x == y
  {
    HighBit(x / 2);
    HighBit(y / 2);
    if x % 2 == 1 && y % 2 == 1 {
      XorCancels(x / 2, y / 2, POLYNOMIAL);
    }
  }

  /** The polynomial's top bit marks a shift that folded it in. */
  lemma HighBit(h: nat)
    requires h < 32768
    ensures !TestBit(h, 15)
    ensures TestBit(Xor(h, POLYNOMIAL), 15)
  {
    Pow2Values();
    ClearAbove(h, 15);
    XorTest(h, POLYNOMIAL, 15);
    assert TestBit(1, 0);
    assert TestBit(2, 1);
    assert TestBit(5, 2);
    assert TestBit(10, 3);
    assert TestBit(20, 4);
    assert TestBit(40, 5);
    assert TestBit(80, 6);
    assert TestBit(160, 7);
    assert TestBit(320, 8);
    assert TestBit(640, 9);
    assert TestBit(1280, 10);
    assert TestBit(2560, 11);
    assert TestBit(5120, 12);
    assert TestBit(10240, 13);
    assert TestBit(20480, 14);
  }

  lemma {:induction false} ClearAbove(h: nat, n: nat)
    requires h < Pow2(n)
    ensures !TestBit(h, n)
  {
    if n > 0 {
      ClearAbove(h / 2, n - 1);
    }
  }

  lemma {:induction false} ShiftsInjective(x: Word, y: Word, n: nat)
    requires Shifts(x, n) == Shifts(y, n)
    ensures x == y
  {
    if n > 0 {
      ShiftInjective(Shifts(x, n - 1), Shifts(y, n - 1));
      ShiftsInjective(x, y, n - 1);
    }
  }

  /** A step is injective in the byte for a fixed check sum, and in the check sum for a fixed byte. */
  lemma StepInjective(c: Word, a: Byte, d: Word, b: Byte)
    requires Step(c, a) == Step(d, b)
    ensures a == b <==> c == d
  {
    ShiftsInjective(XorWords(c, a), XorWords(d, b), BITS);
    if a == b {
      XorCancels(c, d, a);
    }
    if c == d {
      XorCommutes(c, a);
      XorCommutes(c, b);
      XorCancels(a, b, c);
    }
  }

  /** Sequences of one length that differ in exactly position `j`. */
  ghost predicate DifferAt(f: seq<Byte>, g: seq<Byte>, j: nat) {
    && |f| == |g| && j < |f| && f[j] != g[j]
    && forall i :: 0 <= i < |f| && i != j ==> f[i] == g[i]
  }

  lemma {:induction false} OneByteChangesCrc(f: seq<Byte>, g: seq<Byte>, j: nat)
    requires DifferAt(f, g, j)
    ensures Crc(f) != Crc(g)
  {
    var n := |f| - 1;
    if j == n {
      assert f[..n] == g[..n];
    } else {
      OneByteChangesCrc(f[..n], g[..n], j);
    }
    if Crc(f) == Crc(g) {
      StepInjective(Crc(f[..n]), f[n], Crc(g[..n]), g[n]);
    }
  }

  /** A frame that differs from a valid one in exactly one byte, wherever it is, is refused. */
  lemma SingleByteErrorDetected(f: seq<Byte>, g: seq<Byte>, j: nat)
    requires Verifies(f)
    requires DifferAt(f, g, j)
    ensures !Verifies(g)
  {
    var n := |f| - 2;
    if j < n {
      assert DifferAt(f[..n], g[..n], j);
      OneByteChangesCrc(f[..n], g[..n], j);
      assert f[n] == g[n] && f[n + 1] == g[n + 1];
    } else {
      assert f[..n] == g[..n];
      assert j == n || j == n + 1;
    }
  }

  // ---- the example of the serial line specification ----

  lemma ZeroBit(h: nat, y: nat, c: int)
    requires Xor(h / 2, y) == h / 2 + c
    ensures Xor(h, 2 * y) == h + 2 * c
  {
    hide Xor;
    XorStep(h, 2 * y);
    assert 2 * y / 2 == y && h == 2 * (h / 2) + h % 2;
  }

  lemma FourZeroBits(h: nat, y: nat, c: int)
    requires Xor(h / 16, y) == h / 16 + c
    ensures Xor(h, 16 * y) == h + 16 * c
  {
    hide Xor;
    var h1 := h / 2;
    var h2 := h1 / 2;
    var h3 := h2 / 2;
    assert h3 / 2 == h / 16;
    ZeroBit(h3, y, c);
    ZeroBit(h2, 2 * y, 2 * c);
    ZeroBit(h1, 4 * y, 4 * c);
    ZeroBit(h, 8 * y, 8 * c);
  }

  /** Exclusive or with the polynomial flips bits 0, 13 and 15. */
  lemma PolynomialFlips(h: nat)
    requires h < 0x8000
    ensures Xor(h, 0xA001)
         == h + 0x8000 + (if h / 0x2000 % 2 == 1 then -0x2000 else 0x2000) + (if h % 2 == 1 then -1 else 1)
  {
    hide Xor;
    var h1 := h / 2;
    var h5 := h1 / 16;
    var h9 := h5 / 16;
    var high := h9 / 16;
    assert high == h / 0x2000;
    var c := if high % 2 == 1 then 3 else 5;
    HighFlips(high);
    FourZeroBits(h9, 5, c);
    FourZeroBits(h5, 0x50, 16 * c);
    FourZeroBits(h1, 0x500, 256 * c);
    XorStep(h, 0xA001);
  }

  lemma HighFlips(h: nat)
    requires h < 4
    ensures Xor(h, 5) == h + if h % 2 == 1 then 3 else 5
  {
    hide Xor;
    XorStep(h, 5);
    XorStep(h / 2, 2);
    XorStep(0, 1);
    XorZero(0);
  }

  lemma ShiftValue(x: Word)
    ensures Shift(x)
         == if x % 2 == 0 then x / 2
            else x / 2 + 0x8000 + (if x / 0x4000 % 2 == 1 then -0x2000 else 0x2000) + (if x / 2 % 2 == 1 then -1 else 1)
  {
    hide Xor;
    if x % 2 == 1 {
      PolynomialFlips(x / 2);
    }
  }

  lemma ShiftsOf(x: Word)
    ensures Shifts(x, 8) == Shift(Shift(Shift(Shift(Shift(Shift(Shift(Shift(x))))))))
  {
    hide Shift;
    assert Shifts(x, 1) == Shift(x);
    assert Shifts(x, 2) == Shift(Shifts(x, 1));
    assert Shifts(x, 3) == Shift(Shifts(x, 2));
    assert Shifts(x, 4) == Shift(Shifts(x, 3));
    assert Shifts(x, 5) == Shift(Shifts(x, 4));
    assert Shifts(x, 6) == Shift(Shifts(x, 5));
    assert Shifts(x, 7) == Shift(Shifts(x, 6));
  }

  lemma FirstXor()
    ensures XorWords(0xFFFF, 2) == 0xFFFD
  {
    hide Xor;
    XorStep(0xFFFF, 2);
    XorStep(0x7FFF, 1);
    XorZero(0x3FFF);
  }

  lemma SecondXor()
    ensures XorWords(0x813E, 7) == 0x8139
  {
    hide Xor;
    XorStep(0x813E, 7);
    XorStep(0x409F, 3);
    XorStep(0x204F, 1);
    XorZero(0x1027);
  }

  lemma FirstByte()
    ensures Step(0xFFFF, 0x02) == 0x813E
  {
    hide Xor;
    FirstXor();
    hide XorWords;
    ShiftsOf(0xFFFD);
    ShiftValue(0xFFFD);
    ShiftValue(0xDFFF);
    ShiftValue(0xCFFE);
    ShiftValue(0x67FF);
    ShiftValue(0x93FE);
    ShiftValue(0x49FF);
    ShiftValue(0x84FE);
    ShiftValue(0x427F);
    hide Shift;
    hide Shifts;
  }

  lemma SecondByte()
    ensures Step(0x813E, 0x07) == 0x1241
  {
    hide Xor;
    SecondXor();
    hide XorWords;
    ShiftsOf(0x8139);
    ShiftValue(0x8139);
    ShiftValue(0xE09D);
    ShiftValue(0xD04F);
    ShiftValue(0xC826);
    ShiftValue(0x6413);
    ShiftValue(0x9208);
    ShiftValue(0x4904);
    ShiftValue(0x2482);
    hide Shift;
    hide Shifts;
  }

  /** The worked example of MODBUS over Serial Line V1.02, section 6.2.2: the message 02 07 is sealed with
      41 12. */
  lemma CheckValue()
    ensures Seal([0x02, 0x07]) == [0x02, 0x07, 0x41, 0x12]
  {
    FirstByte();
    SecondByte();
    hide Step;
    CrcOfTwo(0x02, 0x07);
    hide Crc;
    HiLoOf1241();
  }

  lemma CrcOfTwo(a: Byte, b: Byte)
    ensures Crc([a, b]) == Step(Step(INITIAL, a), b)
  {
    hide Step;
    assert [a, b][..1] == [a] && [a][..0] == [];
    assert Crc([a]) == Step(INITIAL, a);
  }

  lemma HiLoOf1241()
    ensures Hi(0x1241) == 0x12 && Lo(0x1241) == 0x41
  {
    WordInverse();
    assert BE(0x12, 0x41) == 0x1241;
    hide Hi;
    hide Lo;
  }
}
