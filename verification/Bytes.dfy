/** Bytes, 16-bit words in network order, and the bit-packed bytes of the coil functions. */
module Bytes {
  datatype Option<+T> = None | Some(value: T)

  type Byte = x: int | 0 <= x < 256
  type Word = x: int | 0 <= x < 65536

  /** High and low byte of a word (`x >> 8`, `x & 0xFF`), by counting off 256s, and the inverse
      (`(p[0] << 8) | p[1]`). */
  function Hi(w: Word): (h: Byte)
    ensures 256 * h <= w
  {
    if w < 256 then 0 else 1 + Hi(w - 256)
  }

  function Lo(w: Word): Byte { if w < 256 then w else Lo(w - 256) }

  function BE(hi: Byte, lo: Byte): Word { hi * 256 + lo }

  lemma {:induction false} HiLo(w: Word)
    ensures Hi(w) == w / 256 && Lo(w) == w % 256
  {
    if w >= 256 {
      HiLo(w - 256);
    }
  }

  /** The inverse laws of splitting and joining. */
  lemma WordInverse()
    ensures forall w: Word :: BE(Hi(w), Lo(w)) == w
    ensures forall h: Byte, l: Byte :: Hi(BE(h, l)) == h && Lo(BE(h, l)) == l
  {
    forall w: Word ensures BE(Hi(w), Lo(w)) == w { HiLo(w); }
    forall h: Byte, l: Byte ensures Hi(BE(h, l)) == h && Lo(BE(h, l)) == l { HiLo(BE(h, l)); }
  }

  /** A number cut to 16 bits (`uint16_t(n)`), by counting off 65536s. */
  function Wrap(n: nat): Word { if n < 65536 then n else Wrap(n - 65536) }

  lemma {:induction false} WrapIsModulo(n: nat)
    ensures Wrap(n) == n % 65536
  {
    if n >= 65536 {
      WrapIsModulo(n - 65536);
    }
  }

  /** Big-endian bytes of a list of registers. */
  function WordBytes(ws: seq<Word>): (bs: seq<Byte>)
    ensures |bs| == 2 * |ws|
    ensures forall i :: 0 <= i < |ws| ==> bs[2 * i] == Hi(ws[i]) && bs[2 * i + 1] == Lo(ws[i])
  {
    if ws == [] then [] else WordBytes(ws[..|ws| - 1]) + [Hi(ws[|ws| - 1]), Lo(ws[|ws| - 1])]
  }

  /** The registers read back from `2 * n` bytes. */
  function BytesWords(bs: seq<Byte>): (ws: seq<Word>)
    requires |bs| % 2 == 0
  {
    seq(|bs| / 2, i requires 0 <= i < |bs| / 2 => BE(bs[2 * i], bs[2 * i + 1]))
  }

  lemma WordBytesRoundTrip(ws: seq<Word>)
    ensures BytesWords(WordBytes(ws)) == ws
  {
    WordInverse();
    var bs := WordBytes(ws);
    forall i | 0 <= i < |ws| ensures BytesWords(bs)[i] == ws[i] {
      assert bs[2 * i] == Hi(ws[i]) && bs[2 * i + 1] == Lo(ws[i]);
    }
  }

  // ---- bits ----

  /** `(x >> k) & 1` */
  predicate TestBit(x: nat, k: nat) {
    if k == 0 then x % 2 == 1 else TestBit(x / 2, k - 1)
  }

  /** `x |= 1 << k` when `v`, `x &= ~(1 << k)` otherwise. */
  function WithBit(x: nat, k: nat, v: bool): nat {
    if k == 0 then x / 2 * 2 + (if v then 1 else 0) else WithBit(x / 2, k - 1, v) * 2 + x % 2
  }

  /** The number whose bits are `bits`, least significant first. */
  function FromBits(bits: seq<bool>): nat {
    if bits == [] then 0 else (if bits[0] then 1 else 0) + 2 * FromBits(bits[1..])
  }

  function Pow2(n: nat): nat {
    if n == 0 then 1 else 2 * Pow2(n - 1)
  }

  lemma Pow2Values()
    ensures Pow2(8) == 256 && Pow2(15) == 32768 && Pow2(16) == 65536
  {
    assert Pow2(2) == 4;
    assert Pow2(4) == 16;
    assert Pow2(6) == 64;
    assert Pow2(8) == 256;
    assert Pow2(10) == 1024;
    assert Pow2(12) == 4096;
    assert Pow2(14) == 16384;
  }

  lemma {:induction false} WithBitTest(x: nat, k: nat, v: bool, j: nat)
    ensures TestBit(WithBit(x, k, v), j) == if j == k then v else TestBit(x, j)
  {
    if k == 0 {
    } else if j > 0 {
      assert WithBit(x, k, v) / 2 == WithBit(x / 2, k - 1, v);
      WithBitTest(x / 2, k - 1, v, j - 1);
    }
  }

  lemma {:induction false} WithBitBound(x: nat, k: nat, v: bool, n: nat)
    requires x < Pow2(n) && k < n
    ensures WithBit(x, k, v) < Pow2(n)
  {
    if k > 0 {
      WithBitBound(x / 2, k - 1, v, n - 1);
    }
  }

  lemma {:induction false} FromBitsTest(bits: seq<bool>, k: nat)
    requires k < |bits|
    ensures TestBit(FromBits(bits), k) == bits[k]
  {
    if k > 0 {
      assert FromBits(bits) / 2 == FromBits(bits[1..]);
      FromBitsTest(bits[1..], k - 1);
    }
  }

  lemma {:induction false} FromBitsBound(bits: seq<bool>)
    ensures FromBits(bits) < Pow2(|bits|)
  {
    if bits != [] {
      FromBitsBound(bits[1..]);
    }
  }

  lemma {:induction false} BitsDetermine(x: nat, y: nat, n: nat)
    requires x < Pow2(n) && y < Pow2(n)
    requires forall j :: 0 <= j < n ==> TestBit(x, j) == TestBit(y, j)
    ensures x == y
  {
    if n > 0 {
      assert TestBit(x, 0) == TestBit(y, 0);
      forall j | 0 <= j < n - 1 ensures TestBit(x / 2, j) == TestBit(y / 2, j) {
        assert TestBit(x, j + 1) == TestBit(y, j + 1);
      }
      BitsDetermine(x / 2, y / 2, n - 1);
    }
  }

  /** Bitwise exclusive or. */
  function Xor(x: nat, y: nat): nat {
    if x == 0 && y == 0 then 0 else 2 * Xor(x / 2, y / 2) + (x + y) % 2
  }

  lemma XorStep(x: nat, y: nat)
    ensures Xor(x, y) == 2 * Xor(x / 2, y / 2) + (x + y) % 2
  {
    assert Xor(0, 0) == 0;
  }

  lemma {:induction false} XorTest(x: nat, y: nat, k: nat)
    ensures TestBit(Xor(x, y), k) == (TestBit(x, k) != TestBit(y, k))
  {
    XorStep(x, y);
    hide Xor;
    assert Xor(x, y) / 2 == Xor(x / 2, y / 2);
    if k > 0 {
      XorTest(x / 2, y / 2, k - 1);
    }
  }

  lemma {:induction false} XorBound(x: nat, y: nat, n: nat)
    requires x < Pow2(n) && y < Pow2(n)
    ensures Xor(x, y) < Pow2(n)
  {
    if n > 0 && !(x == 0 && y == 0) {
      XorBound(x / 2, y / 2, n - 1);
    }
  }

  lemma {:induction false} ZeroXor(x: nat)
    ensures Xor(0, x) == x
  {
    if x > 0 {
      ZeroXor(x / 2);
    }
  }

  lemma {:induction false} XorZero(x: nat)
    ensures Xor(x, 0) == x
  {
    if x > 0 {
      XorZero(x / 2);
    }
  }

  lemma {:induction false} XorCommutes(x: nat, y: nat)
    ensures Xor(x, y) == Xor(y, x)
  {
    if !(x == 0 && y == 0) {
      XorCommutes(x / 2, y / 2);
    }
  }

  lemma XorAssociates(x: nat, y: nat, z: nat, n: nat)
    requires x < Pow2(n) && y < Pow2(n) && z < Pow2(n)
    ensures Xor(Xor(x, y), z) == Xor(x, Xor(y, z))
  {
    XorBound(x, y, n);
    XorBound(y, z, n);
    XorBound(Xor(x, y), z, n);
    XorBound(x, Xor(y, z), n);
    forall j | 0 <= j < n ensures TestBit(Xor(Xor(x, y), z), j) == TestBit(Xor(x, Xor(y, z)), j) {
      XorTest(Xor(x, y), z, j);
      XorTest(x, y, j);
      XorTest(x, Xor(y, z), j);
      XorTest(y, z, j);
    }
    BitsDetermine(Xor(Xor(x, y), z), Xor(x, Xor(y, z)), n);
  }

  lemma {:induction false} XorSelf(x: nat)
    ensures Xor(x, x) == 0
  {
    if x > 0 {
      XorSelf(x / 2);
    }
  }

  lemma {:induction false} XorCancels(x: nat, y: nat, z: nat)
    requires Xor(x, z) == Xor(y, z)
    ensures x == y
  {
    if !(x == 0 && y == 0) {
      assert Xor(x, z) / 2 == Xor(x / 2, z / 2) && Xor(y, z) / 2 == Xor(y / 2, z / 2);
      XorCancels(x / 2, y / 2, z / 2);
    }
  }

  /** A byte with bit `k` replaced. */
  function ByteWithBit(b: Byte, k: nat, v: bool): Byte
    requires k < 8
  {
    Pow2Values();
    WithBitBound(b, k, v, 8);
    WithBit(b, k, v)
  }

  function ByteOf(bits: seq<bool>): Byte
    requires |bits| == 8
  {
    Pow2Values();
    FromBitsBound(bits);
    FromBits(bits)
  }
}
