/** The 4 KB ring in which response bytes are collected, and its refinement of the byte queue. */
module StreamAccumulator {
  import opened Bytes
  import opened Crc16
  import opened Framing

  /** Ring slot of the `j`-th byte counted from position `start`. */
  function Slot(start: nat, j: nat): nat { (start + j) % CAPACITY }

  lemma SlotsDiffer(start: nat, last: nat)
    ensures forall j: nat :: j < last && last < j + CAPACITY ==> Slot(start, j) != Slot(start, last)
  {
  }

  lemma SlotShift(start: nat, a: nat, b: nat)
    ensures Slot(Slot(start, a), b) == Slot(start, a + b)
  {
  }

  /** The ring holds the last ringful of the first `end` bytes of `all`, counted from `start`. */
  ghost predicate Holds(ring: seq<Byte>, start: nat, all: seq<Byte>, end: nat) {
    && |ring| == CAPACITY && end <= |all|
    && forall j: nat :: j < end && end <= j + CAPACITY ==> ring[Slot(start, j)] == all[j]
  }

  lemma HoldsOneMore(ring: seq<Byte>, start: nat, all: seq<Byte>, end: nat)
    requires Holds(ring, start, all, end) && end < |all|
    ensures Holds(ring[Slot(start, end) := all[end]], start, all, end + 1)
  {
    SlotsDiffer(start, end);
  }

  /** The queue of `size` bytes at `read`. */
  ghost function Window(ring: seq<Byte>, read: nat, size: nat): (q: seq<Byte>)
    requires |ring| == CAPACITY
  {
    seq(size, i requires 0 <= i < size => ring[Slot(read, i)])
  }

  lemma WindowHolds(ring: seq<Byte>, read: nat, size: nat, data: seq<Byte>)
    requires |ring| == CAPACITY && size <= CAPACITY
    ensures Holds(ring, read, Window(ring, read, size) + data, size)
  {
  }

  lemma HoldsWindow(ring: seq<Byte>, start: nat, all: seq<Byte>, dropped: nat)
    requires dropped <= |all| <= dropped + CAPACITY
    requires Holds(ring, start, all, |all|)
    ensures Window(ring, Slot(start, dropped), |all| - dropped) == all[dropped..]
  {
    var w := Window(ring, Slot(start, dropped), |all| - dropped);
    forall i | 0 <= i < |w|
      ensures w[i] == all[dropped + i]
    {
      SlotShift(start, dropped, i);
    }
  }

  lemma WindowAdvances(ring: seq<Byte>, read: nat, size: nat, n: nat)
    requires |ring| == CAPACITY && n <= size
    ensures Window(ring, Slot(read, n), size - n) == Window(ring, read, size)[n..]
  {
    var w := Window(ring, Slot(read, n), size - n);
    forall i | 0 <= i < |w|
      ensures w[i] == Window(ring, read, size)[n + i]
    {
      SlotShift(read, n, i);
    }
  }

  class Accumulator {
    const buf: array<Byte>
    var read: nat
    var write: nat
    var size: nat
    var huntCount: nat
    var huntSlid: nat

    /** Indices in range: what every method keeps, whatever its arguments. */
    ghost predicate InRange()
      reads this
    {
      buf.Length == CAPACITY && read < CAPACITY && write < CAPACITY && size <= CAPACITY
      && huntCount < 0x1_0000_0000 && huntSlid < MAX_HUNT
    }

    /** The write position is the end of the queue. */
    ghost predicate Valid()
      reads this
    {
      InRange() && write == Slot(read, size)
    }

    function At(offset: nat): Byte
      requires InRange()
      reads this, buf
    {
      buf[Slot(read, offset)]
    }

    /** The buffered bytes, oldest first. */
    ghost function Queue(): (q: seq<Byte>)
      requires InRange()
      reads this, buf
      ensures |q| == size
    {
      Window(buf[..], read, size)
    }

    ghost function Value(): Stream
      requires InRange()
      reads this, buf
    {
      Stream(Queue(), huntCount, huntSlid)
    }

    /** The ring byte behind the queue. */
    ghost function Stale(): Byte
      requires InRange()
      reads this, buf
    {
      buf[write]
    }

    constructor ()
      ensures Valid() && Value() == EMPTY && fresh(buf)
    {
      buf := new Byte[CAPACITY](_ => 0);
      read, write, size, huntCount, huntSlid := 0, 0, 0, 0, 0;
    }

    /** The copy loop of `Append`: the ring holds `held` bytes of `all` counted from `start`, the
        rest of `all` is written behind them. */
    method Store(data: seq<Byte>, ghost start: nat, ghost all: seq<Byte>)
      requires buf.Length == CAPACITY && |data| <= |all| && all[|all| - |data|..] == data
      requires write == Slot(start, |all| - |data|)
      requires Holds(buf[..], start, all, |all| - |data|)
      modifies buf
      ensures Holds(buf[..], start, all, |all|)
    {
      ghost var held := |all| - |data|;
      for i := 0 to |data|
        invariant Holds(buf[..], start, all, held + i)
      {
        SlotShift(start, held, i);
        HoldsOneMore(buf[..], start, all, held + i);
        ghost var before := buf[..];
        assert data[i] == all[held..][i] == all[held + i];
        buf[(write + i) % CAPACITY] := data[i];
        assert buf[..] == before[Slot(start, held + i) := all[held + i]];
      }
    }

    /** Bytes are added at the end; on overflow the oldest go first, also for more than a ringful. */
    method Append(data: seq<Byte>)
      requires Valid()
      modifies this`read, this`write, this`size, buf
      ensures Valid()
      ensures Queue() == Last(old(Queue()) + data, CAPACITY)
      ensures huntCount == old(huntCount) && huntSlid == old(huntSlid)
    {
      var len := |data|;
      if len == 0 {
        assert Queue() + data == Queue();
        return;
      }
      ghost var all := Queue() + data;
      ghost var start, held := read, size;
      WindowHolds(buf[..], start, held, data);
      if size + len > CAPACITY {
        var overflow := size + len - CAPACITY;
        read := (read + overflow) % CAPACITY;
      }
      ghost var dropped: nat := if held + len > CAPACITY then held + len - CAPACITY else 0;
      assert read == Slot(start, dropped);
      Store(data, start, all);
      hide Holds;
      write := (write + len) % CAPACITY;
      size := if size + len < CAPACITY then size + len else CAPACITY;
      SlotShift(start, held, len);
      SlotShift(start, dropped, size);
      assert write == Slot(read, size);
      hide Slot;
      HoldsWindow(buf[..], start, all, dropped);
      hide Window;
    }

    /** Moves the read position; `n` beyond the buffered bytes empties the queue. */
    method Advance(n: nat)
      requires InRange()
      modifies this`read, this`size
      ensures InRange()
      ensures read == (old(read) + n) % CAPACITY && size == if old(size) >= n then old(size) - n else 0
      ensures n <= old(size) ==> Queue() == old(Queue())[n..] && (old(Valid()) ==> Valid())
    {
      ghost var start, held := read, size;
      read := (read + n) % CAPACITY;
      size := if size >= n then size - n else 0;
      if n <= held {
        WindowAdvances(buf[..], start, held, n);
        SlotShift(start, n, size);
      }
    }

    method Clear()
      requires InRange()
      modifies this
      ensures Valid() && Value() == EMPTY
    {
      read, write, size := 0, 0, 0;
      huntCount := 0;
      huntSlid := 0;
    }

    /** Drops dirty bytes. Dropping no more than is buffered keeps the ring consistent; dropping more
        desynchronises the write position, unless it wraps onto it or the budget clears the ring. */
    method PopFront(n: nat)
      requires Valid()
      modifies this
      ensures InRange()
      ensures n == 0 ==> Value() == old(Value())
      ensures n > 0 && old(huntSlid) + n >= MAX_HUNT ==> Value() == EMPTY
      ensures 0 < n <= old(size) && old(huntSlid) + n < MAX_HUNT
        ==> Value() == Stream(old(Queue())[n..], old(huntCount), old(huntSlid) + n)
      ensures Valid() <==>
        n <= old(size) || (n - old(size)) % CAPACITY == 0 || old(huntSlid) + n >= MAX_HUNT
    {
      if n == 0 {
        return;
      }
      ghost var start, held := read, size;
      if held < n {
        PastTheEnd(start, held, n);
      }
      var slid := huntSlid + n;
      Advance(n);
      if slid >= MAX_HUNT {
        Clear();
      } else {
        huntSlid := slid;
        assert Queue() == old(Queue())[if n <= held then n else held..];
      }
    }

    static lemma PastTheEnd(start: nat, held: nat, n: nat)
      requires held < n
      ensures (start + held) % CAPACITY == (start + n) % CAPACITY <==> (n - held) % CAPACITY == 0
    {
    }

    /** The eight shifts after a byte has been folded in. */
    static method ShiftByte(folded: Word) returns (crc: Word)
      ensures crc == Shifts(folded, BITS)
    {
      crc := folded;
      for k := 0 to BITS
        invariant crc == Shifts(folded, k)
      {
        crc := if crc % 2 == 1 then XorWords(crc / 2, POLYNOMIAL) else crc / 2;
      }
    }

    /** Bit-by-bit check over the ring of the first `len` bytes. */
    method CrcValid(len: nat) returns (ok: bool)
      requires Valid() && 4 <= len <= size
      ensures ok == Verifies(Queue()[..len])
    {
      ghost var body := Queue()[..len][..len - 2];
      var crc: Word := INITIAL;
      for i := 0 to len - 2
        invariant crc == Crc(body[..i])
      {
        var b := At(i);
        assert b == body[i];
        crc := ShiftByte(XorWords(crc, b));
        assert body[..i + 1][..i] == body[..i];
      }
      assert body[..len - 2] == body;
      ok := crc == BE(At(len - 1), At(len - 2));
    }

    /** Reads out and removes the first `n` bytes. */
    method Pop(n: nat) returns (out: seq<Byte>)
      requires Valid() && n <= size
      modifies this`read, this`size
      ensures Valid() && out == old(Queue())[..n]
      ensures Queue() == old(Queue())[n..] && huntCount == old(huntCount) && huntSlid == old(huntSlid)
    {
      out := [];
      for i := 0 to n
        invariant |out| == i && out == Queue()[..i]
      {
        out := out + [At(i)];
      }
      if n != 0 {
        Advance(n);
      }
    }

    /** The length of the frame at the front as its header announces it; 0 when it cannot be a
        frame and the stream must be resynchronised. */
    method ExpectedLength(tcp: bool) returns (expected: nat)
      requires Valid() && size >= if tcp then 7 else 4
      ensures Inspect(Queue(), Stale(), tcp)
           == if expected == 0 then SlideBad
              else if size < expected then Wait
              else if tcp || Verifies(Queue()[..expected]) then Take(expected)
              else SlideCrc
      ensures expected == 0 || 5 <= expected <= CAPACITY
    {
      hide Crc;
      hide Verifies;
      ghost var q := Queue();
      QueueAt();
      hide Window;
      var fc := At((if tcp then 6 else 0) + 1);
      assert fc == if tcp then (if size > 7 then q[7] else Stale()) else q[1];
      if fc >= 0x80 {
        expected := if tcp then 9 else 5;
      } else if tcp {
        var lenField := BE(At(4), At(5));
        if lenField < 2 || 6 + lenField > CAPACITY {
          return 0;
        }
        expected := 6 + lenField;
      } else {
        var byteCount: nat := At(2);
        if fc in {0x01, 0x02, 0x03, 0x04} {
          expected := 3 + byteCount + 2;
        } else if fc in {0x05, 0x06, 0x0F, 0x10} {
          expected := 8;
        } else {
          return 0;
        }
      }
    }

    /** One extraction attempt does what the framing rules say on the queue; an empty result stands
        for the code's `false`. */
    method TryExtractFrame(tcp: bool) returns (frame: seq<Byte>)
      requires Valid()
      modifies this
      ensures Valid()
      ensures (Value(), frame) == Extract(old(Value()), old(Stale()), tcp)
      ensures frame != [] ==> write == old(write)
    {
      hide Crc;
      hide Verifies;
      hide Window;
      frame := [];
      var minHdr := if tcp then 7 else 4;
      if size < minHdr {
        return;
      }
      var expected := ExpectedLength(tcp);
      hide Inspect;
      if expected == 0 {
        PopFront(1);
        return;
      }
      if size < expected {
        return;
      }
      if !tcp {
        var ok := CrcValid(expected);
        if !ok {
          huntCount := (huntCount + 1) % 0x1_0000_0000;
          PopFront(1);
          return;
        }
      }
      frame := Pop(expected);
      huntSlid := 0;
    }

    lemma QueueAt()
      requires InRange()
      ensures forall i :: 0 <= i < size ==> At(i) == Queue()[i]
    {
    }

    /** A chunk arrives: append it, then extract until an attempt fails. */
    method Receive(data: seq<Byte>, tcp: bool) returns (frames: seq<seq<Byte>>)
      requires Valid()
      modifies this, buf
      ensures Valid()
      ensures exists stale :: (Value(), frames) == Framing.Receive(old(Value()), data, stale, tcp)
    {
      hide Inspect;
      Append(data);
      hide Window;
      ghost var start, stale := Value(), Stale();
      frames := [];
      var frame := TryExtractFrame(tcp);
      ghost var before := start;
      assert [] + Drain(start, stale, tcp).1 == Drain(start, stale, tcp).1;
      while frame != []
        invariant Valid() && (frame != [] ==> Stale() == stale)
        invariant (Value(), frame) == Extract(before, stale, tcp)
        invariant DrainsVia(start, frames, before, stale, tcp)
        decreases if frame == [] then 0 else 1 + size
      {
        DrainGoesOn(start, frames, before, stale, tcp);
        frames := frames + [frame];
        before := Value();
        frame := TryExtractFrame(tcp);
      }
      assert Drain(before, stale, tcp) == (Value(), []) && frames + [] == frames;
      assert (Value(), frames) == Framing.Receive(old(Value()), data, stale, tcp);
    }
  }

  /** A drain of `start` has handed out `frames` and goes on from `now`. */
  ghost predicate DrainsVia(start: Stream, frames: seq<seq<Byte>>, now: Stream, stale: Byte, tcp: bool) {
    Drain(start, stale, tcp) == (Drain(now, stale, tcp).0, frames + Drain(now, stale, tcp).1)
  }

  lemma DrainGoesOn(start: Stream, frames: seq<seq<Byte>>, now: Stream, stale: Byte, tcp: bool)
    requires DrainsVia(start, frames, now, stale, tcp)
    requires Extract(now, stale, tcp).1 != []
    ensures DrainsVia(start, frames + [Extract(now, stale, tcp).1], Extract(now, stale, tcp).0, stale, tcp)
  {
    hide Inspect;
    var (s', frame) := Extract(now, stale, tcp);
    assert frames + ([frame] + Drain(s', stale, tcp).1) == (frames + [frame]) + Drain(s', stale, tcp).1;
  }
}
