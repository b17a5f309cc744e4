/** The ring buffer's operations, each run to completion, on its real slot array and cursors. The
    interleavings of their steps are the subject of `RingBufferSteps`. */
module RingBuffers {
  import opened Bytes
  import P = RingBufferSteps

  datatype Sample = Sample(pointId: nat, timestamp: nat, value: real)

  predicate PowerOfTwo(n: nat) {
    n == 1 || (n > 1 && n % 2 == 0 && PowerOfTwo(n / 2))
  }

  predicate ValidCapacity(capacity: nat) { 2 <= capacity <= 65536 && PowerOfTwo(capacity) }

  /** What a scan over the slots in position order collects: from the first sample at or after
      `startTs`, until one lies past `endTs` or `maxCount` are found. */
  function Scan(view: seq<Sample>, startTs: nat, endTs: nat, maxCount: nat): seq<Sample> {
    if view == [] || maxCount == 0 then []
    else if view[0].timestamp < startTs then Scan(view[1..], startTs, endTs, maxCount)
    else if view[0].timestamp > endTs then []
    else [view[0]] + Scan(view[1..], startTs, endTs, maxCount - 1)
  }

  /** The samples of a time window. */
  function Window(items: seq<Sample>, startTs: nat, endTs: nat): seq<Sample> {
    if items == [] then []
    else (if startTs <= items[0].timestamp <= endTs then [items[0]] else []) + Window(items[1..], startTs, endTs)
  }

  lemma {:induction false} WindowJoin(a: seq<Sample>, b: seq<Sample>, startTs: nat, endTs: nat)
    ensures Window(a + b, startTs, endTs) == Window(a, startTs, endTs) + Window(b, startTs, endTs)
  {
    if a == [] {
      assert a + b == b;
    } else {
      assert (a + b)[1..] == a[1..] + b;
      WindowJoin(a[1..], b, startTs, endTs);
    }
  }

  /** A window holds exactly the samples with a time stamp in it, as often as they occur, in their order. */
  lemma {:induction false} WindowExactly(items: seq<Sample>, startTs: nat, endTs: nat, x: Sample, k: nat)
    requires k <= |items|
    ensures multiset(Window(items, startTs, endTs))[x]
         == if startTs <= x.timestamp && x.timestamp <= endTs then multiset(items)[x] else 0
    ensures Window(items, startTs, endTs) == Window(items[..k], startTs, endTs) + Window(items[k..], startTs, endTs)
  {
    WindowJoin(items[..k], items[k..], startTs, endTs);
    assert items == items[..k] + items[k..];
    if items != [] {
      WindowExactly(items[1..], startTs, endTs, x, 0);
      assert items == [items[0]] + items[1..];
    }
  }

  function Take(s: seq<Sample>, n: nat): seq<Sample> { if |s| <= n then s else s[..n] }

  class RingBuffer {
    const buffer: array<Sample>
    const cursors: array<nat>
    var writePos: nat
    var publishedPos: nat
    ghost var items: seq<Sample>     // everything pushed so far

    ghost predicate Valid()
      reads this, buffer, cursors
    {
      && ValidCapacity(buffer.Length) && cursors.Length == P.MAX_CONSUMERS
      && writePos == publishedPos == |items|
      && (forall k: nat :: k < |items| && |items| <= k + buffer.Length ==> buffer[k % buffer.Length] == items[k])
      && (forall c :: 0 <= c < cursors.Length ==> cursors[c] <= publishedPos)
    }

    constructor (capacity: nat, empty: Sample)
      requires ValidCapacity(capacity)
      ensures Valid() && items == [] && buffer.Length == capacity && fresh(buffer) && fresh(cursors)
      ensures forall c :: 0 <= c < P.MAX_CONSUMERS ==> cursors[c] == 0
    {
      buffer := new Sample[capacity](_ => empty);
      cursors := new nat[P.MAX_CONSUMERS](_ => 0);
      writePos, publishedPos, items := 0, 0, [];
    }

    /** The public way in: a capacity that is no power of two in range is refused. */
    static method Create(capacity: nat, empty: Sample) returns (r: Option<RingBuffer>)
      ensures r.Some? <==> ValidCapacity(capacity)
      ensures r.Some? ==> fresh(r.value) && r.value.Valid() && r.value.items == [] && r.value.buffer.Length == capacity
    {
      if !ValidCapacity(capacity) {
        return None;
      }
      var ring := new RingBuffer(capacity, empty);
      return Some(ring);
    }

    method Push(item: Sample)
      requires Valid()
      modifies this, buffer
      ensures Valid() && items == old(items) + [item] && cursors[..] == old(cursors[..])
    {
      var pos := writePos;
      writePos := writePos + 1;
      forall k: nat | k < pos && pos < k + buffer.Length ensures k % buffer.Length != pos % buffer.Length {
        P.SlotsApart(k, pos, buffer.Length);
      }
      buffer[pos % buffer.Length] := item;
      items := items + [item];
      publishedPos := pos + 1;
    }

    /** Stores the whole batch before publishing it. */
    method PushBatch(batch: seq<Sample>)
      requires Valid()
      modifies this, buffer
      ensures Valid() && items == old(items) + batch && cursors[..] == old(cursors[..])
    {
      if batch == [] {
        assert items + batch == items;
        return;
      }
      var startPos := writePos;
      writePos := writePos + |batch|;
      ghost var all := items + batch;
      for i := 0 to |batch|
        invariant publishedPos == startPos && writePos == startPos + |batch| && items == old(items)
        invariant cursors[..] == old(cursors[..])
        invariant forall k: nat :: k < startPos + i && startPos + i <= k + buffer.Length
                    ==> buffer[k % buffer.Length] == all[k]
      {
        var pos := startPos + i;
        forall k: nat | k < pos && pos < k + buffer.Length ensures k % buffer.Length != pos % buffer.Length {
          P.SlotsApart(k, pos, buffer.Length);
        }
        buffer[pos % buffer.Length] := batch[i];
      }
      items := all;
      publishedPos := startPos + |batch|;
      assert cursors[..] == old(cursors[..]);
    }

    /** The items at positions that have not been overwritten. */
    method CopyOut(from: nat, n: nat) returns (out: seq<Sample>)
      requires Valid() && from + n <= |items| <= from + buffer.Length
      ensures out == items[from..from + n]
    {
      out := [];
      for i := 0 to n
        invariant out == items[from..from + i]
      {
        assert buffer[(from + i) % buffer.Length] == items[from + i];
        out := out + [buffer[(from + i) % buffer.Length]];
      }
    }

    /** The next items of one consumer, after skipping what has been overwritten. */
    method ReadRecent(consumerId: int, count: nat) returns (out: seq<Sample>, ghost start: nat)
      requires Valid()
      modifies cursors
      ensures Valid()
      ensures !(0 <= consumerId < P.MAX_CONSUMERS) || count == 0 ==> out == [] && cursors[..] == old(cursors[..])
      ensures 0 <= consumerId < P.MAX_CONSUMERS && count > 0 ==>
        && P.Oldest(start, |items|, old(cursors[consumerId]), buffer.Length) && start <= |items|
        && out == Take(items[start..], if count > buffer.Length then buffer.Length else count)
        && cursors[..] == old(cursors[..])[consumerId := start + |out|]
    {
      out, start := [], 0;
      if count == 0 || consumerId < 0 || consumerId >= P.MAX_CONSUMERS {
        return;
      }
      var cap := buffer.Length;
      var wanted := if count > cap then cap else count;
      var published := publishedPos;
      var cursor := cursors[consumerId];
      P.JumpToOldest(published, cursor, cap);
      start := P.Jump(published, cursor, cap);
      hide P.Oldest;
      if published <= cursor {
        assert items[cursor..] == [];
        return;
      }
      if published - cursor >= cap {
        cursor := published - cap;
      }
      var readable := if published - cursor < wanted then published - cursor else wanted;
      out := CopyOut(cursor, readable);
      assert out == Take(items[cursor..], wanted);
      cursors[consumerId] := cursor + readable;
    }

    /** True when the consumer lags by less than a ring. Otherwise its cursor goes to the oldest readable
        position, which at a lag of exactly one ring is where it already is. */
    method EvictSlowConsumer(consumerId: int) returns (ok: bool)
      requires Valid()
      modifies cursors
      ensures Valid()
      ensures !(0 <= consumerId < P.MAX_CONSUMERS) ==> ok && cursors[..] == old(cursors[..])
      ensures 0 <= consumerId < P.MAX_CONSUMERS ==>
        && ok == (|items| < old(cursors[consumerId]) + buffer.Length)
        && P.Oldest(cursors[consumerId], |items|, old(cursors[consumerId]), buffer.Length)
        && cursors[..] == old(cursors[..])[consumerId := cursors[consumerId]]
    {
      if consumerId < 0 || consumerId >= P.MAX_CONSUMERS {
        return true;
      }
      var cap := buffer.Length;
      var published := publishedPos;
      var cursor := cursors[consumerId];
      P.JumpToOldest(published, cursor, cap);
      if published - cursor >= cap {
        cursors[consumerId] := published - cap;
        return false;
      }
      return true;
    }

    /** What the positions 0..published show through the slots. */
    ghost function View(): (v: seq<Sample>)
      requires Valid()
      reads this, buffer, cursors
      ensures |v| == |items|
    {
      seq(|items|, i requires 0 <= i < |items| && Valid() reads this, buffer, cursors => buffer[i % buffer.Length])
    }

    /** Linear scan from position 0. */
    method ExtractRange(startTs: nat, endTs: nat, maxCount: nat) returns (out: seq<Sample>)
      requires Valid()
      ensures out == if startTs > endTs then [] else Scan(View(), startTs, endTs, maxCount)
    {
      out := [];
      if maxCount == 0 || startTs > endTs {
        return;
      }
      var pos := 0;
      ghost var view := View();
      while pos < publishedPos && |out| < maxCount
        invariant 0 <= pos <= publishedPos && |out| <= maxCount
        invariant Scan(view, startTs, endTs, maxCount) == out + Scan(view[pos..], startTs, endTs, maxCount - |out|)
      {
        var val := buffer[pos % buffer.Length];
        assert view[pos..][0] == val && view[pos..][1..] == view[pos + 1..];
        if val.timestamp >= startTs {
          if val.timestamp > endTs {
            assert out + [] == out;
            return;
          }
          assert out + ([val] + Scan(view[pos + 1..], startTs, endTs, maxCount - |out| - 1))
              == (out + [val]) + Scan(view[pos + 1..], startTs, endTs, maxCount - |out| - 1);
          out := out + [val];
        }
        pos := pos + 1;
      }
      assert Scan(view[pos..], startTs, endTs, maxCount - |out|) == [];
    }

    /** Until the ring has wrapped, the view is the history. */
    lemma ViewIsHistory()
      requires Valid()
      ensures |items| <= buffer.Length ==> View() == items
    {
      if |items| <= buffer.Length {
        forall i | 0 <= i < |items| ensures View()[i] == items[i] {
          P.ModUnique(i, buffer.Length, 0, i);
        }
      }
    }
  }

  ghost predicate Ascending(items: seq<Sample>) {
    forall i, j :: 0 <= i < j < |items| ==> items[i].timestamp < items[j].timestamp
  }

  ghost predicate Rising(items: seq<Sample>) {
    forall i, j :: 0 <= i < j < |items| ==> items[i].timestamp <= items[j].timestamp
  }

  lemma {:induction false} LateWindowEmpty(items: seq<Sample>, startTs: nat, endTs: nat)
    requires forall i :: 0 <= i < |items| ==> items[i].timestamp > endTs
    ensures Window(items, startTs, endTs) == []
  {
    if items != [] {
      LateWindowEmpty(items[1..], startTs, endTs);
    }
  }

  lemma {:induction false} ScanIsWindow(items: seq<Sample>, startTs: nat, endTs: nat, maxCount: nat)
    requires Rising(items)
    ensures Scan(items, startTs, endTs, maxCount) == Take(Window(items, startTs, endTs), maxCount)
  {
    if items != [] && maxCount > 0 {
      if items[0].timestamp < startTs {
        ScanIsWindow(items[1..], startTs, endTs, maxCount);
      } else if items[0].timestamp > endTs {
        LateWindowEmpty(items, startTs, endTs);
      } else {
        ScanIsWindow(items[1..], startTs, endTs, maxCount - 1);
      }
    }
  }

  lemma {:induction false} FullWindow(items: seq<Sample>, endTs: nat)
    requires forall i :: 0 <= i < |items| ==> items[i].timestamp <= endTs
    ensures Window(items, 0, endTs) == items
  {
    if items != [] {
      FullWindow(items[1..], endTs);
    }
  }

  /** Until the ring has wrapped, and with timestamps that never fall, extraction returns the requested
      part of the history. */
  lemma ExtractionBeforeWrap(ring: RingBuffer, startTs: nat, endTs: nat, maxCount: nat)
    requires ring.Valid() && Rising(ring.items) && |ring.items| <= ring.buffer.Length
    ensures Scan(ring.View(), startTs, endTs, maxCount) == Take(Window(ring.items, startTs, endTs), maxCount)
  {
    ring.ViewIsHistory();
    ScanIsWindow(ring.items, startTs, endTs, maxCount);
  }

  /** With strictly ascending timestamps, extraction returns the requested part of the history for every window
      exactly until the ring has wrapped. */
  lemma ExtractionExact(ring: RingBuffer)
    requires ring.Valid() && Ascending(ring.items)
    ensures (forall startTs, endTs, maxCount ::
        Scan(ring.View(), startTs, endTs, maxCount) == Take(Window(ring.items, startTs, endTs), maxCount))
      <==> |ring.items| <= ring.buffer.Length
  {
    var items, view := ring.items, ring.View();
    ring.ViewIsHistory();
    if |items| <= ring.buffer.Length {
      forall startTs, endTs, maxCount
        ensures Scan(view, startTs, endTs, maxCount) == Take(Window(items, startTs, endTs), maxCount)
      {
        ExtractionBeforeWrap(ring, startTs, endTs, maxCount);
      }
    } else {
      var endTs := items[|items| - 1].timestamp;
      FullWindow(items, endTs);
      var k := P.LatestInSlot(0, |items|, ring.buffer.Length);
      assert view[0] == items[k];
      assert Scan(view, 0, endTs, |items|) != [] && Scan(view, 0, endTs, |items|)[0] == view[0];
      assert Take(Window(items, 0, endTs), |items|) == items;
    }
  }
}
