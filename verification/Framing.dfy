/** The framing rules of the response stream, on plain byte queues: what one extraction attempt
    does, what a whole drain does, and the theorem that any chunking of good frames is
    re-assembled exactly. */
module Framing {
  import opened Bytes
  import opened Crc16

  const CAPACITY: nat := 4096
  const MAX_HUNT: nat := 4096

  datatype Verdict =
    | Wait               // frame not complete yet
    | Take(len: nat)     // a frame of this length is at the front
    | SlideBad           // impossible length or unknown function: drop one byte
    | SlideCrc           // check sum failure: count it and drop one byte

  /** Expected length of a complete RTU response, None for an unknown function code. */
  function RtuLength(fc: Byte, byteCount: Byte): (n: nat)
    ensures n == 0 || 5 <= n <= 260
  {
    if fc >= 0x80 then 5
    else if fc in {0x01, 0x02, 0x03, 0x04} then 3 + byteCount + 2
    else if fc in {0x05, 0x06, 0x0F, 0x10} then 8
    else 0
  }

  function InspectRtu(q: seq<Byte>): Verdict {
    if |q| < 4 then Wait
    else
      var expected := RtuLength(q[1], q[2]);
      if expected == 0 then SlideBad
      else if |q| < expected then Wait
      else if Verifies(q[..expected]) then Take(expected)
      else SlideCrc
  }

  /** `stale` is the ring byte behind the queue: with exactly seven bytes buffered the function code
      that the code looks at has not arrived yet. */
  function InspectTcp(q: seq<Byte>, stale: Byte): Verdict {
    if |q| < 7 then Wait
    else
      var fc := if |q| > 7 then q[7] else stale;
      if fc >= 0x80 then
        if |q| < 9 then Wait else Take(9)
      else
        var length := BE(q[4], q[5]);
        if length < 2 || 6 + length > CAPACITY then SlideBad
        else if |q| < 6 + length then Wait
        else Take(6 + length)
  }

  function Inspect(q: seq<Byte>, stale: Byte, tcp: bool): (v: Verdict)
    ensures v.Take? ==> 5 <= v.len <= |q|
    ensures v.SlideBad? || v.SlideCrc? ==> |q| >= 4
  {
    if tcp then InspectTcp(q, stale) else InspectRtu(q)
  }

  /** Queue, number of lost synchronisations (32-bit), bytes slid since the last good frame. */
  datatype Stream = Stream(q: seq<Byte>, hunts: nat, slid: nat)

  const EMPTY := Stream([], 0, 0)

  /** `popFront(1)`: when the hunt budget is spent everything buffered is dropped. */
  function Slide(s: Stream): Stream
    requires |s.q| > 0
  {
    if s.slid + 1 >= MAX_HUNT then EMPTY else Stream(s.q[1..], s.hunts, s.slid + 1)
  }

  function Extract(s: Stream, stale: Byte, tcp: bool): (r: (Stream, seq<Byte>))
    // every successful extraction removes exactly the returned bytes; a failing call changes
    // nothing, drops one byte, or clears
    ensures r.1 != [] ==> s.q == r.1 + r.0.q && 5 <= |r.1| && r.0.slid == 0 && r.0.hunts == s.hunts
    ensures r.1 == [] ==> r.0 == s || r.0 == EMPTY || (|s.q| > 0 && r.0.q == s.q[1..] && r.0.slid == s.slid + 1)
  {
    match Inspect(s.q, stale, tcp)
    case Wait => (s, [])
    case Take(n) => (Stream(s.q[n..], s.hunts, 0), s.q[..n])
    case SlideBad => (Slide(s), [])
    case SlideCrc => (Slide(s.(hunts := (s.hunts + 1) % 0x1_0000_0000)), [])
  }

  /** The engine's loop: extract until an attempt returns nothing. */
  function Drain(s: Stream, stale: Byte, tcp: bool): (r: (Stream, seq<seq<Byte>>))
    decreases |s.q|
  {
    var (s', frame) := Extract(s, stale, tcp);
    if frame == [] then (s', [])
    else
      var (rest, frames) := Drain(s', stale, tcp);
      (rest, [frame] + frames)
  }

  function Last(q: seq<Byte>, n: nat): seq<Byte> {
    if |q| <= n then q else q[|q| - n..]
  }

  /** A chunk arriving: appended (oldest bytes overwritten), then drained. */
  function Receive(s: Stream, chunk: seq<Byte>, stale: Byte, tcp: bool): (Stream, seq<seq<Byte>>) {
    Drain(s.(q := Last(s.q + chunk, CAPACITY)), stale, tcp)
  }

  /** A run over many chunks; `stales` is whatever the ring held behind the queue each time. */
  function Run(s: Stream, chunks: seq<seq<Byte>>, stales: seq<Byte>, tcp: bool): (Stream, seq<seq<Byte>>)
    requires |chunks| == |stales|
    decreases |chunks|
  {
    if chunks == [] then (s, [])
    else
      var (s', frames) := Receive(s, chunks[0], stales[0], tcp);
      var (s'', frames') := Run(s', chunks[1..], stales[1..], tcp);
      (s'', frames + frames')
  }

  /** No chunk arrives that would overwrite unread bytes. */
  ghost predicate NeverOverfills(s: Stream, chunks: seq<seq<Byte>>, stales: seq<Byte>, tcp: bool)
    requires |chunks| == |stales|
    decreases |chunks|
  {
    chunks == [] ||
    (|s.q| + |chunks[0]| <= CAPACITY
     && NeverOverfills(Receive(s, chunks[0], stales[0], tcp).0, chunks[1..], stales[1..], tcp))
  }

  // ---- good frames ----

  ghost predicate GoodRtu(f: seq<Byte>) {
    |f| >= 5 && |f| == RtuLength(f[1], f[2]) && Verifies(f)
  }

  ghost predicate GoodTcp(f: seq<Byte>) {
    && 8 <= |f| <= CAPACITY
    && 6 + BE(f[4], f[5]) == |f|
    && (f[7] >= 0x80 ==> |f| == 9)
  }

  ghost predicate Good(f: seq<Byte>, tcp: bool) {
    if tcp then GoodTcp(f) else GoodRtu(f)
  }

  ghost predicate AllGood(fs: seq<seq<Byte>>, tcp: bool) {
    forall i :: 0 <= i < |fs| ==> Good(fs[i], tcp)
  }

  function Flatten(fs: seq<seq<Byte>>): seq<Byte> {
    if fs == [] then [] else fs[0] + Flatten(fs[1..])
  }

  /** A complete good frame at the front is taken, whatever follows and whatever is stale. */
  lemma GoodIsTaken(f: seq<Byte>, rest: seq<Byte>, stale: Byte, tcp: bool)
    requires Good(f, tcp)
    ensures Inspect(f + rest, stale, tcp) == Take(|f|)
    ensures (f + rest)[..|f|] == f && (f + rest)[|f|..] == rest
  {
    hide Crc;
    var q := f + rest;
    assert q[..|f|] == f;
    assert q[1] == f[1] && q[2] == f[2] && q[4] == f[4];
    if tcp {
      assert q[5] == f[5] && q[7] == f[7];
    }
  }

  /** Every strict prefix of a good frame is waited on; in particular the stale byte never matters. */
  lemma PrefixWaits(f: seq<Byte>, n: nat, stale: Byte, tcp: bool)
    requires Good(f, tcp) && n < |f|
    ensures Inspect(f[..n], stale, tcp) == Wait
  {
    hide Crc;
  }

  /** How many of the frames `fs` are complete within `n` bytes. */
  function Complete(fs: seq<seq<Byte>>, n: nat): (k: nat)
    ensures k <= |fs|
  {
    if fs == [] || |fs[0]| > n then 0 else 1 + Complete(fs[1..], n - |fs[0]|)
  }

  lemma DrainTakes(s: Stream, f: seq<Byte>, rest: seq<Byte>, stale: Byte, tcp: bool)
    requires Good(f, tcp) && s.q == f + rest
    ensures Drain(s, stale, tcp)
         == (Drain(Stream(rest, s.hunts, 0), stale, tcp).0, [f] + Drain(Stream(rest, s.hunts, 0), stale, tcp).1)
  {
    hide Crc;
    GoodIsTaken(f, rest, stale, tcp);
    hide Inspect;
    assert Extract(s, stale, tcp) == (Stream(rest, s.hunts, 0), f);
  }

  lemma DrainWaits(s: Stream, f: seq<Byte>, stale: Byte, tcp: bool)
    requires Good(f, tcp) && s.q < f
    ensures Drain(s, stale, tcp) == (s, [])
  {
    hide Crc;
    assert s.q == f[..|s.q|];
    PrefixWaits(f, |s.q|, stale, tcp);
  }

  lemma DrainEmpty(s: Stream, stale: Byte, tcp: bool)
    requires s.q == []
    ensures Drain(s, stale, tcp) == (s, [])
  {
  }

  /** What a drain of a prefix of good frames must leave behind and hand out. */
  ghost predicate Delivers(s: Stream, fs: seq<seq<Byte>>, k: nat, s': Stream, frames: seq<seq<Byte>>)
    requires k <= |fs|
  {
    && frames == fs[..k]
    && s.q == Flatten(fs[..k]) + s'.q
    && s'.slid == 0 && s'.hunts == s.hunts
    && s'.q <= Flatten(fs[k..])
    && (k < |fs| ==> |s'.q| < |fs[k]|)
  }

  lemma DeliversNothing(s: Stream, fs: seq<seq<Byte>>)
    requires s.slid == 0 && s.q <= Flatten(fs) && (fs != [] ==> |s.q| < |fs[0]|)
    ensures Delivers(s, fs, 0, s, [])
  {
    assert fs[0..] == fs;
  }

  lemma DeliversMore(s: Stream, fs: seq<seq<Byte>>, rest: Stream, k: nat, s': Stream, frames: seq<seq<Byte>>)
    requires fs != [] && k <= |fs| - 1
    requires s.q == fs[0] + rest.q && rest.hunts == s.hunts
    requires Delivers(rest, fs[1..], k, s', frames)
    ensures Delivers(s, fs, k + 1, s', [fs[0]] + frames)
  {
    assert fs[..k + 1] == [fs[0]] + fs[1..][..k];
    assert fs[..k + 1][1..] == fs[1..][..k];
    assert fs[k + 1..] == fs[1..][k..];
  }

  lemma PrefixOfFirst(q: seq<Byte>, fs: seq<seq<Byte>>)
    requires fs != [] && q <= Flatten(fs)
    ensures |q| < |fs[0]| ==> q < fs[0]
    ensures |fs[0]| <= |q| ==> q == fs[0] + q[|fs[0]|..] && q[|fs[0]|..] <= Flatten(fs[1..])
  {
    var all := Flatten(fs);
    assert all == fs[0] + Flatten(fs[1..]);
    assert q == all[..|q|];
    if |fs[0]| <= |q| {
      assert all[..|q|][..|fs[0]|] == fs[0];
      assert q[|fs[0]|..] == all[|fs[0]|..|q|];
      assert all[|fs[0]|..] == Flatten(fs[1..]);
    } else {
      assert q == fs[0][..|q|];
    }
  }

  /** Draining a prefix of good frames delivers exactly the complete ones and keeps the rest. */
  lemma {:induction false} DrainDelivers(s: Stream, fs: seq<seq<Byte>>, stale: Byte, tcp: bool)
    requires AllGood(fs, tcp)
    requires s.slid == 0 && s.q <= Flatten(fs)
    ensures Delivers(s, fs, Complete(fs, |s.q|), Drain(s, stale, tcp).0, Drain(s, stale, tcp).1)
    decreases |fs|
  {
    hide Drain;
    hide Inspect;
    hide Good;
    hide Delivers;
    if fs == [] {
      DrainEmpty(s, stale, tcp);
      DeliversNothing(s, fs);
    } else {
      PrefixOfFirst(s.q, fs);
      if |fs[0]| > |s.q| {
        DrainWaits(s, fs[0], stale, tcp);
        DeliversNothing(s, fs);
      } else {
        var rest := Stream(s.q[|fs[0]|..], s.hunts, 0);
        DrainTakes(s, fs[0], rest.q, stale, tcp);
        assert AllGood(fs[1..], tcp);
        DrainDelivers(rest, fs[1..], stale, tcp);
        DeliversMore(s, fs, rest, Complete(fs[1..], |rest.q|), Drain(rest, stale, tcp).0, Drain(rest, stale, tcp).1);
      }
    }
  }

  lemma {:induction false} CompleteSplits(fs: seq<seq<Byte>>, n: nat, m: nat)
    requires n <= m
    ensures var k := Complete(fs, n);
      && |Flatten(fs[..k])| <= n
      && Complete(fs, m) == k + Complete(fs[k..], m - |Flatten(fs[..k])|)
    decreases |fs|
  {
    var k := Complete(fs, n);
    if k == 0 {
      assert fs[..k] == [] && fs[k..] == fs;
    } else {
      CompleteSplits(fs[1..], n - |fs[0]|, m - |fs[0]|);
      assert fs[..k][1..] == fs[1..][..k - 1];
      assert fs[k..] == fs[1..][k - 1..];
    }
  }

  lemma {:induction false} FlattenSplits(fs: seq<seq<Byte>>, k: nat)
    requires k <= |fs|
    ensures Flatten(fs) == Flatten(fs[..k]) + Flatten(fs[k..])
  {
    if k == 0 {
      assert fs[..0] == [] && fs[0..] == fs;
    } else {
      FlattenSplits(fs[1..], k - 1);
      assert fs[..k][1..] == fs[1..][..k - 1];
      assert fs[k..] == fs[1..][k - 1..];
    }
  }

  /** Everything received, in one piece, is what the run delivered. */
  ghost predicate Reassembles(s: Stream, fs: seq<seq<Byte>>, chunks: seq<seq<Byte>>, r: (Stream, seq<seq<Byte>>)) {
    var received := s.(q := s.q + Flatten(chunks));
    Delivers(received, fs, Complete(fs, |received.q|), r.0, r.1)
  }

  /** Re-assembly: however a stream of good frames is cut into chunks, as long as no chunk overfills
      the ring, exactly the completed frames come out, in order; no byte is slid, no
      synchronisation loss is counted, and what stays buffered is the unfinished prefix. */
  lemma {:induction false} Reassembly(
      s: Stream, fs: seq<seq<Byte>>, chunks: seq<seq<Byte>>, stales: seq<Byte>, tcp: bool)
    requires |chunks| == |stales|
    requires AllGood(fs, tcp)
    requires s.slid == 0 && s.q + Flatten(chunks) <= Flatten(fs)
    requires NeverOverfills(s, chunks, stales, tcp)
    requires fs != [] ==> |s.q| < |fs[0]|
    ensures Reassembles(s, fs, chunks, Run(s, chunks, stales, tcp))
    decreases |chunks|
  {
    hide *;
    if chunks == [] {
      NoChunks(s, fs, chunks, stales, tcp);
    } else {
      var s0 := s.(q := s.q + chunks[0]);
      var future := Flatten(chunks[1..]);
      FirstChunk(s, chunks, stales, tcp);
      PrefixShortens(s0.q, future, Flatten(fs));
      DrainDelivers(s0, fs, stales[0], tcp);
      var (s1, frames) := Drain(s0, stales[0], tcp);
      var k := Complete(fs, |s0.q|);
      StillPending(s0, fs, k, s1, frames, future, tcp);
      Reassembly(s1, fs[k..], chunks[1..], stales[1..], tcp);
      var (s2, more) := Run(s1, chunks[1..], stales[1..], tcp);
      Rejoined(s0, fs, s1, frames, chunks[1..], s2, more);
      Concluded(s, fs, chunks, s0.(q := s0.q + future), (s2, frames + more));
    }
  }

  /** The first chunk's delivery and the rest's make one. */
  lemma {:induction false} Rejoined(s0: Stream, fs: seq<seq<Byte>>, s1: Stream, frames: seq<seq<Byte>>,
                                    rest: seq<seq<Byte>>, s2: Stream, more: seq<seq<Byte>>)
    requires Delivers(s0, fs, Complete(fs, |s0.q|), s1, frames)
    requires Reassembles(s1, fs[Complete(fs, |s0.q|)..], rest, (s2, more))
    requires |s1.q + Flatten(rest)| == |s0.q + Flatten(rest)| - |Flatten(fs[..Complete(fs, |s0.q|)])|
    ensures var received := s0.(q := s0.q + Flatten(rest));
      Delivers(received, fs, Complete(fs, |received.q|), s2, frames + more)
  {
    var k, future := Complete(fs, |s0.q|), Flatten(rest);
    hide *;
    Received(s1, fs[k..], rest, (s2, more));
    CompleteSplits(fs, |s0.q|, |s0.q + future|);
    var m := Complete(fs[k..], |s1.q + future|);
    assert Complete(fs, |s0.q + future|) == k + m;
    assert s0.(q := s0.q + future).q == s0.q + future;
    Spliced(s0, fs, k, s1, frames, future, m, s2, more);
  }

  /** Frames that arrive completely at an empty ring, in any pieces, are all delivered and leave nothing
      behind. */
  lemma EveryFrameDelivered(s: Stream, fs: seq<seq<Byte>>, chunks: seq<seq<Byte>>, stales: seq<Byte>, tcp: bool)
    requires |chunks| == |stales| && s.q == [] && s.slid == 0
    requires AllGood(fs, tcp) && Flatten(chunks) == Flatten(fs)
    requires NeverOverfills(s, chunks, stales, tcp)
    ensures Run(s, chunks, stales, tcp) == (s, fs)
  {
    assert s.q + Flatten(chunks) == Flatten(fs);
    assert fs != [] ==> Good(fs[0], tcp);
    Reassembly(s, fs, chunks, stales, tcp);
    hide *;
    Received(s, fs, chunks, Run(s, chunks, stales, tcp));
    AllComplete(fs);
    assert fs[..|fs|] == fs;
    AllTaken(s.(q := Flatten(fs)), fs, Run(s, chunks, stales, tcp));
  }

  lemma AllTaken(s: Stream, fs: seq<seq<Byte>>, r: (Stream, seq<seq<Byte>>))
    requires Delivers(s, fs, |fs|, r.0, r.1) && s.q == Flatten(fs)
    ensures r == (Stream([], s.hunts, 0), fs)
  {
    assert fs[..|fs|] == fs;
    assert |Flatten(fs) + r.0.q| == |Flatten(fs)| + |r.0.q|;
  }

  lemma {:induction false} AllComplete(fs: seq<seq<Byte>>)
    ensures Complete(fs, |Flatten(fs)|) == |fs|
  {
    if fs != [] {
      AllComplete(fs[1..]);
    }
  }

  /** A check a sender can make: with frames of at most `m` bytes, chunks that leave room for an
      unfinished frame never overfill the ring. */
  lemma {:induction false} SmallChunksNeverOverfill(
      s: Stream, fs: seq<seq<Byte>>, chunks: seq<seq<Byte>>, stales: seq<Byte>, tcp: bool, m: nat)
    requires |chunks| == |stales|
    requires AllGood(fs, tcp)
    requires s.slid == 0 && s.q + Flatten(chunks) <= Flatten(fs)
    requires fs != [] ==> |s.q| < |fs[0]|
    requires forall f :: f in fs ==> |f| <= m
    requires forall c :: c in chunks ==> |c| + m <= CAPACITY + 1
    ensures NeverOverfills(s, chunks, stales, tcp)
    decreases |chunks|
  {
    if chunks != [] {
      hide *;
      var s0 := s.(q := s.q + chunks[0]);
      FirstFits(s, fs, chunks, m);
      var s1 := Drain(s0, stales[0], tcp).0;
      var later := AfterFirst(s0, fs, Flatten(chunks[1..]), stales[0], tcp);
      SmallChunksNeverOverfill(s1, later, chunks[1..], stales[1..], tcp, m);
      OneMoreFits(s, chunks, stales, tcp);
    }
  }

  /** What is left to come after a drain. */
  lemma AfterFirst(s0: Stream, fs: seq<seq<Byte>>, future: seq<Byte>, stale: Byte, tcp: bool)
    returns (later: seq<seq<Byte>>)
    requires AllGood(fs, tcp) && s0.slid == 0 && s0.q + future <= Flatten(fs)
    ensures var s1 := Drain(s0, stale, tcp).0;
      && AllGood(later, tcp) && s1.slid == 0 && s1.q + future <= Flatten(later)
      && (later != [] ==> |s1.q| < |later[0]|)
    ensures forall f :: f in later ==> f in fs
  {
    hide *;
    PrefixShortens(s0.q, future, Flatten(fs));
    DrainDelivers(s0, fs, stale, tcp);
    var (s1, frames) := Drain(s0, stale, tcp);
    var k := Complete(fs, |s0.q|);
    StillPending(s0, fs, k, s1, frames, future, tcp);
    later := fs[k..];
  }

  lemma OneMoreFits(s: Stream, chunks: seq<seq<Byte>>, stales: seq<Byte>, tcp: bool)
    requires |chunks| == |stales| && chunks != []
    requires |s.q| + |chunks[0]| <= CAPACITY
    requires NeverOverfills(Drain(s.(q := s.q + chunks[0]), stales[0], tcp).0, chunks[1..], stales[1..], tcp)
    ensures NeverOverfills(s, chunks, stales, tcp)
  {
    hide Drain;
  }

  lemma FirstFits(s: Stream, fs: seq<seq<Byte>>, chunks: seq<seq<Byte>>, m: nat)
    requires chunks != [] && s.q + Flatten(chunks) <= Flatten(fs)
    requires fs != [] ==> |s.q| < |fs[0]|
    requires forall f :: f in fs ==> |f| <= m
    requires forall c :: c in chunks ==> |c| + m <= CAPACITY + 1
    ensures |s.q| + |chunks[0]| <= CAPACITY
    ensures s.q + Flatten(chunks) == (s.q + chunks[0]) + Flatten(chunks[1..])
  {
    assert chunks[0] in chunks;
    assert fs != [] ==> fs[0] in fs;
    assert |Flatten(chunks)| >= |chunks[0]|;
  }

  lemma NoChunks(s: Stream, fs: seq<seq<Byte>>, chunks: seq<seq<Byte>>, stales: seq<Byte>, tcp: bool)
    requires |chunks| == |stales| == 0
    requires s.slid == 0 && s.q + Flatten(chunks) <= Flatten(fs)
    requires fs != [] ==> |s.q| < |fs[0]|
    ensures Reassembles(s, fs, chunks, Run(s, chunks, stales, tcp))
  {
    assert s.q + Flatten(chunks) == s.q;
    assert fs[0..] == fs && fs[..0] == [];
  }

  lemma FirstChunk(s: Stream, chunks: seq<seq<Byte>>, stales: seq<Byte>, tcp: bool)
    requires |chunks| == |stales| && chunks != []
    requires NeverOverfills(s, chunks, stales, tcp)
    ensures var s0 := s.(q := s.q + chunks[0]);
      var r := Drain(s0, stales[0], tcp);
      var more := Run(r.0, chunks[1..], stales[1..], tcp);
      && s.q + Flatten(chunks) == s0.q + Flatten(chunks[1..])
      && NeverOverfills(r.0, chunks[1..], stales[1..], tcp)
      && Run(s, chunks, stales, tcp) == (more.0, r.1 + more.1)
  {
    hide Drain;
    var s0 := s.(q := s.q + chunks[0]);
    assert Receive(s, chunks[0], stales[0], tcp) == Drain(s0, stales[0], tcp);
  }

  lemma Concluded(s: Stream, fs: seq<seq<Byte>>, chunks: seq<seq<Byte>>, received: Stream, r: (Stream, seq<seq<Byte>>))
    requires received == s.(q := s.q + Flatten(chunks))
    requires Delivers(received, fs, Complete(fs, |received.q|), r.0, r.1)
    ensures Reassembles(s, fs, chunks, r)
  {
  }

  lemma StillPending(s: Stream, fs: seq<seq<Byte>>, k: nat, s1: Stream, frames: seq<seq<Byte>>,
                     future: seq<Byte>, tcp: bool)
    requires k <= |fs| && Delivers(s, fs, k, s1, frames) && AllGood(fs, tcp)
    ensures AllGood(fs[k..], tcp)
    requires s.q + future <= Flatten(fs)
    ensures s1.q + future <= Flatten(fs[k..])
    ensures s1.slid == 0 && (fs[k..] != [] ==> |s1.q| < |fs[k..][0]|)
    ensures |s1.q + future| == |s.q + future| - |Flatten(fs[..k])|
  {
    FlattenSplits(fs, k);
    PrefixCancels(Flatten(fs[..k]), s1.q, future, Flatten(fs[k..]));
  }

  lemma Received(s: Stream, fs: seq<seq<Byte>>, chunks: seq<seq<Byte>>, r: (Stream, seq<seq<Byte>>))
    requires Reassembles(s, fs, chunks, r)
    ensures var received := s.(q := s.q + Flatten(chunks));
      Delivers(received, fs, Complete(fs, |received.q|), r.0, r.1)
  {
  }

  lemma Spliced(s: Stream, fs: seq<seq<Byte>>, k: nat, s1: Stream, frames: seq<seq<Byte>>, future: seq<Byte>,
                m: nat, s2: Stream, more: seq<seq<Byte>>)
    requires k <= |fs| && m <= |fs| - k
    requires Delivers(s, fs, k, s1, frames)
    requires Delivers(s1.(q := s1.q + future), fs[k..], m, s2, more)
    ensures Delivers(s.(q := s.q + future), fs, k + m, s2, frames + more)
  {
    assert fs[..k + m] == fs[..k] + fs[k..][..m];
    FlattenSplits(fs[..k + m], k);
    assert fs[..k + m][..k] == fs[..k] && fs[..k + m][k..] == fs[k..][..m];
    assert fs[k..][m..] == fs[k + m..];
    assert s.q + future == Flatten(fs[..k]) + (s1.q + future);
  }

  lemma PrefixCancels(p: seq<Byte>, a: seq<Byte>, a': seq<Byte>, b: seq<Byte>)
    requires (p + a) + a' <= p + b
    ensures a + a' <= b
  {
    var whole := p + b;
    var left := (p + a) + a';
    assert left == whole[..|left|];
    forall i | 0 <= i < |a + a'| ensures i < |b| && (a + a')[i] == b[i] {
      assert left[|p| + i] == (a + a')[i];
      assert whole[|p| + i] == b[i];
    }
  }

  lemma PrefixShortens(a: seq<Byte>, a': seq<Byte>, b: seq<Byte>)
    requires a + a' <= b
    ensures a <= b
  {
    assert a == (a + a')[..|a|];
  }
}
