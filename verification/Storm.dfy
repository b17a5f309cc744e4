/** Storm detection: the 128-slot ring of evaluation times against the full history, and the bounded
    batch of merged alarms. */
module Storm {

  const RING_SIZE: nat := 128
  const MAX_PENDING: nat := 2000

  datatype Config = Config(windowMs: nat, threshold: nat)

  /** Times of on-side evaluations; `head` is the oldest once the ring is full. */
  datatype Ring = Ring(times: seq<int>, head: nat, count: nat)

  function EmptyRing(): Ring { Ring(seq(RING_SIZE, _ => 0), 0, 0) }

  function Record(r: Ring, now: int): Ring
    requires |r.times| == RING_SIZE && r.head < RING_SIZE && r.count <= RING_SIZE
  {
    if r.count < RING_SIZE then r.(times := r.times[(r.head + r.count) % RING_SIZE := now], count := r.count + 1)
    else r.(times := r.times[r.head := now], head := (r.head + 1) % RING_SIZE)
  }

  /** How many of `times` lie within the window that ends now. */
  function Within(times: seq<int>, now: int, windowMs: nat): (n: nat)
    ensures n <= |times|
  {
    if times == [] then 0
    else Within(times[..|times| - 1], now, windowMs) + if now - times[|times| - 1] <= windowMs then 1 else 0
  }

  function InWindow(r: Ring, now: int, windowMs: nat): nat
    requires r.count <= |r.times|
  {
    Within(r.times[..r.count], now, windowMs)
  }

  /** It is the number of entries no older than the window, the window's first millisecond included. */
  lemma {:induction false} WithinCounts(times: seq<int>, now: int, windowMs: nat)
    ensures Within(times, now, windowMs) == |set i | 0 <= i < |times| && times[i] >= now - windowMs|
  {
    var here := set i | 0 <= i < |times| && times[i] >= now - windowMs;
    if times == [] {
      assert here == {};
    } else {
      var n := |times| - 1;
      var front := times[..n];
      WithinCounts(front, now, windowMs);
      var before := set i | 0 <= i < |front| && front[i] >= now - windowMs;
      assert here == if times[n] >= now - windowMs then before + {n} else before;
    }
  }

  // ---- the ring is the end of the history ----

  function Recent(history: seq<int>): seq<int> {
    if |history| <= RING_SIZE then history else history[|history| - RING_SIZE..]
  }

  ghost predicate Follows(r: Ring, history: seq<int>) {
    && |r.times| == RING_SIZE && r.head < RING_SIZE && r.count == |Recent(history)|
    && (r.count < RING_SIZE ==> r.head == 0 && r.times[..r.count] == history)
    && (r.count == RING_SIZE ==> r.times[r.head..] + r.times[..r.head] == Recent(history))
  }

  lemma FillingFollows(r: Ring, history: seq<int>, now: int)
    requires Follows(r, history) && r.count < RING_SIZE
    ensures Follows(Record(r, now), history + [now])
  {
    var r' := Record(r, now);
    assert r'.times[..r'.count] == history + [now];
    assert r'.times[0..] + r'.times[..0] == r'.times == r'.times[..RING_SIZE];
  }

  lemma FullFollows(r: Ring, history: seq<int>, now: int)
    requires Follows(r, history) && r.count == RING_SIZE
    ensures Follows(Record(r, now), history + [now])
  {
    var r' := Record(r, now);
    var newest := r.times[r.head..] + r.times[..r.head];
    Slides(history, now);
    assert newest[1..] == r.times[r.head + 1..] + r.times[..r.head];
    if r.head + 1 == RING_SIZE {
      assert r'.times[0..] + r'.times[..0] == r.times[..r.head] + [now];
      assert r.times[r.head + 1..] + r.times[..r.head] == r.times[..r.head];
    } else {
      assert r'.times[r'.head..] == r.times[r.head + 1..];
      assert r'.times[..r'.head] == r.times[..r.head] + [now];
      assert r'.times[r'.head..] + r'.times[..r'.head] == newest[1..] + [now];
    }
  }

  lemma Slides(history: seq<int>, now: int)
    requires |history| >= RING_SIZE
    ensures Recent(history + [now]) == Recent(history)[1..] + [now]
  {
  }

  lemma RecordFollows(r: Ring, history: seq<int>, now: int)
    requires Follows(r, history)
    ensures Follows(Record(r, now), history + [now])
  {
    if r.count < RING_SIZE {
      FillingFollows(r, history, now);
    } else {
      FullFollows(r, history, now);
    }
  }

  lemma {:induction false} WithinJoin(a: seq<int>, b: seq<int>, now: int, windowMs: nat)
    ensures Within(a + b, now, windowMs) == Within(a, now, windowMs) + Within(b, now, windowMs)
  {
    if b == [] {
      assert a + b == a;
    } else {
      assert (a + b)[..|a + b| - 1] == a + b[..|b| - 1];
      WithinJoin(a, b[..|b| - 1], now, windowMs);
    }
  }

  /** The order inside the ring does not matter for the count. */
  lemma RingCount(r: Ring, history: seq<int>, now: int, windowMs: nat)
    requires Follows(r, history)
    ensures InWindow(r, now, windowMs) == Within(Recent(history), now, windowMs)
  {
    hide Within;
    if r.count == RING_SIZE {
      var newer, older := r.times[..r.head], r.times[r.head..];
      WithinJoin(newer, older, now, windowMs);
      WithinJoin(older, newer, now, windowMs);
      assert newer + older == r.times == r.times[..r.count];
    } else {
      assert r.times[..r.count] == Recent(history);
    }
  }

  ghost predicate Rising(times: seq<int>) {
    forall i, j :: 0 <= i < j < |times| ==> times[i] <= times[j]
  }

  lemma {:induction false} AllWithin(times: seq<int>, now: int, windowMs: nat)
    requires forall i :: 0 <= i < |times| ==> now - times[i] <= windowMs
    ensures Within(times, now, windowMs) == |times|
  {
    if times != [] {
      AllWithin(times[..|times| - 1], now, windowMs);
    }
  }

  lemma OldestOutside(history: seq<int>, now: int, windowMs: nat)
    requires history != [] && now - history[0] > windowMs
    ensures Within(history, now, windowMs) == Within(history[1..], now, windowMs)
  {
    assert history == [history[0]] + history[1..];
    WithinJoin([history[0]], history[1..], now, windowMs);
    assert [history[0]][..0] == [];
  }

  /** With a clock that never goes back, the ring sees min(128, all) of the evaluations in the window. */
  lemma {:induction false} RecentCount(history: seq<int>, now: int, windowMs: nat)
    requires Rising(history)
    ensures Within(Recent(history), now, windowMs)
         == if Within(history, now, windowMs) < RING_SIZE then Within(history, now, windowMs) else RING_SIZE
    decreases |history|
  {
    if |history| > RING_SIZE {
      if now - history[0] <= windowMs {
        AllWithin(history, now, windowMs);
        AllWithin(Recent(history), now, windowMs);
      } else {
        RecentCount(history[1..], now, windowMs);
        OldestOutside(history, now, windowMs);
        hide Within;
        assert Recent(history[1..]) == Recent(history);
      }
    }
  }

  /** The storm decision of the engine equals the one over the full history, for every history,
      exactly when the threshold is below the ring size; from there on it is always "no storm". */
  lemma DecisionExact(threshold: nat)
    ensures (forall history, now, windowMs :: Rising(history) ==>
        ((Within(Recent(history), now, windowMs) > threshold) == (Within(history, now, windowMs) > threshold)))
      <==> threshold < RING_SIZE
  {
    forall history, now, windowMs | Rising(history) && threshold < RING_SIZE
      ensures (Within(Recent(history), now, windowMs) > threshold) == (Within(history, now, windowMs) > threshold)
    {
      RecentCount(history, now, windowMs);
    }
    if threshold >= RING_SIZE {
      var burst := seq(threshold + 1, _ => 0);
      AllWithin(burst, 0, 1);
      assert Rising(burst);
      assert Within(burst, 0, 1) > threshold;
      assert !(Within(Recent(burst), 0, 1) > threshold);
    }
  }

  // ---- the merged batch ----

  /** Storm mode, alarms waiting for the next flush, alarms dropped since the last one. */
  datatype Batch<T> = Batch(active: bool, pending: seq<T>, dropped: nat)

  /** An alarm raised in storm mode is merged, or counted as dropped when the batch is full. */
  function Merge<T>(b: Batch<T>, evt: T): Batch<T> {
    if !b.active then b
    else if |b.pending| >= MAX_PENDING then b.(dropped := b.dropped + 1)
    else b.(pending := b.pending + [evt])
  }
}
