/** The write buffer of the history store: bounded, dropping the oldest records, swapped out by a flush
    that files each record in the store of its month. */
module HistoryStores {
  import D = DownSampling
  import F = HistoryFiling

  /** `broken`: the months whose file fails during the flush. */
  datatype Event = Enqueue(s: D.Rolled) | Flush(broken: set<nat>) | SetCapacity(c: nat)

  /** `enqueued`: everything offered; `since`: offered since the last flush; `taken`: handed to the
      month files; `lost`: dropped for lack of room. */
  datatype World = World(pending: seq<D.Rolled>, capacity: nat, dropped: nat,
                         enqueued: seq<D.Rolled>, since: seq<D.Rolled>, taken: seq<D.Rolled>, lost: seq<D.Rolled>)

  /** How many of the oldest records do not fit. */
  function Excess(size: nat, capacity: nat): nat { if size > capacity then size - capacity else 0 }

  function Step(w: World, e: Event): World {
    match e
    case Enqueue(s) =>
      var all := w.pending + [s];
      var excess := Excess(|all|, w.capacity);
      World(all[excess..], w.capacity, w.dropped + excess, w.enqueued + [s], w.since + [s], w.taken,
            w.lost + all[..excess])
    case Flush(_) => w.(pending := [], since := [], taken := w.taken + w.pending)
    case SetCapacity(c) => w.(capacity := c)
  }

  function Run(w: World, events: seq<Event>): World {
    if events == [] then w else Step(Run(w, events[..|events| - 1]), events[|events| - 1])
  }

  function Start(capacity: nat): World { World([], capacity, 0, [], [], [], []) }

  ghost predicate IsSuffix(a: seq<D.Rolled>, b: seq<D.Rolled>) { |a| <= |b| && b[|b| - |a|..] == a }

  /** Every record offered is pending, handed over or lost; the drop count is the number lost; what is
      pending is the end of what came in since the last flush. */
  ghost predicate Inv(w: World) {
    && multiset(w.enqueued) == multiset(w.taken) + multiset(w.pending) + multiset(w.lost)
    && |w.lost| == w.dropped
    && IsSuffix(w.pending, w.since) && IsSuffix(w.since, w.enqueued)
  }

  lemma Rearranged<T>(t: multiset<T>, p: multiset<T>, l: multiset<T>, s: multiset<T>, g: multiset<T>, k: multiset<T>)
    requires p + s == g + k
    ensures t + p + l + s == t + k + (l + g)
  {
    forall x ensures (t + p + l + s)[x] == (t + k + (l + g))[x] {
      assert (p + s)[x] == (g + k)[x];
    }
  }

  lemma EnqueueCounts(w: World, s: D.Rolled)
    requires multiset(w.enqueued) == multiset(w.taken) + multiset(w.pending) + multiset(w.lost)
    ensures var w' := Step(w, Enqueue(s));
      multiset(w'.enqueued) == multiset(w'.taken) + multiset(w'.pending) + multiset(w'.lost)
  {
    var all := w.pending + [s];
    var excess := Excess(|all|, w.capacity);
    var gone, kept := all[..excess], all[excess..];
    var w' := Step(w, Enqueue(s));
    assert w'.pending == kept && w'.lost == w.lost + gone && w'.enqueued == w.enqueued + [s] && w'.taken == w.taken;
    hide Step;
    assert all == gone + kept;
    assert multiset(gone + kept) == multiset(gone) + multiset(kept);
    assert multiset(w.lost + gone) == multiset(w.lost) + multiset(gone);
    assert multiset(all) == multiset(w.pending) + multiset([s]);
    assert multiset(w.enqueued + [s]) == multiset(w.enqueued) + multiset([s]);
    Rearranged(multiset(w.taken), multiset(w.pending), multiset(w.lost), multiset([s]), multiset(gone), multiset(kept));
  }

  lemma EnqueueKeeps(w: World, s: D.Rolled)
    requires Inv(w)
    ensures Inv(Step(w, Enqueue(s)))
  {
    EnqueueCounts(w, s);
    var w' := Step(w, Enqueue(s));
    var all := w.pending + [s];
    assert IsSuffix(all, w.since + [s]) && IsSuffix(w'.pending, all);
  }

  lemma {:induction false} RunKeeps(capacity: nat, events: seq<Event>)
    ensures Inv(Run(Start(capacity), events))
    ensures var w := Run(Start(capacity), events);
      |w.enqueued| == |w.taken| + |w.pending| + w.dropped
  {
    if events != [] {
      var e := events[|events| - 1];
      RunKeeps(capacity, events[..|events| - 1]);
      var w := Run(Start(capacity), events[..|events| - 1]);
      if e.Enqueue? {
        EnqueueKeeps(w, e.s);
      }
    }
    var w := Run(Start(capacity), events);
    assert |multiset(w.enqueued)| == |multiset(w.taken)| + |multiset(w.pending)| + |multiset(w.lost)|;
  }

  function Newest(s: seq<D.Rolled>, n: nat): seq<D.Rolled> { if |s| <= n then s else s[|s| - n..] }

  lemma NewestStart(capacity: nat)
    ensures Start(capacity).pending == Newest(Start(capacity).since, capacity)
  {
  }

  lemma NewestNext(w: World, e: Event)
    requires w.pending == Newest(w.since, w.capacity) && !e.SetCapacity?
    ensures Step(w, e).pending == Newest(Step(w, e).since, w.capacity) && Step(w, e).capacity == w.capacity
  {
    if e.Enqueue? {
      NewestSlides(w.since, e.s, w.capacity);
    }
  }

  lemma NewestSlides(since: seq<D.Rolled>, s: D.Rolled, capacity: nat)
    ensures var all := Newest(since, capacity) + [s];
      all[Excess(|all|, capacity)..] == Newest(since + [s], capacity)
  {
    var all := Newest(since, capacity) + [s];
    if |since| > capacity {
      var cut := |since| - capacity;
      assert since == since[..cut] + since[cut..];
      assert since + [s] == since[..cut] + all;
      assert (since + [s])[cut + 1..] == all[1..];
    }
  }

  /** With a fixed capacity the buffer holds exactly the newest records since the last flush. */
  lemma {:induction false} PendingIsNewest(capacity: nat, events: seq<Event>)
    requires forall e :: e in events ==> !e.SetCapacity?
    ensures var w := Run(Start(capacity), events);
      w.capacity == capacity && w.pending == Newest(w.since, capacity)
  {
    NewestStart(capacity);
    hide Step;
    hide Newest;
    if events != [] {
      var front, e := events[..|events| - 1], events[|events| - 1];
      assert e in events && forall f :: f in front ==> f in events;
      PendingIsNewest(capacity, front);
      NewestNext(Run(Start(capacity), front), e);
    }
  }

  // ---- filing by month ----

  type MonthOf = nat -> nat

  function OfMonth(batch: seq<D.Rolled>, monthOf: MonthOf, m: nat): seq<D.Rolled> {
    if batch == [] then []
    else
      var last := batch[|batch| - 1];
      OfMonth(batch[..|batch| - 1], monthOf, m) + if monthOf(last.timestamp) == m then [last] else []
  }

  /** Each record goes to the file of its month as often as it was in the batch, and to no other. */
  lemma {:induction false} FiledOnce(batch: seq<D.Rolled>, monthOf: MonthOf, m: nat, x: D.Rolled)
    ensures multiset(OfMonth(batch, monthOf, m))[x] == if monthOf(x.timestamp) == m then multiset(batch)[x] else 0
  {
    if batch != [] {
      var front, last := batch[..|batch| - 1], batch[|batch| - 1];
      FiledOnce(front, monthOf, m, x);
      assert batch == front + [last];
    }
  }

  method FileByMonth(batch: seq<D.Rolled>, monthOf: MonthOf) returns (buckets: map<nat, seq<D.Rolled>>)
    ensures forall m :: m in buckets <==> OfMonth(batch, monthOf, m) != []
    ensures forall m :: m in buckets ==> buckets[m] == OfMonth(batch, monthOf, m)
  {
    buckets := map[];
    for i := 0 to |batch|
      invariant forall m :: m in buckets <==> OfMonth(batch[..i], monthOf, m) != []
      invariant forall m :: m in buckets ==> buckets[m] == OfMonth(batch[..i], monthOf, m)
    {
      assert batch[..i + 1][..i] == batch[..i];
      var m := monthOf(batch[i].timestamp);
      buckets := buckets[m := (if m in buckets then buckets[m] else []) + [batch[i]]];
    }
    assert batch[..|batch|] == batch;
  }

  // ---- what the months take ----

  lemma {:induction false} OfMonthJoin(a: seq<D.Rolled>, b: seq<D.Rolled>, monthOf: MonthOf, m: nat)
    ensures OfMonth(a + b, monthOf, m) == OfMonth(a, monthOf, m) + OfMonth(b, monthOf, m)
  {
    if b == [] {
      assert a + b == a;
    } else {
      assert (a + b)[..|a + b| - 1] == a + b[..|b| - 1];
      OfMonthJoin(a, b[..|b| - 1], monthOf, m);
    }
  }

  lemma {:induction false} KeyInMonth(batch: seq<D.Rolled>, monthOf: MonthOf, x: D.Rolled)
    ensures F.KeyIn(OfMonth(batch, monthOf, monthOf(x.timestamp)), x) <==> F.KeyIn(batch, x)
  {
    if batch != [] {
      var front, last := batch[..|batch| - 1], batch[|batch| - 1];
      var m := monthOf(x.timestamp);
      KeyInMonth(front, monthOf, x);
      assert batch == front + [last];
      KeyInAppend(front, last, x);
      KeyInAppend(OfMonth(front, monthOf, m), last, x);
      assert OfMonth(front, monthOf, m) + [] == OfMonth(front, monthOf, m);
      hide F.KeyIn;
    }
  }

  lemma KeyInAppend(rows: seq<D.Rolled>, last: D.Rolled, x: D.Rolled)
    ensures F.KeyIn(rows + [last], x) <==> F.KeyIn(rows, x) || F.SameKey(last, x)
  {
    assert (rows + [last])[|rows|] == last;
    assert forall k :: 0 <= k < |rows| ==> (rows + [last])[k] == rows[k];
    hide F.SameKey;
  }

  /** Keys are distinct if and only if they are within each month. */
  lemma {:induction false} KeyedByMonth(batch: seq<D.Rolled>, monthOf: MonthOf)
    ensures F.Keyed(batch) <==> forall m :: F.Keyed(OfMonth(batch, monthOf, m))
  {
    if batch != [] {
      var front, x := batch[..|batch| - 1], batch[|batch| - 1];
      assert batch == front + [x];
      KeyedByMonth(front, monthOf);
      F.KeyedAppend(front, x);
      hide F.Keyed;
      hide F.KeyIn;
      hide OfMonth;
      if m: nat :| !F.Keyed(OfMonth(batch, monthOf, m)) {
        OneMoreKey(front, x, monthOf, m);
      } else {
        OneMoreKey(front, x, monthOf, monthOf(x.timestamp));
        assert F.Keyed(OfMonth(batch, monthOf, monthOf(x.timestamp)));
        forall m ensures F.Keyed(OfMonth(front, monthOf, m)) {
          OneMoreKey(front, x, monthOf, m);
          assert F.Keyed(OfMonth(batch, monthOf, m));
        }
      }
    }
  }

  lemma OneMoreKey(front: seq<D.Rolled>, x: D.Rolled, monthOf: MonthOf, m: nat)
    ensures F.Keyed(OfMonth(front + [x], monthOf, m))
      <==> F.Keyed(OfMonth(front, monthOf, m)) && (m == monthOf(x.timestamp) ==> !F.KeyIn(front, x))
  {
    assert (front + [x])[..|front|] == front;
    assert OfMonth(front, monthOf, m) + [] == OfMonth(front, monthOf, m);
    KeyInMonth(front, monthOf, x);
    F.KeyedAppend(OfMonth(front, monthOf, m), x);
    hide F.Keyed;
    hide F.KeyIn;
  }

  /** The rows of month `m` after a run. */
  function Filed(capacity: nat, events: seq<Event>, monthOf: MonthOf, m: nat): seq<D.Rolled> {
    if events == [] then []
    else
      var front, e := events[..|events| - 1], events[|events| - 1];
      var rows := Filed(capacity, front, monthOf, m);
      if e.Flush? then F.Inserted(rows, OfMonth(Run(Start(capacity), front).pending, monthOf, m), m in e.broken)
      else rows
  }

  /** Event `j` is a flush whose records month `m` refuses. */
  ghost predicate RefusedAt(capacity: nat, events: seq<Event>, monthOf: MonthOf, m: nat, j: nat) {
    && j < |events| && events[j].Flush?
    && !F.Accepts(Filed(capacity, events[..j], monthOf, m),
                  OfMonth(Run(Start(capacity), events[..j]).pending, monthOf, m), m in events[j].broken)
  }

  ghost predicate EverRefused(capacity: nat, events: seq<Event>, monthOf: MonthOf, m: nat) {
    exists j :: RefusedAt(capacity, events, monthOf, m, j)
  }

  ghost predicate NothingBroken(events: seq<Event>) {
    forall e :: e in events && e.Flush? ==> e.broken == {}
  }

  lemma {:induction false} RefusedNext(capacity: nat, events: seq<Event>, monthOf: MonthOf, m: nat)
    requires events != []
    ensures var k := |events| - 1;
      EverRefused(capacity, events, monthOf, m)
      <==> EverRefused(capacity, events[..k], monthOf, m) || RefusedAt(capacity, events, monthOf, m, k)
  {
    var k := |events| - 1;
    var front := events[..k];
    assert forall j :: 0 <= j <= k ==> front[..j] == events[..j];
    hide Filed;
    hide Run;
    hide F.Accepts;
    forall j: nat | j < k
      ensures RefusedAt(capacity, front, monthOf, m, j) <==> RefusedAt(capacity, events, monthOf, m, j)
    {
      assert front[j] == events[j];
    }
    if j: nat :| RefusedAt(capacity, events, monthOf, m, j) {
      assert j < k || j == k;
    }
    if j: nat :| RefusedAt(capacity, front, monthOf, m, j) {
      assert RefusedAt(capacity, events, monthOf, m, j);
    }
  }

  /** In every run a month keeps distinct keys; as long as it refused nothing it holds exactly its records
      among those handed over; and with no broken file it has refused some batch if and only if two of
      those records have the same key. */
  lemma {:induction false} MonthExactly(capacity: nat, events: seq<Event>, monthOf: MonthOf, m: nat)
    ensures var rows, taken := Filed(capacity, events, monthOf, m), Run(Start(capacity), events).taken;
      && F.Keyed(rows)
      && (!EverRefused(capacity, events, monthOf, m) ==> rows == OfMonth(taken, monthOf, m))
      && (NothingBroken(events) ==>
            (EverRefused(capacity, events, monthOf, m) <==> !F.Keyed(OfMonth(taken, monthOf, m))))
  {
    if events != [] {
      var k := |events| - 1;
      var front, e := events[..k], events[k];
      MonthExactly(capacity, front, monthOf, m);
      RefusedNext(capacity, events, monthOf, m);
      assert events == front + [e];
      assert NothingBroken(events) ==> NothingBroken(front);
      assert NothingBroken(events) && e.Flush? ==> m !in e.broken by {
        assert e in events;
      }
      var w := Run(Start(capacity), front);
      hide EverRefused;
      hide NothingBroken;
      if e.Flush? {
        var rows, batch := Filed(capacity, front, monthOf, m), OfMonth(w.pending, monthOf, m);
        OfMonthJoin(w.taken, w.pending, monthOf, m);
        assert RefusedAt(capacity, events, monthOf, m, k) <==> !F.Accepts(rows, batch, m in e.broken);
        MonthTakes(rows, OfMonth(w.taken, monthOf, m), batch, m in e.broken);
      }
    }
  }

  lemma MonthTakes(rows: seq<D.Rolled>, before: seq<D.Rolled>, batch: seq<D.Rolled>, broken: bool)
    requires F.Keyed(rows)
    ensures F.Keyed(F.Inserted(rows, batch, broken))
    ensures !F.Keyed(before) ==> !F.Keyed(before + batch)
    ensures rows == before && !broken ==> (F.Accepts(rows, batch, broken) <==> F.Keyed(before + batch))
  {
    assert rows + [] == rows;
    if F.Keyed(before + batch) {
      F.KeyedPart(before, batch);
    }
    hide F.Keyed;
  }

  /** Two records of one point have the same time stamp. */
  predicate SomeTwice(rows: seq<D.Rolled>) {
    exists i, j :: 0 <= i < j < |rows| && rows[i].pointId == rows[j].pointId && rows[i].timestamp == rows[j].timestamp
  }

  /** In every run without a broken file: some flush has a month refuse its whole batch if and only if two
      records handed over have the same point and time stamp. */
  lemma RefusedExactly(capacity: nat, events: seq<Event>, monthOf: MonthOf)
    requires NothingBroken(events)
    ensures var taken := Run(Start(capacity), events).taken;
      (exists m :: EverRefused(capacity, events, monthOf, m)) <==> SomeTwice(taken)
  {
    var taken := Run(Start(capacity), events).taken;
    assert SomeTwice(taken) <==> !F.Keyed(taken);
    hide SomeTwice;
    KeyedByMonth(taken, monthOf);
    hide EverRefused;
    hide F.Keyed;
    if m: nat :| EverRefused(capacity, events, monthOf, m) {
      MonthExactly(capacity, events, monthOf, m);
    }
    if m: nat :| !F.Keyed(OfMonth(taken, monthOf, m)) {
      MonthExactly(capacity, events, monthOf, m);
    }
  }

  // ---- records of the down-sampler ----

  /** The records of the windows that a point has rolled up. */
  function Records(pointId: nat, closed: seq<D.Bucket>): seq<D.Rolled>
    requires forall b :: b in closed ==> D.HasReadings(b)
  {
    seq(|closed|, i requires 0 <= i < |closed| => D.Export(pointId, closed[i]))
  }

  lemma RecordsTwice(p: D.Point, pointId: nat)
    requires forall b :: b in p.closed ==> D.HasReadings(b)
    ensures SomeTwice(Records(pointId, p.closed)) <==> !D.Once(p)
  {
    var rows := Records(pointId, p.closed);
    assert forall i :: 0 <= i < |rows| ==>
        rows[i].pointId == pointId && rows[i].timestamp == p.closed[i].windowStart;
    if !D.Once(p) {
      var i, j :| 0 <= i < j < |p.closed| && p.closed[i].windowStart == p.closed[j].windowStart;
      assert rows[i].pointId == rows[j].pointId && rows[i].timestamp == rows[j].timestamp;
    }
  }

  ghost predicate Recorded(rows: seq<D.Rolled>, pointId: nat, closed: seq<D.Bucket>) {
    (forall b :: b in closed ==> D.HasReadings(b)) ==> rows == Records(pointId, closed)
  }

  /** Without losses records are handed over in the order in which they came. */
  lemma {:induction false} HandedOver(capacity: nat, events: seq<Event>)
    ensures var w := Run(Start(capacity), events);
      w.lost == [] ==> w.enqueued == w.taken + w.pending
  {
    if events != [] {
      var w := Run(Start(capacity), events[..|events| - 1]);
      HandedOver(capacity, events[..|events| - 1]);
      if events[|events| - 1].Enqueue? {
        var all := w.pending + [events[|events| - 1].s];
        assert all[0..] == all && all[..0] == [];
        assert w.taken + all == (w.taken + w.pending) + [events[|events| - 1].s];
      }
    }
  }

  /** A point's windows, all rolled up, filed without a loss or a broken file: some month refuses a whole
      batch if and only if some reading came for a window that had been rolled up and was not open. What is
      refused is not in the drop count. */
  lemma LateReadingsRefused(ps: seq<D.Point>, readings: seq<D.Event>, g: D.Granularity, pointId: nat,
                            capacity: nat, events: seq<Event>, monthOf: MonthOf)
    requires D.Behaviour(ps, readings, g) && ps[|readings|].open == map[] && NothingBroken(events)
    requires var w := Run(Start(capacity), events);
      Recorded(w.enqueued, pointId, ps[|readings|].closed) && w.lost == [] && w.pending == []
    ensures (exists m :: EverRefused(capacity, events, monthOf, m))
      <==> exists j :: 0 <= j < |readings| && D.Again(ps[j], readings[j], g)
    ensures Run(Start(capacity), events).dropped == 0
  {
    var p := ps[|readings|];
    D.AlwaysFilled(ps, readings, g, |readings|);
    HandedOver(capacity, events);
    RunKeeps(capacity, events);
    var w := Run(Start(capacity), events);
    assert w.taken + [] == w.taken;
    RefusedExactly(capacity, events, monthOf);
    RecordsTwice(p, pointId);
    D.TwiceExactly(ps, readings, g, |readings|);
    hide *;
  }

  type Tables = map<nat, seq<D.Rolled>>

  /** Month `m` accepts its records of the batch. */
  ghost predicate Taken(was: Tables, batch: seq<D.Rolled>, monthOf: MonthOf, broken: set<nat>, m: nat) {
    F.Accepts(F.RowsOf(was, m), OfMonth(batch, monthOf, m), m in broken)
  }

  /** Month `m` has taken or refused its records of the batch. */
  ghost predicate Stored(was: Tables, now: Tables, batch: seq<D.Rolled>, monthOf: MonthOf, broken: set<nat>, m: nat) {
    F.RowsOf(now, m) == F.Inserted(F.RowsOf(was, m), OfMonth(batch, monthOf, m), m in broken)
  }

  /** One bucket after the other, each in its own transaction. */
  method StoreBuckets(files: F.HistoryFiles, buckets: Tables, ghost batch: seq<D.Rolled>, monthOf: MonthOf,
                      broken: set<nat>)
    returns (ok: bool)
    requires files.Valid()
    requires forall m :: m in buckets <==> OfMonth(batch, monthOf, m) != []
    requires forall m :: m in buckets ==> buckets[m] == OfMonth(batch, monthOf, m)
    modifies files
    ensures files.Valid()
    ensures ok <==> forall m :: Taken(old(files.tables), batch, monthOf, broken, m)
    ensures forall m :: Stored(old(files.tables), files.tables, batch, monthOf, broken, m)
  {
    F.EmptyBatch();
    hide F.Accepts;
    hide F.Inserted;
    hide F.RowsOf;
    hide OfMonth;
    ghost var was := files.tables;
    ok := true;
    var todo := buckets.Keys;
    while todo != {}
      invariant todo <= buckets.Keys && files.Valid()
      invariant forall m :: m in todo ==> F.RowsOf(files.tables, m) == F.RowsOf(was, m)
      invariant forall m :: m !in todo ==> Stored(was, files.tables, batch, monthOf, broken, m)
      invariant ok <==> forall m :: m !in todo ==> Taken(was, batch, monthOf, broken, m)
      decreases |todo|
    {
      var m :| m in todo;
      todo := todo - {m};
      var took := files.BatchInsert(m, buckets[m], m in broken);
      assert took <==> Taken(was, batch, monthOf, broken, m);
      if !took {
        ok := false;
      }
    }
  }

  class L2HistoryStore {
    const dal: F.HistoryFiles?
    var writeBuffer: seq<D.Rolled>
    var capacity: nat
    var droppedCount: nat

    /** The buffer is the one of world `w`. */
    ghost predicate At(w: World)
      reads this
    {
      w.pending == writeBuffer && w.capacity == capacity && w.dropped == droppedCount
    }

    constructor (dal: F.HistoryFiles?)
      ensures At(Start(100000)) && this.dal == dal
    {
      this.dal := dal;
      writeBuffer, capacity, droppedCount := [], 100000, 0;
    }

    method EnqueueSample(s: D.Rolled)
      modifies this`writeBuffer, this`droppedCount
      ensures forall w :: old(At(w)) ==> At(Step(w, Enqueue(s)))
    {
      writeBuffer := writeBuffer + [s];
      if |writeBuffer| > capacity {
        var excess := |writeBuffer| - capacity;
        writeBuffer := writeBuffer[excess..];
        droppedCount := droppedCount + excess;
      }
    }

    /** Without a database nothing is taken. Otherwise the whole buffer is swapped out and every month that
        occurs in it takes its records or refuses them all; refused records are gone too. */
    method FlushBuffer(monthOf: MonthOf, broken: set<nat>) returns (ok: bool)
      requires dal != null ==> dal.Valid()
      modifies this`writeBuffer, dal
      ensures dal == null ==> !ok && writeBuffer == old(writeBuffer)
      ensures dal != null ==> dal.Valid() && forall w :: old(At(w)) ==> At(Step(w, Flush(broken)))
      ensures dal != null ==>
        && (ok <==> forall m :: Taken(old(dal.tables), old(writeBuffer), monthOf, broken, m))
        && (forall m :: Stored(old(dal.tables), dal.tables, old(writeBuffer), monthOf, broken, m))
    {
      if dal == null {
        return false;
      }
      if writeBuffer == [] {
        F.EmptyBatch();
        return true;
      }
      var batch := writeBuffer;
      writeBuffer := [];
      var buckets := FileByMonth(batch, monthOf);
      ok := StoreBuckets(dal, buckets, batch, monthOf, broken);
    }
  }
}
