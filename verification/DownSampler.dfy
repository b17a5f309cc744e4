/** Window aggregation: samples fall into time windows, closed windows are rolled up into one record
    each. Values are reals. */
module DownSampling {
  import opened Bytes

  datatype Granularity = Gran100ms | Gran1s | Gran5s | Gran1m

  function WindowMs(g: Granularity): (w: nat)
    ensures w > 0
  {
    match g case Gran100ms => 100 case Gran1s => 1000 case Gran5s => 5000 case Gran1m => 60000
  }

  function AlignToWindow(ts: nat, g: Granularity): (start: nat)
    ensures start <= ts < start + WindowMs(g) && exists k: nat :: start == k * WindowMs(g)
  {
    var k: nat := ts / WindowMs(g);
    k * WindowMs(g)
  }

  /** `maxV` and `minV` are absent where the code starts from an infinity. */
  datatype Bucket = Bucket(windowStart: nat, maxV: Option<real>, minV: Option<real>, sumV: real, count: nat)

  const EMPTY := Bucket(0, None, None, 0.0, 0)

  datatype Rolled = Rolled(pointId: nat, timestamp: nat, maxValue: real, minValue: real, avgValue: real,
                           sampleCount: nat)

  datatype Reading = Reading(ts: nat, value: real)

  function Max(a: Option<real>, v: real): real { if a.Some? && a.value > v then a.value else v }

  function Min(a: Option<real>, v: real): real { if a.Some? && a.value < v then a.value else v }

  function Add(b: Bucket, win: nat, v: real): Bucket {
    Bucket(if b.windowStart == 0 then win else b.windowStart, Some(Max(b.maxV, v)), Some(Min(b.minV, v)),
           b.sumV + v, b.count + 1)
  }

  function Feed(open: map<nat, Bucket>, r: Reading, g: Granularity): map<nat, Bucket> {
    if r.ts == 0 then open
    else
      var win := AlignToWindow(r.ts, g);
      open[win := Add(if win in open then open[win] else EMPTY, win, r.value)]
  }

  predicate HasReadings(b: Bucket) { b.count > 0 && b.maxV.Some? && b.minV.Some? }

  /** The record of a closed window; the sample count is cut to 16 bits. */
  function Export(pointId: nat, b: Bucket): Rolled
    requires HasReadings(b)
  {
    Rolled(pointId, b.windowStart, b.maxV.value, b.minV.value, b.sumV / b.count as real, b.count % 0x1_0000)
  }

  // ---- what a window's samples add up to ----

  /** All valid readings of the window that starts at `win`. */
  function Summary(fed: seq<Reading>, win: nat, g: Granularity): Bucket {
    if fed == [] then EMPTY
    else
      var last := fed[|fed| - 1];
      var before := Summary(fed[..|fed| - 1], win, g);
      if AlignToWindow(last.ts, g) == win then Add(before, win, last.value) else before
  }

  function InWindow(fed: seq<Reading>, win: nat, g: Granularity): seq<real> {
    if fed == [] then []
    else
      var last := fed[|fed| - 1];
      InWindow(fed[..|fed| - 1], win, g) + if AlignToWindow(last.ts, g) == win then [last.value] else []
  }

  function Sum(values: seq<real>): real {
    if values == [] then 0.0 else Sum(values[..|values| - 1]) + values[|values| - 1]
  }

  /** A bucket holds the number, the sum, the largest and the smallest of `values`. */
  ghost predicate Describes(b: Bucket, win: nat, values: seq<real>) {
    && b.count == |values| && b.sumV == Sum(values)
    && (values == [] ==> b == EMPTY)
    && (values != [] ==>
          && b.windowStart == win && b.maxV.Some? && b.minV.Some?
          && b.maxV.value in values && b.minV.value in values
          && forall v :: v in values ==> b.minV.value <= v <= b.maxV.value)
  }

  lemma {:induction false} SummaryDescribes(fed: seq<Reading>, win: nat, g: Granularity)
    ensures Describes(Summary(fed, win, g), win, InWindow(fed, win, g))
  {
    if fed != [] {
      var front, last := fed[..|fed| - 1], fed[|fed| - 1];
      SummaryDescribes(front, win, g);
      if AlignToWindow(last.ts, g) == win {
        AddDescribes(Summary(front, win, g), win, InWindow(front, win, g), last.value);
      } else {
        assert InWindow(front, win, g) + [] == InWindow(front, win, g);
      }
    }
  }

  lemma AddDescribes(b: Bucket, win: nat, values: seq<real>, v: real)
    requires Describes(b, win, values)
    ensures Describes(Add(b, win, v), win, values + [v])
  {
    assert (values + [v])[..|values|] == values;
    assert forall x :: x in values + [v] <==> x in values || x == v;
  }

  lemma TimesNext(x: real, n: nat)
    ensures x * (n + 1) as real == x * n as real + x
  {
    assert (n + 1) as real == n as real + 1.0;
  }

  lemma {:induction false} SumBounds(values: seq<real>, lo: real, hi: real)
    requires forall v :: v in values ==> lo <= v <= hi
    ensures lo * |values| as real <= Sum(values) <= hi * |values| as real
  {
    if values != [] {
      var front := values[..|values| - 1];
      assert values == front + [values[|values| - 1]];
      assert forall v :: v in front ==> v in values;
      SumBounds(front, lo, hi);
      assert values[|values| - 1] in values;
      TimesNext(lo, |front|);
      TimesNext(hi, |front|);
    }
  }

  /** The average lies between the smallest and the largest sample. */
  lemma AverageBetween(b: Bucket, win: nat, values: seq<real>, pointId: nat)
    requires Describes(b, win, values) && values != []
    ensures b.count > 0
    ensures var r := Export(pointId, b); r.minValue <= r.avgValue <= r.maxValue
  {
    SumBounds(values, b.minV.value, b.maxV.value);
    DivideBounds(b.minV.value, b.sumV, b.maxV.value, b.count as real);
  }

  lemma DivideBounds(lo: real, sum: real, hi: real, n: real)
    requires n > 0.0 && lo * n <= sum <= hi * n
    ensures lo <= sum / n <= hi
  {
    var average := sum / n;
    assert average * n == sum;
    TimesOrder(average, lo, n);
    TimesOrder(hi, average, n);
  }

  lemma TimesOrder(a: real, b: real, n: real)
    requires n > 0.0
    ensures a < b <==> a * n < b * n
  {
    assert b * n - a * n == (b - a) * n;
  }

  // ---- one point over time ----

  /** `fed`: valid readings so far; `closed`: buckets rolled up so far; `floor`: no window below it is open. */
  datatype Point = Point(open: map<nat, Bucket>, closed: seq<Bucket>, fed: seq<Reading>, floor: nat)

  datatype Event = FeedEvent(r: Reading) | RollUpEvent(now: nat, order: seq<nat>)

  const NEW_POINT := Point(map[], [], [], 0)

  /** `order`: the hash map's order of the windows before the current one. */
  ghost predicate Closable(open: map<nat, Bucket>, nowWin: nat, order: seq<nat>) {
    && (forall k :: k in order <==> k in open && k < nowWin)
    && (forall i, j :: 0 <= i < j < |order| ==> order[i] != order[j])
  }

  function Buckets(open: map<nat, Bucket>, order: seq<nat>): seq<Bucket>
    requires forall k :: k in order ==> k in open
  {
    seq(|order|, i requires 0 <= i < |order| => open[order[i]])
  }

  function Without(open: map<nat, Bucket>, order: seq<nat>): map<nat, Bucket> {
    open - set k | k in order
  }

  ghost predicate Allowed(p: Point, e: Event, g: Granularity) {
    e.RollUpEvent? ==> Closable(p.open, AlignToWindow(e.now, g), e.order)
  }

  ghost function Step(p: Point, e: Event, g: Granularity): Point
    requires Allowed(p, e, g)
  {
    match e
    case FeedEvent(r) => p.(open := Feed(p.open, r, g), fed := if r.ts == 0 then p.fed else p.fed + [r])
    case RollUpEvent(now, order) =>
      var nowWin := AlignToWindow(now, g);
      p.(open := Without(p.open, order), closed := p.closed + Buckets(p.open, order),
         floor := if p.floor < nowWin then nowWin else p.floor)
  }

  /** A reading is late when its window may have been rolled up already. */
  predicate Late(p: Point, e: Event, g: Granularity) {
    e.FeedEvent? && e.r.ts != 0 && AlignToWindow(e.r.ts, g) < p.floor
  }

  ghost predicate Behaviour(ps: seq<Point>, events: seq<Event>, g: Granularity) {
    && |ps| == |events| + 1 && ps[0] == NEW_POINT
    && forall k :: 0 <= k < |events| ==> Follows(ps[k], events[k], ps[k + 1], g)
  }

  ghost predicate Follows(p: Point, e: Event, p': Point, g: Granularity) {
    Allowed(p, e, g) && p' == Step(p, e, g)
  }

  /** No reading comes late, as with a clock that never goes back. */
  ghost predicate Punctual(ps: seq<Point>, events: seq<Event>, g: Granularity)
    requires |ps| == |events| + 1
  {
    forall k :: 0 <= k < |events| ==> !Late(ps[k], events[k], g)
  }

  ghost predicate OpenIs(p: Point, g: Granularity, k: nat) {
    && (k in p.open ==> p.open[k] == Summary(p.fed, k, g) && p.open[k].count > 0)
    && (k !in p.open && k >= p.floor ==> Summary(p.fed, k, g) == EMPTY)
    && (k in p.open ==> k >= p.floor)
  }

  ghost predicate ClosedIs(p: Point, g: Granularity, i: nat)
    requires i < |p.closed|
  {
    p.closed[i].windowStart < p.floor && p.closed[i].count > 0
      && p.closed[i] == Summary(p.fed, p.closed[i].windowStart, g)
  }

  ghost predicate Once(p: Point) {
    forall i, j :: 0 <= i < j < |p.closed| ==> p.closed[i].windowStart != p.closed[j].windowStart
  }

  /** Every window that holds a reading is open or closed. */
  ghost predicate NothingMissing(p: Point, g: Granularity) {
    forall r :: r in p.fed ==> AlignToWindow(r.ts, g) in p.open || IsClosed(p, AlignToWindow(r.ts, g))
  }

  ghost predicate IsClosed(p: Point, win: nat) {
    exists i :: 0 <= i < |p.closed| && p.closed[i].windowStart == win
  }

  ghost predicate Inv(p: Point, g: Granularity) {
    && (forall k :: OpenIs(p, g, k))
    && (forall i :: 0 <= i < |p.closed| ==> ClosedIs(p, g, i))
    && Once(p) && NothingMissing(p, g)
  }

  lemma SummaryNext(fed: seq<Reading>, r: Reading, win: nat, g: Granularity)
    ensures Summary(fed + [r], win, g)
         == if AlignToWindow(r.ts, g) == win then Add(Summary(fed, win, g), win, r.value) else Summary(fed, win, g)
  {
    assert (fed + [r])[..|fed|] == fed;
  }

  lemma {:induction false} FeedKeeps(p: Point, r: Reading, g: Granularity)
    requires Inv(p, g) && !Late(p, FeedEvent(r), g)
    ensures Inv(Step(p, FeedEvent(r), g), g)
  {
    if r.ts != 0 {
      var p' := Step(p, FeedEvent(r), g);
      var win := AlignToWindow(r.ts, g);
      hide AlignToWindow;
      hide Summary;
      forall k ensures OpenIs(p', g, k) {
        assert OpenIs(p, g, k);
        SummaryNext(p.fed, r, k, g);
      }
      forall i | 0 <= i < |p'.closed| ensures ClosedIs(p', g, i) {
        assert ClosedIs(p, g, i);
        SummaryNext(p.fed, r, p.closed[i].windowStart, g);
      }
      forall s | s in p'.fed ensures AlignToWindow(s.ts, g) in p'.open || IsClosed(p', AlignToWindow(s.ts, g)) {
        if s in p.fed && AlignToWindow(s.ts, g) !in p.open {
          assert IsClosed(p, AlignToWindow(s.ts, g));
        }
      }
    }
  }

  lemma {:induction false} RollUpKeeps(p: Point, now: nat, order: seq<nat>, g: Granularity)
    requires Inv(p, g) && Allowed(p, RollUpEvent(now, order), g)
    ensures Inv(Step(p, RollUpEvent(now, order), g), g)
  {
    var p' := Step(p, RollUpEvent(now, order), g);
    var n := |p.closed|;
    hide AlignToWindow;
    forall k | k in p.open ensures p.open[k].windowStart == k {
      assert OpenIs(p, g, k);
      SummaryDescribes(p.fed, k, g);
    }
    hide Summary;
    forall k ensures OpenIs(p', g, k) {
      assert OpenIs(p, g, k);
    }
    forall i | 0 <= i < |p'.closed| ensures ClosedIs(p', g, i) {
      if i < n {
        assert ClosedIs(p, g, i);
      } else {
        assert order[i - n] in order;
        assert OpenIs(p, g, order[i - n]);
      }
    }
    forall i, j | 0 <= i < j < |p'.closed| ensures p'.closed[i].windowStart != p'.closed[j].windowStart {
      if i < n {
        assert ClosedIs(p, g, i);
      } else {
        assert order[i - n] in order;
      }
      if j >= n {
        assert order[j - n] in order;
        assert OpenIs(p, g, order[j - n]);
      }
    }
    forall s | s in p'.fed ensures AlignToWindow(s.ts, g) in p'.open || IsClosed(p', AlignToWindow(s.ts, g)) {
      var win := AlignToWindow(s.ts, g);
      if IsClosed(p, win) {
        var i :| 0 <= i < n && p.closed[i].windowStart == win;
        assert p'.closed[i].windowStart == win;
      } else if win in order {
        var i :| 0 <= i < |order| && order[i] == win;
        assert p'.closed[n + i].windowStart == win;
      }
    }
  }

  /** With no late reading, at every moment: each window rolled up so far was rolled up once, with
      exactly the readings of that window; each open window holds exactly its readings; and every
      reading is in one of them. */
  lemma {:induction false} RunInv(ps: seq<Point>, events: seq<Event>, g: Granularity, k: nat)
    requires Behaviour(ps, events, g) && Punctual(ps, events, g) && k < |ps|
    ensures Inv(ps[k], g)
  {
    if k > 0 {
      RunInv(ps, events, g, k - 1);
      assert Follows(ps[k - 1], events[k - 1], ps[k], g);
      assert !Late(ps[k - 1], events[k - 1], g);
      hide Inv;
      match events[k - 1]
      case FeedEvent(r) => FeedKeeps(ps[k - 1], r, g);
      case RollUpEvent(now, order) => RollUpKeeps(ps[k - 1], now, order, g);
    }
  }

  function TimeOf(e: Event): nat { match e case FeedEvent(r) => r.ts case RollUpEvent(now, _) => now }

  /** A clock that never goes back, shared by readings and roll-ups. */
  ghost predicate ClockRises(events: seq<Event>) {
    forall i, j :: 0 <= i < j < |events| ==> TimeOf(events[i]) <= TimeOf(events[j])
  }

  lemma {:induction false} FloorBehindClock(ps: seq<Point>, events: seq<Event>, g: Granularity, k: nat, t: nat)
    requires Behaviour(ps, events, g) && k < |ps|
    requires forall i :: 0 <= i < k ==> TimeOf(events[i]) <= t
    ensures ps[k].floor <= AlignToWindow(t, g)
  {
    if k > 0 {
      FloorBehindClock(ps, events, g, k - 1, t);
      assert Follows(ps[k - 1], events[k - 1], ps[k], g);
      AlignOrder(TimeOf(events[k - 1]), t, g);
    }
  }

  lemma AlignOrder(a: nat, b: nat, g: Granularity)
    requires a <= b
    ensures AlignToWindow(a, g) <= AlignToWindow(b, g)
  {
    var w := WindowMs(g);
    hide WindowMs;
    TimesMonotone(a / w, b / w, w);
    TimesMonotone(b / w + 1, a / w, w);
  }

  lemma TimesMonotone(x: nat, y: nat, w: nat)
    ensures x <= y ==> x * w <= y * w
  {
  }

  /** Under a clock that never goes back no reading is late. */
  lemma ClockedIsPunctual(ps: seq<Point>, events: seq<Event>, g: Granularity)
    requires Behaviour(ps, events, g) && ClockRises(events)
    ensures Punctual(ps, events, g)
  {
    forall k | 0 <= k < |events| ensures !Late(ps[k], events[k], g) {
      FloorBehindClock(ps, events, g, k, TimeOf(events[k]));
    }
  }

  // ---- the records that leave ----

  /** The values fed for the window that starts at `win`, in order; readings without a time stamp are
      ignored. */
  function ValuesIn(events: seq<Event>, win: nat, g: Granularity): seq<real> {
    if events == [] then []
    else
      var last := events[|events| - 1];
      ValuesIn(events[..|events| - 1], win, g) +
      if last.FeedEvent? && last.r.ts != 0 && win <= last.r.ts < win + WindowMs(g) then [last.r.value] else []
  }

  /** A record of these values. */
  ghost predicate TrueRecord(r: Rolled, pointId: nat, values: seq<real>) {
    && values != [] && r.pointId == pointId
    && r.avgValue * |values| as real == Sum(values)
    && r.minValue in values && r.maxValue in values
    && (forall v :: v in values ==> r.minValue <= v <= r.maxValue)
    && r.sampleCount == |values| % 0x1_0000
  }

  lemma OneWindow(ts: nat, win: nat, g: Granularity, k: nat)
    requires win == k * WindowMs(g)
    ensures AlignToWindow(ts, g) == win <==> win <= ts < win + WindowMs(g)
  {
    var start := AlignToWindow(ts, g);
    var j: nat :| start == j * WindowMs(g);
    hide AlignToWindow;
    hide WindowMs;
    Multiples(j, k, WindowMs(g));
    Multiples(k, j, WindowMs(g));
  }

  lemma Multiples(j: nat, k: nat, w: nat)
    ensures j < k ==> j * w + w <= k * w
  {
    if j < k {
      var d: nat := k - j - 1;
      assert (j + 1) * w == j * w + w;
      assert (j + 1 + d) * w == (j + 1) * w + d * w;
    }
  }

  lemma {:induction false} FedValues(ps: seq<Point>, events: seq<Event>, g: Granularity, k: nat, win: nat, m: nat)
    requires Behaviour(ps, events, g) && k < |ps| && win == m * WindowMs(g)
    ensures InWindow(ps[k].fed, win, g) == ValuesIn(events[..k], win, g)
  {
    if k > 0 {
      FedValues(ps, events, g, k - 1, win, m);
      assert Follows(ps[k - 1], events[k - 1], ps[k], g);
      assert events[..k][..k - 1] == events[..k - 1];
      hide Behaviour;
      hide ValuesIn;
      hide InWindow;
      MoreValues(ps[k - 1], events[..k], ps[k], g, win, m);
      hide *;
    }
  }

  lemma {:induction false} MoreValues(p: Point, events: seq<Event>, p': Point, g: Granularity, win: nat, m: nat)
    requires events != [] && Follows(p, events[|events| - 1], p', g) && win == m * WindowMs(g)
    requires InWindow(p.fed, win, g) == ValuesIn(events[..|events| - 1], win, g)
    ensures InWindow(p'.fed, win, g) == ValuesIn(events, win, g)
  {
    var last := events[|events| - 1];
    if last.FeedEvent? && last.r.ts != 0 {
      OneWindow(last.r.ts, win, g, m);
      assert p'.fed == p.fed + [last.r] && p'.fed[..|p.fed|] == p.fed;
    }
    hide AlignToWindow;
    hide WindowMs;
  }

  lemma {:induction false} SomeReading(fed: seq<Reading>, win: nat, g: Granularity) returns (m: nat)
    requires InWindow(fed, win, g) != []
    ensures win == m * WindowMs(g)
  {
    var last := fed[|fed| - 1];
    if AlignToWindow(last.ts, g) == win {
      m :| win == m * WindowMs(g);
    } else {
      m := SomeReading(fed[..|fed| - 1], win, g);
    }
  }

  lemma Quotient(sum: real, n: nat)
    requires n > 0
    ensures sum / n as real * n as real == sum
  {
  }

  lemma DescribedRecord(b: Bucket, values: seq<real>, pointId: nat)
    requires Describes(b, b.windowStart, values) && values != []
    ensures HasReadings(b) && TrueRecord(Export(pointId, b), pointId, values)
  {
    Quotient(Sum(values), |values|);
    hide Sum;
  }

  /** Each record rolled up in a run without late readings, field by field: its time stamp is the window's
      start, average and count are those of the values fed for that window, and minimum and maximum are
      among these values and bound them. */
  lemma {:induction false} RecordsAreTrue(ps: seq<Point>, events: seq<Event>, g: Granularity, k: nat, i: nat,
                                          pointId: nat)
    requires Behaviour(ps, events, g) && Punctual(ps, events, g) && k < |ps| && i < |ps[k].closed|
    ensures HasReadings(ps[k].closed[i])
    ensures var r := Export(pointId, ps[k].closed[i]);
      var values := ValuesIn(events[..k], r.timestamp, g);
      && TrueRecord(r, pointId, values) && r.minValue <= r.avgValue <= r.maxValue
      && (exists m: nat :: r.timestamp == m * WindowMs(g))
      && (r.sampleCount == |values| <==> |values| <= 65535)
  {
    RunInv(ps, events, g, k);
    var b := ps[k].closed[i];
    assert ClosedIs(ps[k], g, i);
    hide Inv;
    var fed, win := ps[k].fed, b.windowStart;
    var values := InWindow(fed, win, g);
    SummaryDescribes(fed, win, g);
    assert b == Summary(fed, win, g) && values != [];
    hide Summary;
    AverageBetween(b, win, values, pointId);
    DescribedRecord(b, values, pointId);
    hide Describes;
    var m := SomeReading(fed, win, g);
    FedValues(ps, events, g, k, win, m);
    hide *;
    RecordStart(pointId, b);
  }

  lemma RecordStart(pointId: nat, b: Bucket)
    requires HasReadings(b)
    ensures Export(pointId, b).timestamp == b.windowStart
  {
  }

  /** The records that a roll-up hands out in such a run. */
  lemma {:induction false} RolledUpTruly(ps: seq<Point>, events: seq<Event>, g: Granularity, k: nat, pointId: nat)
    requires Behaviour(ps, events, g) && Punctual(ps, events, g) && k < |events| && events[k].RollUpEvent?
    ensures Filled(ps[k].open) && forall win :: win in events[k].order ==> win in ps[k].open
    ensures var out := Exports(pointId, ps[k].open, events[k].order);
      && |out| == |events[k].order|
      && forall i :: 0 <= i < |out| ==>
           out[i].timestamp == events[k].order[i]
           && TrueRecord(out[i], pointId, ValuesIn(events[..k], out[i].timestamp, g))
  {
    assert Follows(ps[k], events[k], ps[k + 1], g);
    RunInv(ps, events, g, k);
    var order := events[k].order;
    forall win | win in ps[k].open ensures HasReadings(ps[k].open[win]) && ps[k].open[win].windowStart == win {
      assert OpenIs(ps[k], g, win);
      SummaryDescribes(ps[k].fed, win, g);
    }
    var out := Exports(pointId, ps[k].open, order);
    forall i | 0 <= i < |out|
      ensures out[i].timestamp == order[i]
      ensures TrueRecord(out[i], pointId, ValuesIn(events[..k], out[i].timestamp, g))
    {
      var n := |ps[k].closed| + i;
      assert order[i] in order;
      assert ps[k + 1].closed[n] == ps[k].open[order[i]];
      RecordsAreTrue(ps, events, g, k + 1, n, pointId);
      NothingFed(events, k, order[i], g);
      hide TrueRecord;
    }
  }

  lemma NothingFed(events: seq<Event>, k: nat, win: nat, g: Granularity)
    requires k < |events| && events[k].RollUpEvent?
    ensures ValuesIn(events[..k + 1], win, g) == ValuesIn(events[..k], win, g)
  {
    assert events[..k + 1][..k] == events[..k];
  }

  // ---- windows rolled up twice ----

  ghost predicate AllFilled(p: Point) { Filled(p.open) && forall b :: b in p.closed ==> HasReadings(b) }

  /** In every run no open and no rolled-up window is without a reading. */
  lemma {:induction false} AlwaysFilled(ps: seq<Point>, events: seq<Event>, g: Granularity, k: nat)
    requires Behaviour(ps, events, g) && k < |ps|
    ensures AllFilled(ps[k])
  {
    if k > 0 {
      AlwaysFilled(ps, events, g, k - 1);
      assert Follows(ps[k - 1], events[k - 1], ps[k], g);
      hide AlignToWindow;
    }
  }

  /** A reading for a window that has been rolled up and is not open. */
  ghost predicate Again(p: Point, e: Event, g: Granularity) {
    e.FeedEvent? && e.r.ts != 0 && AlignToWindow(e.r.ts, g) !in p.open && IsClosed(p, AlignToWindow(e.r.ts, g))
  }

  /** A window was rolled up twice, or will be when it is rolled up next. */
  ghost predicate Repeated(p: Point) { !Once(p) || exists k :: Reopened(p, k) }

  ghost predicate Reopened(p: Point, k: nat) { k in p.open && IsClosed(p, k) }

  ghost predicate Keyed(p: Point) {
    forall k :: k in p.open ==> p.open[k].windowStart == k
  }

  lemma {:induction false} FeedRepeats(p: Point, r: Reading, g: Granularity)
    requires Keyed(p)
    ensures var p' := Step(p, FeedEvent(r), g);
      Keyed(p') && (Repeated(p') <==> Repeated(p) || Again(p, FeedEvent(r), g))
  {
    var p' := Step(p, FeedEvent(r), g);
    var win := AlignToWindow(r.ts, g);
    hide AlignToWindow;
    assert forall k :: IsClosed(p', k) <==> IsClosed(p, k);
    hide IsClosed;
    if r.ts != 0 {
      assert forall k :: Reopened(p', k) <==> Reopened(p, k) || (k == win && IsClosed(p, win));
      assert win in p.open && IsClosed(p, win) ==> Reopened(p, win);
    }
  }

  /** `p'` is `p` with the windows of `order` moved to the closed ones. */
  ghost predicate Moved(p: Point, p': Point, order: seq<nat>) {
    && |p'.closed| == |p.closed| + |order|
    && (forall i :: 0 <= i < |p.closed| ==> p'.closed[i] == p.closed[i])
    && (forall i :: 0 <= i < |order| ==> p'.closed[|p.closed| + i].windowStart == order[i])
    && (forall k :: k in p'.open <==> k in p.open && k !in order)
    && (forall i :: 0 <= i < |order| ==> order[i] in p.open)
    && (forall i, j :: 0 <= i < j < |order| ==> order[i] != order[j])
  }

  lemma {:induction false} StaysRepeated(p: Point, p': Point, order: seq<nat>)
    requires Moved(p, p', order) && Repeated(p)
    ensures Repeated(p')
  {
    var n := |p.closed|;
    if !Once(p) {
      var i, j :| 0 <= i < j < n && p.closed[i].windowStart == p.closed[j].windowStart;
      assert p'.closed[i].windowStart == p'.closed[j].windowStart;
    } else {
      var k :| Reopened(p, k);
      var i :| 0 <= i < n && p.closed[i].windowStart == k;
      assert p'.closed[i].windowStart == k;
      if k in order {
        var j :| 0 <= j < |order| && order[j] == k;
        assert p'.closed[n + j].windowStart == k;
      } else {
        assert Reopened(p', k);
      }
    }
  }

  lemma {:induction false} NotRepeated(p: Point, p': Point, order: seq<nat>)
    requires Moved(p, p', order) && !Repeated(p)
    ensures !Repeated(p')
  {
    var n := |p.closed|;
    forall i, j | 0 <= i < j < |p'.closed| ensures p'.closed[i].windowStart != p'.closed[j].windowStart {
      if j < n {
        assert p'.closed[i] == p.closed[i] && p'.closed[j] == p.closed[j];
      } else {
        assert p'.closed[n + (j - n)].windowStart == order[j - n];
        if i < n {
          assert !Reopened(p, order[j - n]);
          assert p'.closed[i] == p.closed[i];
        } else {
          assert p'.closed[n + (i - n)].windowStart == order[i - n];
        }
      }
    }
    forall k | k in p'.open ensures !IsClosed(p', k) {
      assert !Reopened(p, k);
      forall i | 0 <= i < |p'.closed| ensures p'.closed[i].windowStart != k {
        if i < n {
          assert p'.closed[i] == p.closed[i];
        } else {
          assert p'.closed[n + (i - n)].windowStart == order[i - n];
          assert order[i - n] in order;
        }
      }
    }
  }

  lemma {:induction false} RollUpMoves(p: Point, now: nat, order: seq<nat>, g: Granularity)
    requires Keyed(p) && Allowed(p, RollUpEvent(now, order), g)
    ensures var p' := Step(p, RollUpEvent(now, order), g);
      Keyed(p') && Moved(p, p', order)
  {
    hide AlignToWindow;
    assert forall i :: 0 <= i < |order| ==> order[i] in order;
  }

  lemma {:induction false} RollUpRepeats(p: Point, now: nat, order: seq<nat>, g: Granularity)
    requires Keyed(p) && Allowed(p, RollUpEvent(now, order), g)
    ensures var p' := Step(p, RollUpEvent(now, order), g);
      Keyed(p') && (Repeated(p') <==> Repeated(p))
  {
    RollUpMoves(p, now, order, g);
    hide *;
    var p' := Step(p, RollUpEvent(now, order), g);
    if Repeated(p) {
      StaysRepeated(p, p', order);
    } else {
      NotRepeated(p, p', order);
    }
  }

  /** In every run: some window was rolled up twice, or is open again after being rolled up, if and
      only if some reading came for a window that had been rolled up and was not open. */
  lemma {:induction false} RepeatsExactly(ps: seq<Point>, events: seq<Event>, g: Granularity, k: nat)
    requires Behaviour(ps, events, g) && k < |ps|
    ensures Keyed(ps[k])
    ensures Repeated(ps[k]) <==> exists j :: 0 <= j < k && Again(ps[j], events[j], g)
  {
    if k > 0 {
      RepeatsExactly(ps, events, g, k - 1);
      assert Follows(ps[k - 1], events[k - 1], ps[k], g);
      hide Step;
      hide Repeated;
      hide Keyed;
      match events[k - 1]
      case FeedEvent(r) =>
        FeedRepeats(ps[k - 1], r, g);
        hide Again;
      case RollUpEvent(now, order) =>
        RollUpRepeats(ps[k - 1], now, order, g);
        assert !Again(ps[k - 1], events[k - 1], g);
        hide Again;
    }
  }

  /** When everything has been rolled up, a window was rolled up twice exactly in those runs. */
  lemma TwiceExactly(ps: seq<Point>, events: seq<Event>, g: Granularity, k: nat)
    requires Behaviour(ps, events, g) && k < |ps| && ps[k].open == map[]
    ensures !Once(ps[k]) <==> exists j :: 0 <= j < k && Again(ps[j], events[j], g)
  {
    RepeatsExactly(ps, events, g, k);
    assert forall w :: !Reopened(ps[k], w);
  }

  /** The shortest such run: the window is rolled up a second time, with only the late part. */
  lemma LateRepeats(v: real)
    ensures var r := Reading(150, v);
      var events := [FeedEvent(r), RollUpEvent(200, [100]), FeedEvent(r), RollUpEvent(200, [100])];
      var b := Bucket(100, Some(v), Some(v), v, 1);
      var ps := [NEW_POINT, Point(map[100 := b], [], [r], 0), Point(map[], [b], [r], 200),
                 Point(map[100 := b], [b], [r, r], 200), Point(map[], [b, b], [r, r], 200)];
      Behaviour(ps, events, Gran100ms) && !Once(ps[4])
  {
    var g := Gran100ms;
    var r := Reading(150, v);
    var b := Bucket(100, Some(v), Some(v), v, 1);
    assert AlignToWindow(150, g) == 100 && AlignToWindow(200, g) == 200;
    assert Add(EMPTY, 100, v) == b;
    var fed1, roll1 := Point(map[100 := b], [], [r], 0), Point(map[], [b], [r], 200);
    var fed2, roll2 := Point(map[100 := b], [b], [r, r], 200), Point(map[], [b, b], [r, r], 200);
    var roll := RollUpEvent(200, [100]);
    assert Without(map[100 := b], [100]) == map[];
    assert Buckets(map[100 := b], [100]) == [b];
    assert Follows(NEW_POINT, FeedEvent(r), fed1, g);
    assert Follows(fed1, roll, roll1, g);
    assert Follows(roll1, FeedEvent(r), fed2, g);
    assert Follows(fed2, roll, roll2, g);
    assert roll2.closed[0].windowStart == roll2.closed[1].windowStart;
  }

  // ---- counts, late readings or not ----

  function OpenTotal(open: map<nat, Bucket>, n: nat): nat {
    if n == 0 then 0 else OpenTotal(open, n - 1) + if n - 1 in open then open[n - 1].count else 0
  }

  function ClosedTotal(closed: seq<Bucket>): nat {
    if closed == [] then 0 else ClosedTotal(closed[..|closed| - 1]) + closed[|closed| - 1].count
  }

  /** Sum of the counts as they are reported. */
  function ReportedTotal(closed: seq<Bucket>): nat {
    if closed == [] then 0 else ReportedTotal(closed[..|closed| - 1]) + closed[|closed| - 1].count % 0x1_0000
  }

  lemma {:induction false} TotalUpdate(open: map<nat, Bucket>, k: nat, b: Bucket, n: nat)
    ensures OpenTotal(open[k := b], n) - OpenTotal(open, n)
         == if k < n then b.count - (if k in open then open[k].count else 0) else 0
  {
    if n > 0 {
      TotalUpdate(open, k, b, n - 1);
    }
  }

  lemma {:induction false} TotalRemove(open: map<nat, Bucket>, k: nat, n: nat)
    requires k in open
    ensures OpenTotal(open - {k}, n) == OpenTotal(open, n) - if k < n then open[k].count else 0
  {
    if n > 0 {
      TotalRemove(open, k, n - 1);
    }
  }

  lemma {:induction false} TotalClose(open: map<nat, Bucket>, closed: seq<Bucket>, order: seq<nat>, n: nat)
    requires forall k :: k in order ==> k in open && k < n
    requires forall i, j :: 0 <= i < j < |order| ==> order[i] != order[j]
    ensures ClosedTotal(closed + Buckets(open, order)) + OpenTotal(Without(open, order), n)
      == ClosedTotal(closed) + OpenTotal(open, n)
  {
    if order == [] {
      assert Buckets(open, order) == [] && closed + [] == closed;
      assert Without(open, order) == open;
    } else {
      var front, k := order[..|order| - 1], order[|order| - 1];
      assert order == front + [k];
      assert forall w :: w in front ==> w in order;
      TotalClose(open, closed, front, n);
      assert k in order && k !in front;
      OneMoreClosed(open, closed, front, k);
      TotalRemove(Without(open, front), k, n);
      hide *;
    }
  }

  lemma {:induction false} OneMoreClosed(open: map<nat, Bucket>, closed: seq<Bucket>, front: seq<nat>, k: nat)
    requires k in open && k !in front && forall w :: w in front ==> w in open
    ensures k in Without(open, front) && Without(open, front)[k] == open[k]
    ensures Without(open, front + [k]) == Without(open, front) - {k}
    ensures ClosedTotal(closed + Buckets(open, front + [k]))
         == ClosedTotal(closed + Buckets(open, front)) + open[k].count
  {
    var more := closed + Buckets(open, front);
    assert closed + Buckets(open, front + [k]) == more + [open[k]];
    assert (more + [open[k]])[..|more|] == more;
  }

  /** Counts rolled up plus counts in open windows are the valid readings fed, in every run. */
  lemma {:induction false} CountsConserved(ps: seq<Point>, events: seq<Event>, g: Granularity, k: nat, n: nat)
    requires Behaviour(ps, events, g) && k < |ps| && WindowsBelow(events, g, n)
    ensures (forall w :: w in ps[k].open ==> w < n)
    ensures ClosedTotal(ps[k].closed) + OpenTotal(ps[k].open, n) == |ps[k].fed|
  {
    if k == 0 {
      NothingOpen(n);
    } else {
      CountsConserved(ps, events, g, k - 1, n);
      var p, e := ps[k - 1], events[k - 1];
      assert Follows(p, e, ps[k], g);
      match e
      case FeedEvent(r) =>
        if r.ts != 0 {
          var win := AlignToWindow(r.ts, g);
          hide AlignToWindow;
          assert win < n;
          TotalUpdate(p.open, win, Add(if win in p.open then p.open[win] else EMPTY, win, r.value), n);
        }
      case RollUpEvent(now, order) =>
        hide AlignToWindow;
        TotalClose(p.open, p.closed, order, n);
    }
  }

  lemma {:induction false} NothingOpen(n: nat)
    ensures OpenTotal(map[], n) == 0
  {
    if n > 0 {
      NothingOpen(n - 1);
    }
  }

  ghost predicate WindowsBelow(events: seq<Event>, g: Granularity, n: nat) {
    forall k :: 0 <= k < |events| && events[k].FeedEvent? ==> AlignToWindow(events[k].r.ts, g) < n
  }

  lemma {:induction false} CutOnlyLoses(closed: seq<Bucket>)
    ensures ReportedTotal(closed) <= ClosedTotal(closed)
    ensures ReportedTotal(closed) == ClosedTotal(closed) <==> forall b :: b in closed ==> b.count <= 65535
  {
    if closed != [] {
      var front, last := closed[..|closed| - 1], closed[|closed| - 1];
      CutOnlyLoses(front);
      assert closed == front + [last];
    }
  }

  /** The counts as reported account for every reading if and only if no window held more than 65535. */
  lemma ReportedConserved(ps: seq<Point>, events: seq<Event>, g: Granularity, k: nat, n: nat)
    requires Behaviour(ps, events, g) && k < |ps| && WindowsBelow(events, g, n)
    ensures ReportedTotal(ps[k].closed) + OpenTotal(ps[k].open, n) == |ps[k].fed|
      <==> forall b :: b in ps[k].closed ==> b.count <= 65535
  {
    CountsConserved(ps, events, g, k, n);
    CutOnlyLoses(ps[k].closed);
  }

  // ---- the sampler itself ----

  function OpenOf(buckets: map<nat, map<nat, Bucket>>, pointId: nat): map<nat, Bucket> {
    if pointId in buckets then buckets[pointId] else map[]
  }

  ghost predicate Filled(open: map<nat, Bucket>) {
    forall k :: k in open ==> HasReadings(open[k])
  }

  /** The records of the windows in `order`. */
  function Exports(pointId: nat, open: map<nat, Bucket>, order: seq<nat>): seq<Rolled>
    requires Filled(open) && forall k :: k in order ==> k in open
  {
    seq(|order|, i requires 0 <= i < |order| => Export(pointId, open[order[i]]))
  }

  /** Rolls up the windows before `nowWin`, in the order of the table. */
  method CloseWindows(pointId: nat, open: map<nat, Bucket>, nowWin: nat)
    returns (out: seq<Rolled>, rest: map<nat, Bucket>, ghost order: seq<nat>)
    requires Filled(open)
    ensures Closable(open, nowWin, order)
    ensures out == Exports(pointId, open, order) && rest == Without(open, order)
    ensures forall k :: k in rest <==> k in open && nowWin <= k
  {
    out, order, rest := [], [], open;
    var todo := open.Keys;
    while todo != {}
      invariant todo <= open.Keys
      invariant forall k :: k in order <==> k in open && k < nowWin && k !in todo
      invariant forall i, j :: 0 <= i < j < |order| ==> order[i] != order[j]
      invariant out == Exports(pointId, open, order) && rest == Without(open, order)
      decreases |todo|
    {
      var k :| k in todo;
      todo := todo - {k};
      if k < nowWin {
        WithoutNext(open, order, k);
        out := out + [Export(pointId, open[k])];
        rest := rest - {k};
        order := order + [k];
      }
    }
  }

  lemma WithoutNext(open: map<nat, Bucket>, order: seq<nat>, k: nat)
    ensures Without(open, order + [k]) == Without(open, order) - {k}
  {
    assert forall w :: w in order + [k] <==> w in order || w == k;
  }

  class DownSampler {
    var buckets: map<nat, map<nat, Bucket>>

    ghost predicate Valid()
      reads this
    {
      forall p :: p in buckets ==> Filled(buckets[p])
    }

    constructor ()
      ensures Valid() && buckets == map[]
    {
      buckets := map[];
    }

    method FeedSample(pointId: nat, r: Reading, g: Granularity)
      requires Valid()
      modifies this
      ensures Valid()
      ensures OpenOf(buckets, pointId) == Feed(OpenOf(old(buckets), pointId), r, g)
      ensures forall p :: p != pointId ==> OpenOf(buckets, p) == OpenOf(old(buckets), p)
    {
      if r.ts == 0 {
        return;
      }
      var win := AlignToWindow(r.ts, g);
      hide AlignToWindow;
      hide Max;
      hide Min;
      var perPoint := OpenOf(buckets, pointId);
      var b := if win in perPoint then perPoint[win] else EMPTY;
      if b.windowStart == 0 {
        b := b.(windowStart := win);
      }
      b := b.(maxV := Some(Max(b.maxV, r.value)), minV := Some(Min(b.minV, r.value)), sumV := b.sumV + r.value,
              count := b.count + 1);
      buckets := buckets[pointId := perPoint[win := b]];
    }

    /** Rolls up the windows before the current one; a time of zero means now. */
    method RollUp(pointId: nat, g: Granularity, nowMs: nat, systemMs: nat)
      returns (out: seq<Rolled>, ghost order: seq<nat>)
      requires Valid()
      modifies this
      ensures Valid()
      ensures var open := OpenOf(old(buckets), pointId);
        && Filled(open) && Closable(open, AlignToWindow(if nowMs == 0 then systemMs else nowMs, g), order)
        && out == Exports(pointId, open, order)
        && OpenOf(buckets, pointId) == Without(open, order)
      ensures forall p :: p != pointId ==> OpenOf(buckets, p) == OpenOf(old(buckets), p)
    {
      if pointId !in buckets {
        assert Without(map[], []) == map[];
        return [], [];
      }
      var nowWin := AlignToWindow(if nowMs == 0 then systemMs else nowMs, g);
      hide AlignToWindow;
      hide Exports;
      var rest;
      out, rest, order := CloseWindows(pointId, buckets[pointId], nowWin);
      buckets := buckets[pointId := rest];
    }
  }
}
