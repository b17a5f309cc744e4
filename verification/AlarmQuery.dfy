/** The month-partitioned alarm history: insertion into the month of a batch's first record, and the
    query that walks months with a clipped range and a pushed-down limit. SQL is filter, sort and take. */
module AlarmQuery {

  datatype AlarmRecord = AlarmRecord(id: nat, pointId: nat, level: int, status: int, triggerTime: nat, details: string)

  /** Zero or negative fields do not restrict; an `endMs` of zero means now. */
  datatype Filter = Filter(beginMs: nat, endMs: nat, pointId: nat, level: int, status: int, limit: int)

  /** 2100-01-01, the last accepted time stamp. */
  const MAX_SANE: nat := 4102444800000

  // ---- months ----

  /** First millisecond of each month in local time; month 0 is the one that holds the epoch. */
  type Calendar = nat -> int

  ghost predicate Rises(starts: Calendar, i: nat) { starts(i) < starts(i + 1) }

  const LONGEST_MONTH: int := 32 * 86400000

  ghost predicate IsCalendar(starts: Calendar) {
    -LONGEST_MONTH < starts(0) <= 0 < starts(1) < LONGEST_MONTH && forall i :: Rises(starts, i)
  }

  lemma {:induction false} MonthsRise(starts: Calendar, i: nat, j: nat)
    requires IsCalendar(starts) && i < j
    ensures starts(i) < starts(j)
  {
    assert Rises(starts, j - 1);
    if i < j - 1 {
      MonthsRise(starts, i, j - 1);
    }
  }

  function MonthFrom(starts: Calendar, i: nat, t: int): (m: nat)
    requires IsCalendar(starts) && starts(i) <= t
    ensures i <= m && starts(m) <= t < starts(m + 1)
    decreases t - starts(i)
  {
    assert Rises(starts, i);
    if t < starts(i + 1) then i else MonthFrom(starts, i + 1, t)
  }

  /** The month whose file holds time `t`. */
  function MonthOf(starts: Calendar, t: nat): nat
    requires IsCalendar(starts)
  {
    MonthFrom(starts, 0, t)
  }

  lemma {:induction false} MonthUnique(starts: Calendar, t: nat, m: nat)
    requires IsCalendar(starts) && starts(m) <= t < starts(m + 1)
    ensures MonthOf(starts, t) == m
  {
    var k := MonthOf(starts, t);
    if k < m {
      if k + 1 < m { MonthsRise(starts, k + 1, m); }
    } else if m < k {
      if m + 1 < k { MonthsRise(starts, m + 1, k); }
    }
  }

  // ---- what a query asks for ----

  predicate Wanted(r: AlarmRecord, f: Filter, lo: int, hi: int) {
    && lo <= r.triggerTime < hi
    && (f.pointId != 0 ==> r.pointId == f.pointId)
    && (f.level >= 0 ==> r.level == f.level)
    && (f.status >= 0 ==> r.status == f.status)
  }

  function Select(rows: seq<AlarmRecord>, f: Filter, lo: int, hi: int): seq<AlarmRecord> {
    if rows == [] then []
    else
      var last := rows[|rows| - 1];
      Select(rows[..|rows| - 1], f, lo, hi) + if Wanted(last, f, lo, hi) then [last] else []
  }

  lemma {:induction false} SelectJoin(a: seq<AlarmRecord>, b: seq<AlarmRecord>, f: Filter, lo: int, hi: int)
    ensures Select(a + b, f, lo, hi) == Select(a, f, lo, hi) + Select(b, f, lo, hi)
  {
    if b == [] {
      assert a + b == a;
    } else {
      assert (a + b)[..|a + b| - 1] == a + b[..|b| - 1];
      SelectJoin(a, b[..|b| - 1], f, lo, hi);
    }
  }

  /** Ranges that agree on every record select the same. */
  lemma {:induction false} SelectSame(rows: seq<AlarmRecord>, f: Filter, lo: int, hi: int, lo': int, hi': int)
    requires forall r :: r in rows ==> (lo <= r.triggerTime < hi <==> lo' <= r.triggerTime < hi')
    ensures Select(rows, f, lo, hi) == Select(rows, f, lo', hi')
  {
    if rows != [] {
      SelectSame(rows[..|rows| - 1], f, lo, hi, lo', hi');
      assert rows[|rows| - 1] in rows;
    }
  }

  lemma {:induction false} SelectNone(rows: seq<AlarmRecord>, f: Filter, lo: int, hi: int)
    requires forall r :: r in rows ==> !(lo <= r.triggerTime < hi)
    ensures Select(rows, f, lo, hi) == []
  {
    if rows != [] {
      SelectNone(rows[..|rows| - 1], f, lo, hi);
      assert rows[|rows| - 1] in rows;
    }
  }

  ghost predicate NewestFirst(rows: seq<AlarmRecord>) {
    forall i, j :: 0 <= i < j < |rows| ==> rows[i].triggerTime >= rows[j].triggerTime
  }

  /** Newest first, only matching records, as many as the limit allows, and none left out that is
      newer than a reported one. Ties may be resolved either way. */
  ghost predicate IsAnswer(rows: seq<AlarmRecord>, all: multiset<AlarmRecord>, limit: int) {
    && NewestFirst(rows)
    && multiset(rows) <= all
    && |rows| == (if 0 < limit < |all| then limit else |all|)
    && forall r, x :: r in rows && x in all - multiset(rows) ==> x.triggerTime <= r.triggerTime
  }

  lemma FewerIn<T>(a: multiset<T>, b: multiset<T>)
    requires a <= b
    ensures |a| <= |b| && (|a| == |b| ==> a == b)
  {
    assert b == a + (b - a);
  }

  lemma Prefix(rows: seq<AlarmRecord>, k: nat)
    requires NewestFirst(rows) && 0 < k <= |rows|
    ensures multiset(rows[..k]) <= multiset(rows) && |multiset(rows[..k])| == k
    ensures forall x :: x in multiset(rows[..k]) ==> x.triggerTime >= rows[k - 1].triggerTime
  {
    var front := rows[..k];
    assert rows == front + rows[k..];
    forall x | x in front ensures x.triggerTime >= rows[k - 1].triggerTime {
      var i :| 0 <= i < |front| && front[i] == x;
      assert rows[i] == x;
    }
    hide NewestFirst;
  }

  /** In a sorted list, records at least as new as `t` all come before the first older one. */
  lemma Crowded(rows: seq<AlarmRecord>, w: multiset<AlarmRecord>, k: nat, t: int)
    requires NewestFirst(rows) && k < |rows| && rows[k].triggerTime < t
    requires w <= multiset(rows) && forall x :: x in w ==> x.triggerTime >= t
    ensures |w| <= k
  {
    var front, back := rows[..k], rows[k..];
    assert rows == front + back;
    forall x | x in back ensures x.triggerTime < t {
      var i :| 0 <= i < |back| && back[i] == x;
      assert rows[k + i] == x;
    }
    assert w <= multiset(front);
    FewerIn(w, multiset(front));
  }

  /** The answer is unique up to ties: same length, same times, and the same records above the cut. */
  lemma AnswersAgree(a: seq<AlarmRecord>, b: seq<AlarmRecord>, all: multiset<AlarmRecord>, limit: int)
    requires IsAnswer(a, all, limit) && IsAnswer(b, all, limit)
    ensures |a| == |b| && forall i :: 0 <= i < |a| ==> a[i].triggerTime == b[i].triggerTime
    ensures forall x: AlarmRecord :: a != [] && x.triggerTime > a[|a| - 1].triggerTime ==>
              multiset(a)[x] == multiset(b)[x]
    ensures limit <= 0 ==> multiset(a) == multiset(b)
  {
    forall i | 0 <= i < |a| ensures a[i].triggerTime == b[i].triggerTime {
      AnswerTimes(a, b, all, limit, i);
      AnswerTimes(b, a, all, limit, i);
    }
    forall x: AlarmRecord | a != [] && x.triggerTime > a[|a| - 1].triggerTime
      ensures multiset(a)[x] == multiset(b)[x]
    {
      var oldest := |a| - 1;
      assert a[oldest] in a && b[oldest] in b;
      assert x !in all - multiset(a) && x !in all - multiset(b);
    }
    if limit <= 0 {
      FewerIn(multiset(a), all);
      FewerIn(multiset(b), all);
    }
  }

  lemma AnswerTimes(a: seq<AlarmRecord>, b: seq<AlarmRecord>, all: multiset<AlarmRecord>, limit: int, i: nat)
    requires IsAnswer(a, all, limit) && IsAnswer(b, all, limit) && i < |a|
    ensures i < |b| && a[i].triggerTime >= b[i].triggerTime
  {
    if a[i].triggerTime < b[i].triggerTime {
      Prefix(b, i + 1);
      var w := multiset(b[..i + 1]);
      NewerReported(a, all, limit, i, w);
      Crowded(a, w, i, b[i].triggerTime);
    }
  }

  /** Records newer than a reported one are reported as often as they occur. */
  lemma NewerReported(a: seq<AlarmRecord>, all: multiset<AlarmRecord>, limit: int, i: nat, w: multiset<AlarmRecord>)
    requires IsAnswer(a, all, limit) && i < |a| && w <= all
    requires forall x :: x in w ==> x.triggerTime > a[i].triggerTime
    ensures w <= multiset(a)
  {
    assert a[i] in a;
    forall x | x in w ensures w[x] <= multiset(a)[x] {
      assert x !in all - multiset(a);
    }
  }

  // ---- limit push-down and merge ----

  /** `w`: a full limit's worth of collected records, none older than `x`. */
  ghost predicate Backs(w: multiset<AlarmRecord>, out: multiset<AlarmRecord>, x: AlarmRecord, limit: int) {
    w <= out && |w| == limit && forall r :: r in w ==> r.triggerTime >= x.triggerTime
  }

  /** What has been collected suffices: a record was left behind only for a full limit of newer ones. */
  ghost predicate Suffices(out: multiset<AlarmRecord>, all: multiset<AlarmRecord>, limit: int) {
    && out <= all
    && (limit <= 0 ==> out == all)
    && (limit > 0 ==> forall x :: x in all - out ==> exists w :: Backs(w, out, x, limit))
  }

  lemma AnswerSuffices(rows: seq<AlarmRecord>, all: multiset<AlarmRecord>, limit: int)
    requires IsAnswer(rows, all, limit)
    ensures Suffices(multiset(rows), all, limit)
  {
    if limit <= 0 || |rows| == |all| {
      FewerIn(multiset(rows), all);
    } else {
      forall x | x in all - multiset(rows) ensures exists w :: Backs(w, multiset(rows), x, limit) {
        assert Backs(multiset(rows), multiset(rows), x, limit);
      }
    }
  }

  lemma SufficesJoin(o1: multiset<AlarmRecord>, a1: multiset<AlarmRecord>, o2: multiset<AlarmRecord>,
                     a2: multiset<AlarmRecord>, limit: int)
    requires Suffices(o1, a1, limit) && Suffices(o2, a2, limit)
    ensures Suffices(o1 + o2, a1 + a2, limit)
  {
    if limit > 0 {
      forall x | x in (a1 + a2) - (o1 + o2) ensures exists w :: Backs(w, o1 + o2, x, limit) {
        if x in a1 - o1 {
          var w :| Backs(w, o1, x, limit);
          assert Backs(w, o1 + o2, x, limit);
        } else {
          assert x in a2 - o2;
          var w :| Backs(w, o2, x, limit);
          assert Backs(w, o1 + o2, x, limit);
        }
      }
    }
  }

  /** Sorting what suffices and cutting it at the limit gives the answer over everything. */
  lemma CutIsAnswer(sorted: seq<AlarmRecord>, all: multiset<AlarmRecord>, limit: int)
    requires NewestFirst(sorted) && Suffices(multiset(sorted), all, limit)
    ensures IsAnswer(Cut(sorted, limit), all, limit)
  {
    var rows := Cut(sorted, limit);
    assert multiset(rows) <= multiset(sorted) by {
      assert sorted == rows + sorted[|rows|..];
    }
    CutSize(sorted, all, limit);
    forall r, x | r in rows && x in all - multiset(rows) ensures x.triggerTime <= r.triggerTime {
      var i :| 0 <= i < |rows| && rows[i] == r;
      CutOrder(sorted, all, limit, i, x);
    }
  }

  function Cut(sorted: seq<AlarmRecord>, limit: int): seq<AlarmRecord> {
    if limit > 0 && |sorted| > limit then sorted[..limit] else sorted
  }

  lemma CutSize(sorted: seq<AlarmRecord>, all: multiset<AlarmRecord>, limit: int)
    requires Suffices(multiset(sorted), all, limit)
    ensures |Cut(sorted, limit)| == if 0 < limit < |all| then limit else |all|
  {
    FewerIn(multiset(sorted), all);
    if limit > 0 && |sorted| < |all| {
      var behind := all - multiset(sorted);
      assert all == multiset(sorted) + behind;
      var x :| x in behind;
      var w :| Backs(w, multiset(sorted), x, limit);
      FewerIn(w, multiset(sorted));
    }
  }

  lemma CutOrder(sorted: seq<AlarmRecord>, all: multiset<AlarmRecord>, limit: int, i: nat, x: AlarmRecord)
    requires NewestFirst(sorted) && Suffices(multiset(sorted), all, limit)
    requires i < |Cut(sorted, limit)| && x in all - multiset(Cut(sorted, limit))
    ensures x.triggerTime <= Cut(sorted, limit)[i].triggerTime
  {
    var rows := Cut(sorted, limit);
    var rest := sorted[|rows|..];
    assert sorted == rows + rest;
    if x in rest {
      var j :| 0 <= j < |rest| && rest[j] == x;
      assert sorted[i] == rows[i] && sorted[|rows| + j] == x;
    } else {
      assert multiset(sorted)[x] == multiset(rows)[x];
      assert x in all - multiset(sorted);
      var w :| Backs(w, multiset(sorted), x, limit);
      if rows[i].triggerTime < x.triggerTime {
        Crowded(sorted, w, i, x.triggerTime);
      }
    }
  }

  // ---- the walk over months ----

  /** A month start before the epoch wraps around when read as unsigned. */
  function Unsigned(t: int): int { if t < 0 then t + 0x1_0000_0000_0000_0000 else t }

  function Later(a: int, b: int): int { if a < b then b else a }

  function Earlier(a: int, b: int): int { if b < a then b else a }

  function FromMs(starts: Calendar, i: nat, begin: nat): int { Later(begin, Unsigned(starts(i))) }

  function ToMs(starts: Calendar, i: nat, end: nat): int { Earlier(end, starts(i + 1)) }

  /** The month's clipped range is not empty and its first millisecond names a table. */
  predicate Asked(starts: Calendar, i: nat, begin: nat, end: nat) {
    FromMs(starts, i, begin) < ToMs(starts, i, end) && 0 < FromMs(starts, i, begin) <= MAX_SANE
  }

  /** What month `i` contributes; a month without a file contributes nothing. */
  function Part(months: map<nat, seq<AlarmRecord>>, starts: Calendar, f: Filter, end: nat, i: nat): seq<AlarmRecord> {
    if i in months && Asked(starts, i, f.beginMs, end)
    then Select(months[i], f, FromMs(starts, i, f.beginMs), ToMs(starts, i, end))
    else []
  }

  function Parts(months: map<nat, seq<AlarmRecord>>, starts: Calendar, f: Filter, end: nat, from: nat, to: nat)
    : seq<AlarmRecord>
    decreases to
  {
    if to <= from then []
    else Parts(months, starts, f, end, from, to - 1) + Part(months, starts, f, end, to - 1)
  }

  /** Everything stored in months before `m`. */
  function Everything(months: map<nat, seq<AlarmRecord>>, m: nat): seq<AlarmRecord> {
    if m == 0 then [] else Everything(months, m - 1) + if m - 1 in months then months[m - 1] else []
  }

  ghost predicate Before(months: map<nat, seq<AlarmRecord>>, m: nat) {
    forall i :: i in months ==> i < m
  }

  /** Every record lies in the file of its own month. */
  ghost predicate WellPlaced(months: map<nat, seq<AlarmRecord>>, starts: Calendar) {
    forall i, r :: i in months && r in months[i] ==> starts(i) <= r.triggerTime < starts(i + 1)
  }

  /** The range stays clear of the epoch and of time stamps beyond the year 2100: it does not start in
      the month of the epoch (unless that month starts at the epoch and the range after it), it does
      not start after 2100-01-01, and no month of it starts after 2100-01-01. */
  ghost predicate Searchable(starts: Calendar, begin: nat, end: nat) {
    begin < end ==>
      && (starts(1) <= begin || (starts(0) == 0 && begin > 0))
      && begin <= MAX_SANE
      && (forall i :: MAX_SANE < starts(i) ==> end <= starts(i))
  }

  /** A searchable range asks every month that it touches. */
  lemma {:induction false} TouchedIsAsked(starts: Calendar, begin: nat, end: nat, i: nat)
    requires IsCalendar(starts) && Searchable(starts, begin, end) && begin < end
    requires begin < starts(i + 1) && starts(i) < end
    ensures Asked(starts, i, begin, end) && FromMs(starts, i, begin) == Later(begin, starts(i))
  {
    assert Rises(starts, i);
    if i > 0 {
      MonthsRise(starts, 0, i);
      if i > 1 { MonthsRise(starts, 1, i); }
    }
  }

  lemma {:induction false} PartMeans(months: map<nat, seq<AlarmRecord>>, starts: Calendar, f: Filter, end: nat, i: nat)
    requires IsCalendar(starts) && WellPlaced(months, starts) && Searchable(starts, f.beginMs, end)
    ensures Part(months, starts, f, end, i) == if i in months then Select(months[i], f, f.beginMs, end) else []
  {
    if i in months {
      var begin := f.beginMs;
      if begin < end && begin < starts(i + 1) && starts(i) < end {
        TouchedIsAsked(starts, begin, end, i);
        SelectSame(months[i], f, begin, end, FromMs(starts, i, begin), ToMs(starts, i, end));
      } else {
        SelectNone(months[i], f, begin, end);
        assert Unsigned(starts(i)) >= starts(i);
      }
    }
  }

  lemma {:induction false} PartsAreSelected(months: map<nat, seq<AlarmRecord>>, starts: Calendar, f: Filter,
                                            end: nat, m: nat)
    requires IsCalendar(starts) && WellPlaced(months, starts) && Searchable(starts, f.beginMs, end)
    ensures Parts(months, starts, f, end, 0, m) == Select(Everything(months, m), f, f.beginMs, end)
  {
    hide Select;
    hide IsCalendar;
    hide WellPlaced;
    hide Searchable;
    hide Part;
    SelectNone([], f, f.beginMs, end);
    if m > 0 {
      PartsAreSelected(months, starts, f, end, m - 1);
      PartMeans(months, starts, f, end, m - 1);
      var earlier := Everything(months, m - 1);
      if m - 1 in months {
        SelectJoin(earlier, months[m - 1], f, f.beginMs, end);
      } else {
        assert earlier + [] == earlier;
        assert Select(earlier, f, f.beginMs, end) + [] == Select(earlier, f, f.beginMs, end);
      }
    }
  }

  lemma {:induction false} PartsJoin(months: map<nat, seq<AlarmRecord>>, starts: Calendar, f: Filter, end: nat,
                                     a: nat, b: nat, c: nat)
    requires a <= b <= c
    ensures Parts(months, starts, f, end, a, c)
      == Parts(months, starts, f, end, a, b) + Parts(months, starts, f, end, b, c)
  {
    if b < c {
      PartsJoin(months, starts, f, end, a, b, c - 1);
    }
  }

  lemma {:induction false} SilentParts(months: map<nat, seq<AlarmRecord>>, starts: Calendar, f: Filter, end: nat,
                                       a: nat, b: nat)
    requires forall i :: a <= i < b ==> Part(months, starts, f, end, i) == []
    ensures Parts(months, starts, f, end, a, b) == []
  {
    if a < b {
      SilentParts(months, starts, f, end, a, b - 1);
    }
  }

  /** Months outside the walk contribute nothing, so the walk sees the parts of all months. */
  lemma {:induction false} WalkSeesAll(months: map<nat, seq<AlarmRecord>>, starts: Calendar, f: Filter, end: nat,
                                       first: nat, stop: nat, m: nat)
    requires IsCalendar(starts) && Before(months, m)
    requires first <= stop && starts(first) <= f.beginMs < starts(first + 1) && end <= starts(stop)
    ensures Parts(months, starts, f, end, first, stop) == Parts(months, starts, f, end, 0, m)
  {
    hide Select;
    var top := if m < stop then stop else m;
    forall i | 0 <= i < first ensures Part(months, starts, f, end, i) == [] {
      if i + 1 < first { MonthsRise(starts, i + 1, first); }
    }
    forall i | stop <= i < top ensures Part(months, starts, f, end, i) == [] {
      if stop < i { MonthsRise(starts, stop, i); }
      assert Unsigned(starts(i)) >= starts(i);
    }
    SilentParts(months, starts, f, end, 0, first);
    SilentParts(months, starts, f, end, stop, top);
    SilentParts(months, starts, f, end, m, top);
    PartsJoin(months, starts, f, end, 0, first, top);
    PartsJoin(months, starts, f, end, first, stop, top);
    PartsJoin(months, starts, f, end, 0, m, top);
    var walk := Parts(months, starts, f, end, first, stop);
    assert [] + (walk + []) == walk;
    assert Parts(months, starts, f, end, 0, m) + [] == Parts(months, starts, f, end, 0, m);
  }

  ghost predicate Misses(months: map<nat, seq<AlarmRecord>>, starts: Calendar, f: Filter, end: nat, m: nat) {
    multiset(Parts(months, starts, f, end, 0, m)) != multiset(Select(Everything(months, m), f, f.beginMs, end))
  }

  /** The walk sees exactly the matching records of every well-placed history if and only if the range
      is searchable. */
  lemma WalkExact(starts: Calendar, f: Filter, end: nat)
    requires IsCalendar(starts)
    ensures (forall months, m :: WellPlaced(months, starts) && Before(months, m) ==> !Misses(months, starts, f, end, m))
      <==> Searchable(starts, f.beginMs, end)
  {
    if Searchable(starts, f.beginMs, end) {
      forall months, m | WellPlaced(months, starts) && Before(months, m)
        ensures !Misses(months, starts, f, end, m)
      {
        PartsAreSelected(months, starts, f, end, m);
      }
    } else {
      var begin := f.beginMs;
      if !(starts(1) <= begin || (starts(0) == 0 && begin > 0)) {
        MissedMonth(starts, f, end, 0);
      } else if begin > MAX_SANE {
        var i := MonthOf(starts, begin);
        assert Unsigned(starts(i)) >= starts(i);
        MissedMonth(starts, f, end, i);
      } else {
        var i :| MAX_SANE < starts(i) && starts(i) < end;
        assert Rises(starts, i);
        MissedMonth(starts, f, end, i);
      }
    }
  }

  /** A touched month that is not asked hides a record that matches. */
  lemma MissedMonth(starts: Calendar, f: Filter, end: nat, i: nat)
    requires IsCalendar(starts) && f.beginMs < end && f.beginMs < starts(i + 1) && starts(i) < end
    requires !Asked(starts, i, f.beginMs, end)
    ensures exists months, m :: WellPlaced(months, starts) && Before(months, m) && Misses(months, starts, f, end, m)
  {
    assert Rises(starts, i);
    var r := AlarmRecord(1, f.pointId, if f.level >= 0 then f.level else 0, if f.status >= 0 then f.status else 0,
                         Later(f.beginMs, starts(i)), "");
    var months: map<nat, seq<AlarmRecord>> := map[i := [r]];
    HiddenRecord(months, starts, f, end, i, r);
    hide Misses;
    hide IsCalendar;
    assert WellPlaced(months, starts) && Before(months, i + 1) && Misses(months, starts, f, end, i + 1);
  }

  lemma HiddenRecord(months: map<nat, seq<AlarmRecord>>, starts: Calendar, f: Filter, end: nat, i: nat, r: AlarmRecord)
    requires months == map[i := [r]] && !Asked(starts, i, f.beginMs, end) && Wanted(r, f, f.beginMs, end)
    ensures Misses(months, starts, f, end, i + 1)
  {
    SelectOne(r, f, f.beginMs, end);
    hide Select;
    hide Asked;
    hide Wanted;
    SilentParts(months, starts, f, end, 0, i + 1);
    EmptyBefore(months, i);
    assert Everything(months, i + 1) == [r];
    assert r in multiset([r]);
  }

  lemma SelectOne(r: AlarmRecord, f: Filter, lo: int, hi: int)
    requires Wanted(r, f, lo, hi)
    ensures Select([r], f, lo, hi) == [r]
  {
    assert [r][..0] == [];
  }

  lemma {:induction false} EmptyBefore(months: map<nat, seq<AlarmRecord>>, m: nat)
    requires forall i :: i in months ==> m <= i
    ensures Everything(months, m) == []
  {
    if m > 0 {
      EmptyBefore(months, m - 1);
    }
  }

  // ---- inserting a batch ----

  predicate TimeOk(t: nat) { t != 0 && t <= MAX_SANE }

  /** The table's constraints: ids are a key, level and status are 0, 1 or 2. */
  predicate Admissible(rows: seq<AlarmRecord>) {
    && (forall r :: r in rows ==> 0 <= r.level <= 2 && 0 <= r.status <= 2)
    && (forall i, j :: 0 <= i < j < |rows| ==> rows[i].id != rows[j].id)
  }

  function RowsOf(months: map<nat, seq<AlarmRecord>>, m: nat): seq<AlarmRecord> {
    if m in months then months[m] else []
  }

  /** A batch goes in when its first time stamp is sane and its rows break no constraint of the month. */
  predicate Accepted(months: map<nat, seq<AlarmRecord>>, starts: Calendar, batch: seq<AlarmRecord>)
    requires IsCalendar(starts) && batch != []
  {
    TimeOk(batch[0].triggerTime) && Admissible(RowsOf(months, MonthOf(starts, batch[0].triggerTime)) + batch)
  }

  ghost predicate SameMonth(starts: Calendar, batch: seq<AlarmRecord>)
    requires IsCalendar(starts)
  {
    forall r :: r in batch ==> MonthOf(starts, r.triggerTime) == MonthOf(starts, batch[0].triggerTime)
  }

  function Filed(months: map<nat, seq<AlarmRecord>>, m: nat, batch: seq<AlarmRecord>): map<nat, seq<AlarmRecord>> {
    months[m := RowsOf(months, m) + batch]
  }

  lemma {:induction false} PlacedTogether(months: map<nat, seq<AlarmRecord>>, starts: Calendar,
                                          batch: seq<AlarmRecord>, m: nat)
    requires IsCalendar(starts) && WellPlaced(months, starts)
    requires forall r :: r in batch ==> starts(m) <= r.triggerTime < starts(m + 1)
    ensures WellPlaced(Filed(months, m, batch), starts)
  {
    hide IsCalendar;
    var months' := Filed(months, m, batch);
    forall i: nat, r: AlarmRecord | i in months' && r in months'[i] ensures starts(i) <= r.triggerTime < starts(i + 1) {
      if i == m {
        assert r in RowsOf(months, m) || r in batch;
      }
    }
  }

  /** After a batch has gone to the month of its first record, every record still lies in its own
      month if and only if the batch does not span months. */
  lemma {:induction false} BatchPlacement(months: map<nat, seq<AlarmRecord>>, starts: Calendar, batch: seq<AlarmRecord>)
    requires IsCalendar(starts) && WellPlaced(months, starts) && batch != []
    ensures WellPlaced(Filed(months, MonthOf(starts, batch[0].triggerTime), batch), starts)
      <==> SameMonth(starts, batch)
  {
    var m := MonthOf(starts, batch[0].triggerTime);
    var months' := Filed(months, m, batch);
    if WellPlaced(months', starts) {
      forall r | r in batch ensures MonthOf(starts, r.triggerTime) == m {
        assert r in months'[m];
        MonthUnique(starts, r.triggerTime, m);
      }
    }
    if SameMonth(starts, batch) {
      forall r | r in batch ensures starts(m) <= r.triggerTime < starts(m + 1) {
        assert MonthOf(starts, r.triggerTime) == m;
      }
      PlacedTogether(months, starts, batch, m);
    }
  }

  lemma {:induction false} SelectedIn(rows: seq<AlarmRecord>, f: Filter, lo: int, hi: int, r: AlarmRecord)
    ensures r in Select(rows, f, lo, hi) ==> r in rows
  {
    if rows != [] {
      SelectedIn(rows[..|rows| - 1], f, lo, hi, r);
    }
  }

  /** A record that went to another month's file is not found when its own month is queried, whatever
      the other filters. */
  lemma {:induction false} MisfiledIsHidden(months: map<nat, seq<AlarmRecord>>, starts: Calendar, f: Filter, k: nat,
                                            m: nat, r: AlarmRecord)
    requires IsCalendar(starts) && 0 <= starts(k) == f.beginMs && (k in months ==> r !in months[k])
    ensures starts(k + 1) >= 0 && r !in Parts(months, starts, f, starts(k + 1), 0, m)
  {
    assert Rises(starts, k);
    var end := starts(k + 1);
    if m > 0 {
      MisfiledIsHidden(months, starts, f, k, m - 1, r);
      var i := m - 1;
      if i == k && k in months {
        SelectedIn(months[k], f, FromMs(starts, k, f.beginMs), ToMs(starts, k, end), r);
      } else if i < k {
        if i + 1 < k { MonthsRise(starts, i + 1, k); }
      } else if k < i {
        if k + 1 < i { MonthsRise(starts, k + 1, i); }
        assert Unsigned(starts(i)) >= starts(i);
      }
    }
  }

  // ---- sorting ----

  lemma Placed(rows: seq<AlarmRecord>, r: AlarmRecord, k: nat)
    requires NewestFirst(rows) && k <= |rows|
    requires k > 0 ==> rows[k - 1].triggerTime >= r.triggerTime
    requires k < |rows| ==> rows[k].triggerTime <= r.triggerTime
    ensures NewestFirst(rows[..k] + [r] + rows[k..])
  {
  }

  method Insert(rows: seq<AlarmRecord>, r: AlarmRecord) returns (out: seq<AlarmRecord>)
    requires NewestFirst(rows)
    ensures NewestFirst(out) && multiset(out) == multiset(rows) + multiset{r}
  {
    var k := |rows|;
    while k > 0 && rows[k - 1].triggerTime < r.triggerTime
      invariant 0 <= k <= |rows| && (k < |rows| ==> rows[k].triggerTime <= r.triggerTime)
    {
      k := k - 1;
    }
    Placed(rows, r, k);
    assert rows == rows[..k] + rows[k..];
    hide NewestFirst;
    out := rows[..k] + [r] + rows[k..];
  }

  method SortNewestFirst(rows: seq<AlarmRecord>) returns (out: seq<AlarmRecord>)
    ensures NewestFirst(out) && multiset(out) == multiset(rows)
  {
    out := [];
    for i := 0 to |rows|
      invariant NewestFirst(out) && multiset(out) == multiset(rows[..i])
    {
      assert rows[..i + 1] == rows[..i] + [rows[i]];
      out := Insert(out, rows[i]);
    }
    assert rows[..|rows|] == rows;
  }

  method Truncate(sorted: seq<AlarmRecord>, ghost all: multiset<AlarmRecord>, limit: int)
    returns (rows: seq<AlarmRecord>)
    requires NewestFirst(sorted) && Suffices(multiset(sorted), all, limit)
    ensures IsAnswer(rows, all, limit)
  {
    CutIsAnswer(sorted, all, limit);
    rows := Cut(sorted, limit);
  }

  /** Rows go in one by one; the first one that breaks a constraint undoes them all. */
  method AppendRows(base: seq<AlarmRecord>, records: seq<AlarmRecord>) returns (ok: bool, rows: seq<AlarmRecord>)
    requires Admissible(base)
    ensures ok <==> Admissible(base + records)
    ensures rows == if ok then base + records else base
  {
    rows := base;
    assert base + records[..0] == base;
    for done := 0 to |records|
      invariant rows == base + records[..done] && Admissible(rows)
    {
      var r := records[done];
      assert (base + records)[|base| + done] == r;
      assert rows == (base + records)[..|base| + done];
      assert rows + [r] == base + records[..done + 1];
      if !(0 <= r.level <= 2 && 0 <= r.status <= 2) || exists k :: 0 <= k < |rows| && rows[k].id == r.id {
        return false, base;
      }
      rows := rows + [r];
    }
    assert records[..|records|] == records;
    ok := true;
  }

  class AlarmHistory {
    const starts: Calendar
    var months: map<nat, seq<AlarmRecord>>

    ghost predicate Valid()
      reads this
    {
      IsCalendar(starts) && forall i :: i in months ==> Admissible(months[i])
    }

    constructor (starts: Calendar)
      requires IsCalendar(starts)
      ensures Valid() && months == map[] && this.starts == starts
    {
      this.starts := starts;
      months := map[];
    }

    /** All records go to the month of the first; a constraint violation rolls the batch back. */
    method InsertAlarmRecords(records: seq<AlarmRecord>) returns (ok: bool)
      requires Valid()
      modifies this`months
      ensures Valid()
      ensures ok <==> records == [] || Accepted(old(months), starts, records)
      ensures records == [] || !TimeOk(records[0].triggerTime) ==> months == old(months)
      ensures records != [] && TimeOk(records[0].triggerTime) ==>
        var m := MonthOf(starts, records[0].triggerTime);
        months == Filed(old(months), m, if ok then records else [])
      ensures ok && records != [] && old(WellPlaced(months, starts))
        ==> (WellPlaced(months, starts) <==> SameMonth(starts, records))
    {
      if records == [] {
        return true;
      }
      var ts := records[0].triggerTime;
      if !TimeOk(ts) {
        return false;
      }
      var m := MonthOf(starts, ts);
      var rows := RowsOf(months, m);
      if WellPlaced(months, starts) {
        BatchPlacement(months, starts, records);
      }
      hide WellPlaced;
      hide Admissible;
      hide SameMonth;
      var all;
      ok, all := AppendRows(rows, records);
      months := months[m := if ok then all else rows];
      assert rows + [] == rows;
    }

    /** One month's SELECT. Only its contract is used, so any order among equal times is covered. */
    method SelectMonth(i: nat, f: Filter, lo: int, hi: int) returns (rows: seq<AlarmRecord>)
      requires i in months
      ensures IsAnswer(rows, multiset(Select(months[i], f, lo, hi)), f.limit)
    {
      var all := Select(months[i], f, lo, hi);
      var sorted := SortNewestFirst(all);
      rows := Truncate(sorted, multiset(all), f.limit);
    }

    /** The month walk. On a well-placed history and a searchable range the result is what filtering
        the whole history, sorting it newest first and taking the limit gives, up to ties. */
    method QueryAlarms(f: Filter, nowMs: nat) returns (out: seq<AlarmRecord>)
      requires Valid()
      ensures AnswersWalk(out, months, starts, f, EndOf(f, nowMs))
      ensures WellPlaced(months, starts) && Searchable(starts, f.beginMs, EndOf(f, nowMs))
        ==> AnswersHistory(out, months, f, EndOf(f, nowMs))
    {
      hide Suffices;
      hide IsAnswer;
      hide Select;
      hide WellPlaced;
      hide Searchable;
      hide NewestFirst;
      out := [];
      var begin := f.beginMs;
      var end := EndOf(f, nowMs);
      var cur := MonthOf(starts, begin);
      ghost var first := cur;
      ghost var seen: seq<AlarmRecord> := [];
      NothingSuffices(f.limit);
      while begin < end && starts(cur) < end
        invariant first <= cur && (begin >= end ==> cur == first) && seen == Parts(months, starts, f, end, first, cur)
        invariant Suffices(multiset(out), multiset(seen), f.limit)
        decreases end - starts(cur)
      {
        assert Rises(starts, cur);
        var qBegin := FromMs(starts, cur, begin);
        var qEnd := ToMs(starts, cur, end);
        if qBegin < qEnd && cur in months && 0 < qBegin <= MAX_SANE {
          var rows := SelectMonth(cur, f, qBegin, qEnd);
          ghost var all := Select(months[cur], f, qBegin, qEnd);
          AnswerSuffices(rows, multiset(all), f.limit);
          SufficesJoin(multiset(out), multiset(seen), multiset(rows), multiset(all), f.limit);
          out := out + rows;
          seen := seen + all;
        } else {
          assert seen + [] == seen;
        }
        cur := cur + 1;
      }
      var sorted := SortNewestFirst(out);
      out := Truncate(sorted, multiset(seen), f.limit);
      WalkAnswers(out, months, starts, f, end, first, cur, seen);
    }
  }

  function EndOf(f: Filter, nowMs: nat): nat { if f.endMs == 0 then nowMs else f.endMs }

  lemma NothingSuffices(limit: int)
    ensures Suffices(multiset([]), multiset([]), limit)
  {
  }

  /** `out` answers what the walk sees. */
  ghost predicate AnswersWalk(out: seq<AlarmRecord>, months: map<nat, seq<AlarmRecord>>, starts: Calendar,
                              f: Filter, end: nat) {
    forall m :: Before(months, m) ==> IsAnswer(out, multiset(Parts(months, starts, f, end, 0, m)), f.limit)
  }

  /** `out` answers the query over the whole history. */
  ghost predicate AnswersHistory(out: seq<AlarmRecord>, months: map<nat, seq<AlarmRecord>>, f: Filter, end: nat) {
    forall m :: Before(months, m) ==> IsAnswer(out, multiset(Select(Everything(months, m), f, f.beginMs, end)), f.limit)
  }

  lemma {:induction false} WalkAnswers(out: seq<AlarmRecord>, months: map<nat, seq<AlarmRecord>>, starts: Calendar,
                                       f: Filter, end: nat, first: nat, stop: nat, seen: seq<AlarmRecord>)
    requires IsCalendar(starts) && first <= stop && seen == Parts(months, starts, f, end, first, stop)
    requires starts(first) <= f.beginMs < starts(first + 1) && IsAnswer(out, multiset(seen), f.limit)
    requires if f.beginMs < end then end <= starts(stop) else first == stop
    ensures AnswersWalk(out, months, starts, f, end)
    ensures WellPlaced(months, starts) && Searchable(starts, f.beginMs, end) ==> AnswersHistory(out, months, f, end)
  {
    hide IsAnswer;
    hide Select;
    hide IsCalendar;
    hide WellPlaced;
    hide Searchable;
    forall m | Before(months, m) ensures seen == Parts(months, starts, f, end, 0, m) {
      if f.beginMs < end {
        WalkSeesAll(months, starts, f, end, first, stop, m);
      } else {
        SilentParts(months, starts, f, end, 0, m);
      }
    }
    if WellPlaced(months, starts) && Searchable(starts, f.beginMs, end) {
      forall m | Before(months, m) ensures seen == Select(Everything(months, m), f, f.beginMs, end) {
        PartsAreSelected(months, starts, f, end, m);
      }
    }
  }

  // ---- an answer, record by record ----

  /** The record lies in the time range asked for, whose end is now when none is given, and agrees with
      every field that restricts. */
  predicate Fits(r: AlarmRecord, f: Filter, nowMs: nat) {
    && f.beginMs <= r.triggerTime && r.triggerTime < (if f.endMs == 0 then nowMs else f.endMs)
    && (f.pointId == 0 || r.pointId == f.pointId)
    && (f.level < 0 || r.level == f.level)
    && (f.status < 0 || r.status == f.status)
  }

  /** `out` is newest first and holds only stored records that fit; nothing that fits is left out unless the
      limit is reached, and then nothing newer than a reported record. */
  ghost predicate TellsAll(out: seq<AlarmRecord>, stored: multiset<AlarmRecord>, f: Filter, nowMs: nat) {
    && NewestFirst(out)
    && (forall r :: multiset(out)[r] <= if Fits(r, f, nowMs) then stored[r] else 0)
    && (f.limit > 0 ==> |out| <= f.limit)
    && (f.limit <= 0 || |out| < f.limit ==> forall r :: Fits(r, f, nowMs) ==> multiset(out)[r] == stored[r])
    && (forall r, x :: r in out && Fits(x, f, nowMs) && multiset(out)[x] < stored[x] ==> x.triggerTime <= r.triggerTime)
  }

  lemma {:induction false} SelectCount(rows: seq<AlarmRecord>, f: Filter, nowMs: nat, r: AlarmRecord)
    ensures multiset(Select(rows, f, f.beginMs, EndOf(f, nowMs)))[r]
         == if Fits(r, f, nowMs) then multiset(rows)[r] else 0
  {
    if rows != [] {
      var front, last := rows[..|rows| - 1], rows[|rows| - 1];
      SelectCount(front, f, nowMs, r);
      assert rows == front + [last];
    }
  }

  /** What `QueryAlarms` promises of a well-placed history, record by record. */
  lemma {:induction false} AnswerTold(out: seq<AlarmRecord>, months: map<nat, seq<AlarmRecord>>, f: Filter, nowMs: nat,
                                      m: nat)
    requires AnswersHistory(out, months, f, EndOf(f, nowMs)) && Before(months, m)
    ensures TellsAll(out, multiset(Everything(months, m)), f, nowMs)
  {
    var rows := Everything(months, m);
    var selected := multiset(Select(rows, f, f.beginMs, EndOf(f, nowMs)));
    assert IsAnswer(out, selected, f.limit);
    forall r ensures selected[r] == if Fits(r, f, nowMs) then multiset(rows)[r] else 0 {
      SelectCount(rows, f, nowMs, r);
    }
    hide Select;
    hide Everything;
    hide EndOf;
    hide Fits;
    if f.limit <= 0 || |out| < f.limit {
      FewerIn(multiset(out), selected);
    }
    AnswerIsTold(out, selected, multiset(rows), f, nowMs);
  }

  lemma AnswerIsTold(out: seq<AlarmRecord>, selected: multiset<AlarmRecord>, stored: multiset<AlarmRecord>, f: Filter,
                     nowMs: nat)
    requires IsAnswer(out, selected, f.limit)
    requires forall r :: selected[r] == if Fits(r, f, nowMs) then stored[r] else 0
    requires f.limit <= 0 || |out| < f.limit ==> multiset(out) == selected
    ensures TellsAll(out, stored, f, nowMs)
  {
    hide Fits;
    hide NewestFirst;
    forall r, x | r in out && Fits(x, f, nowMs) && multiset(out)[x] < stored[x] ensures x.triggerTime <= r.triggerTime {
      assert x in selected - multiset(out);
    }
  }
}
