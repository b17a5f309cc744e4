/** The read-segment planner: enabled points are merged into as few reads as possible. */
module Planner {
  import opened Bytes

  datatype RegisterType = Coil | DiscreteInput | HoldingRegister | InputRegister

  datatype DataType = Bool | Int16 | Uint16 | Int32 | Float32 | Float64

  datatype Point = Point(pointId: nat, slave: Byte, regType: RegisterType, addr: Word, dataType: DataType,
                         enabled: bool)

  datatype Segment = Segment(slave: Byte, rt: RegisterType, startAddr: Word, qty: Word, points: seq<Point>)

  predicate IsBitType(rt: RegisterType) { rt.Coil? || rt.DiscreteInput? }

  function RegisterCountFor(dt: DataType): nat {
    match dt
    case Bool => 1
    case Int16 => 1
    case Uint16 => 1
    case Int32 => 2
    case Float32 => 2
    case Float64 => 4
  }

  function Width(p: Point): nat { if IsBitType(p.regType) then 1 else RegisterCountFor(p.dataType) }

  /** First address behind the point. */
  function End(p: Point): nat { p.addr + Width(p) }

  function MaxQty(rt: RegisterType): nat { if IsBitType(rt) then 2000 else 125 }

  // ---- sorting: by address, then id ----

  predicate Before(p: Point, q: Point) {
    p.addr < q.addr || (p.addr == q.addr && p.pointId <= q.pointId)
  }

  ghost predicate Sorted(ps: seq<Point>) {
    forall i, j :: 0 <= i < j < |ps| ==> Before(ps[i], ps[j])
  }

  function Insert(p: Point, ps: seq<Point>): (r: seq<Point>)
    ensures |r| == |ps| + 1
  {
    if ps == [] || Before(p, ps[0]) then [p] + ps else [ps[0]] + Insert(p, ps[1..])
  }

  lemma {:induction false} InsertKeeps(p: Point, ps: seq<Point>)
    ensures multiset(Insert(p, ps)) == multiset(ps) + multiset{p}
  {
    if ps != [] && !Before(p, ps[0]) {
      InsertKeeps(p, ps[1..]);
      assert ps == [ps[0]] + ps[1..];
    }
  }

  lemma {:induction false} InsertSorted(p: Point, ps: seq<Point>)
    requires Sorted(ps)
    ensures Sorted(Insert(p, ps))
  {
    if ps != [] && !Before(p, ps[0]) {
      InsertSorted(p, ps[1..]);
      InsertKeeps(p, ps[1..]);
      var rest := Insert(p, ps[1..]);
      forall i | 0 <= i < |rest| ensures Before(ps[0], rest[i]) {
        assert rest[i] in multiset(rest);
      }
    }
  }

  function Sort(ps: seq<Point>): (r: seq<Point>)
    ensures Sorted(r) && multiset(r) == multiset(ps)
  {
    if ps == [] then []
    else
      assert ps == [ps[0]] + ps[1..];
      InsertKeeps(ps[0], Sort(ps[1..]));
      InsertSorted(ps[0], Sort(ps[1..]));
      Insert(ps[0], Sort(ps[1..]))
  }

  // ---- what a segment is ----

  /** A read of `qty` cells from `startAddr`. */
  datatype Read = Read(slave: Byte, rt: RegisterType, start: nat, qty: nat)

  ghost predicate Inside(p: Point, r: Read) {
    p.slave == r.slave && p.regType == r.rt && r.start <= p.addr && End(p) <= r.start + r.qty
  }

  ghost predicate Covers(p: Point, slave: Byte, rt: RegisterType, a: nat) {
    p.slave == slave && p.regType == rt && p.addr <= a < End(p)
  }

  ghost predicate Covered(a: nat, slave: Byte, rt: RegisterType, ps: seq<Point>) {
    exists p :: p in ps && Covers(p, slave, rt, a)
  }

  /** A sensible read for `ps`: within the protocol limit, and no cell that belongs to no point. */
  ghost predicate Sensible(r: Read, ps: seq<Point>) {
    && r.qty <= MaxQty(r.rt)
    && forall a :: r.start <= a < r.start + r.qty ==> Covered(a, r.slave, r.rt, ps)
  }

  function ReadOf(s: Segment): Read { Read(s.slave, s.rt, s.startAddr, s.qty) }

  ghost predicate Proper(s: Segment) {
    && s.points != [] && Sorted(s.points)
    && s.startAddr == s.points[0].addr
    && 1 <= s.qty && Sensible(ReadOf(s), s.points)
    && forall p :: p in s.points ==> Inside(p, ReadOf(s))
  }

  /** The reason for starting `t` behind `s`: a gap, or the limit. */
  ghost predicate Justified(s: Segment, p: Point) {
    p.addr > s.startAddr + s.qty || End(p) - s.startAddr > MaxQty(s.rt)
  }

  function AllPoints(segments: seq<Segment>): seq<Point> {
    if segments == [] then [] else AllPoints(segments[..|segments| - 1]) + segments[|segments| - 1].points
  }

  /** Proper segments of one group, each started for a reason. */
  ghost predicate Chain(slave: Byte, rt: RegisterType, segments: seq<Segment>) {
    && (forall i :: 0 <= i < |segments| ==> Proper(segments[i]) && segments[i].slave == slave && segments[i].rt == rt)
    && (forall i :: 0 < i < |segments| ==> Justified(segments[i - 1], segments[i].points[0]))
  }

  // ---- the greedy loop ----

  /** The segment under construction: `end` is one past the last covered cell. */
  ghost predicate Open(slave: Byte, rt: RegisterType, points: seq<Point>, start: Word, end: nat) {
    && points != [] && start == points[0].addr && start < end <= start + MaxQty(rt)
    && Proper(Segment(slave, rt, start, end - start, points))
  }

  lemma OpenGrows(slave: Byte, rt: RegisterType, points: seq<Point>, start: Word, end: nat, p: Point)
    requires Open(slave, rt, points, start, end)
    requires p.slave == slave && p.regType == rt && Before(points[|points| - 1], p)
    requires p.addr <= end && End(p) - start <= MaxQty(rt)
    ensures Open(slave, rt, points + [p], start, if end < End(p) then End(p) else end)
  {
    var end' := if end < End(p) then End(p) else end;
    var r, r' := Read(slave, rt, start, end - start), Read(slave, rt, start, end' - start);
    assert Before(points[0], points[|points| - 1]) || |points| == 1;
    forall a | start <= a < end' ensures Covered(a, slave, rt, points + [p]) {
      if a < end {
        assert Covered(a, slave, rt, points);
        var q :| q in points && Covers(q, slave, rt, a);
        assert q in points + [p];
      } else {
        assert Covers(p, slave, rt, a) && p in points + [p];
      }
    }
    forall q | q in points + [p] ensures Inside(q, r') {
      if q in points {
        assert Inside(q, r);
      }
    }
    assert Sensible(r', points + [p]);
    assert r' == ReadOf(Segment(slave, rt, start, end' - start, points + [p]));
  }

  lemma OpenStarts(p: Point)
    ensures Open(p.slave, p.regType, [p], p.addr, End(p))
  {
    var r := Read(p.slave, p.regType, p.addr, Width(p));
    forall a | r.start <= a < r.start + r.qty ensures Covered(a, p.slave, p.regType, [p]) {
      assert Covers(p, p.slave, p.regType, a) && p in [p];
    }
  }

  /** The state of the greedy loop after `i` points. */
  ghost predicate Progress(slave: Byte, rt: RegisterType, points: seq<Point>, i: nat,
                           segments: seq<Segment>, current: seq<Point>, start: Word, end: nat) {
    && i <= |points| && AllPoints(segments) + current == points[..i]
    && (current == [] <==> i == 0) && (i == 0 ==> segments == [])
    && Chain(slave, rt, segments)
    && (current != [] ==> Open(slave, rt, current, start, end))
    && (current != [] && segments != [] ==> Justified(segments[|segments| - 1], current[0]))
  }

  /** Closing the open segment. */
  lemma {:induction false} Closes(slave: Byte, rt: RegisterType, points: seq<Point>, i: nat,
               segments: seq<Segment>, current: seq<Point>, start: Word, end: nat)
    requires Progress(slave, rt, points, i, segments, current, start, end) && current != []
    ensures start < end < start + 65536
    ensures var s := Segment(slave, rt, start, end - start, current);
      Chain(slave, rt, segments + [s]) && AllPoints(segments + [s]) == points[..i]
  {
    hide Proper;
    var s := Segment(slave, rt, start, end - start, current);
    assert (segments + [s])[..|segments|] == segments;
    assert Proper(s);
  }

  lemma {:induction false} StartsNew(slave: Byte, rt: RegisterType, points: seq<Point>, i: nat, segments: seq<Segment>)
    requires i < |points| && AllPoints(segments) == points[..i] && Chain(slave, rt, segments)
    requires i == 0 ==> segments == []
    requires points[i].slave == slave && points[i].regType == rt
    requires segments != [] ==> Justified(segments[|segments| - 1], points[i])
    ensures Progress(slave, rt, points, i + 1, segments, [points[i]], points[i].addr, End(points[i]))
  {
    OpenStarts(points[i]);
    hide Proper;
    assert points[..i] + [points[i]] == points[..i + 1];
  }

  lemma {:induction false} Joins(slave: Byte, rt: RegisterType, points: seq<Point>, i: nat,
              segments: seq<Segment>, current: seq<Point>, start: Word, end: nat)
    requires Progress(slave, rt, points, i, segments, current, start, end) && current != [] && i < |points|
    requires Sorted(points) && points[i].slave == slave && points[i].regType == rt
    requires points[i].addr <= end && End(points[i]) - start <= MaxQty(rt)
    ensures Progress(slave, rt, points, i + 1, segments, current + [points[i]], start,
                     if end < End(points[i]) then End(points[i]) else end)
  {
    assert current[|current| - 1] == points[..i][i - 1];
    OpenGrows(slave, rt, current, start, end, points[i]);
    hide Proper;
    hide Open;
    assert points[..i] + [points[i]] == points[..i + 1];
    assert AllPoints(segments) + (current + [points[i]]) == points[..i + 1];
  }

  /** The greedy loop over one group's sorted points. */
  method PlanGroup(slave: Byte, rt: RegisterType, points: seq<Point>) returns (segments: seq<Segment>)
    requires Sorted(points)
    requires forall p :: p in points ==> p.slave == slave && p.regType == rt
    ensures AllPoints(segments) == points && Chain(slave, rt, segments)
  {
    hide Chain;
    hide AllPoints;
    hide Proper;
    var maxQty := MaxQty(rt);
    segments := [];
    var current: seq<Point> := [];
    var startAddr: Word := 0;
    var endExclusive: nat := 0;
    NothingYet(slave, rt, points);
    for i := 0 to |points|
      invariant Progress(slave, rt, points, i, segments, current, startAddr, endExclusive)
    {
      var p := points[i];
      var pointEnd := End(p);
      var split := current == [] || p.addr > endExclusive || pointEnd - startAddr > maxQty;
      if split {
        if current != [] {
          Closes(slave, rt, points, i, segments, current, startAddr, endExclusive);
          segments := segments + [Segment(slave, rt, startAddr, (endExclusive - startAddr) % 65536, current)];
        } else {
          assert AllPoints(segments) + [] == AllPoints(segments);
        }
        StartsNew(slave, rt, points, i, segments);
        current := [];
        startAddr := p.addr;
        endExclusive := pointEnd;
      } else {
        Joins(slave, rt, points, i, segments, current, startAddr, endExclusive);
        endExclusive := if endExclusive < pointEnd then pointEnd else endExclusive;
      }
      assert split ==> current + [p] == [p];
      current := current + [p];
    }
    assert points[..|points|] == points;
    if current != [] {
      Closes(slave, rt, points, |points|, segments, current, startAddr, endExclusive);
      segments := segments + [Segment(slave, rt, startAddr, (endExclusive - startAddr) % 65536, current)];
    } else {
      assert AllPoints(segments) + [] == AllPoints(segments);
    }
  }

  lemma NothingYet(slave: Byte, rt: RegisterType, points: seq<Point>)
    ensures Progress(slave, rt, points, 0, [], [], 0, 0)
  {
  }

  // ---- why no plan is smaller ----

  function Last(s: Segment): nat { s.startAddr + s.qty }

  /** The points that start segments reach ever further, and so do the segments. */
  lemma {:induction false} Reaches(slave: Byte, rt: RegisterType, segments: seq<Segment>, i: nat, j: nat)
    requires Chain(slave, rt, segments) && i < j < |segments|
    ensures Last(segments[i]) < End(segments[j].points[0]) <= Last(segments[j])
    ensures i + 1 < j ==> End(segments[i + 1].points[0]) < End(segments[j].points[0])
    decreases j
  {
    hide Sensible;
    var a, b := segments[j - 1], segments[j];
    assert Proper(a) && Proper(b) && Justified(a, b.points[0]);
    assert b.points[0] in b.points;
    assert Inside(b.points[0], ReadOf(b));
    QtyLimited(a);
    if i < j - 1 {
      Reaches(slave, rt, segments, i, j - 1);
    }
  }

  lemma QtyLimited(s: Segment)
    requires Proper(s)
    ensures s.qty <= MaxQty(s.rt) && End(s.points[0]) <= Last(s)
  {
    assert s.points[0] in s.points;
    assert Inside(s.points[0], ReadOf(s));
  }

  /** Where the points of a chain are. */
  lemma {:induction false} PointPosition(segments: seq<Segment>, p: Point) returns (k: nat)
    requires p in AllPoints(segments)
    ensures k < |segments| && p in segments[k].points
  {
    var n := |segments| - 1;
    if p in segments[n].points {
      k := n;
    } else {
      k := PointPosition(segments[..n], p);
    }
  }

  lemma {:induction false} AllPointsContain(segments: seq<Segment>, k: nat, p: Point)
    requires k < |segments| && p in segments[k].points
    ensures p in AllPoints(segments)
  {
    if k < |segments| - 1 {
      AllPointsContain(segments[..|segments| - 1], k, p);
    }
  }

  /** Later segments start at higher or equal addresses. */
  lemma {:induction false} LaterPoints(segments: seq<Segment>, i: nat, k: nat, p: Point, q: Point)
    requires Sorted(AllPoints(segments)) && i < k < |segments|
    requires p in segments[i].points && q in segments[k].points
    ensures p.addr <= q.addr
    decreases |segments|
  {
    var n := |segments| - 1;
    var front := AllPoints(segments[..n]);
    var all := AllPoints(segments);
    assert all == front + segments[n].points;
    if k == n {
      AllPointsContain(segments[..n], i, p);
      var x :| 0 <= x < |front| && front[x] == p;
      var y :| 0 <= y < |segments[n].points| && segments[n].points[y] == q;
      assert all[x] == p && all[|front| + y] == q;
    } else {
      assert forall x :: 0 <= x < |front| ==> front[x] == all[x];
      LaterPoints(segments[..n], i, k, p, q);
    }
  }

  /** A cell at the end of a segment that is followed by a gap belongs to no point of the group. */
  lemma {:induction false} GapUncovered(slave: Byte, rt: RegisterType, segments: seq<Segment>, i: nat, p: Point)
    requires Chain(slave, rt, segments) && Sorted(AllPoints(segments))
    requires i + 1 < |segments| && segments[i + 1].points[0].addr > Last(segments[i])
    requires p in AllPoints(segments)
    ensures !Covers(p, slave, rt, Last(segments[i]))
  {
    hide Sensible;
    var k := PointPosition(segments, p);
    assert Proper(segments[k]) && Inside(p, ReadOf(segments[k]));
    assert Proper(segments[i + 1]);
    if k <= i {
      if k < i {
        Reaches(slave, rt, segments, k, i);
      }
    } else {
      var f := segments[i + 1].points[0];
      assert f in segments[i + 1].points;
      if k == i + 1 {
        var x :| 0 <= x < |segments[k].points| && segments[k].points[x] == p;
        assert x == 0 || Before(f, p);
      } else {
        LaterPoints(segments, i + 1, k, f, p);
      }
    }
  }

  /** No sensible read holds the starting points of two segments of one group. */
  lemma {:induction false} StartsApart(slave: Byte, rt: RegisterType, segments: seq<Segment>, i: nat, j: nat, r: Read)
    requires Chain(slave, rt, segments) && Sorted(AllPoints(segments)) && i < j < |segments|
    requires r.slave == slave && r.rt == rt && Sensible(r, AllPoints(segments))
    ensures !(Inside(segments[i].points[0], r) && Inside(segments[j].points[0], r))
  {
    var a, b, c := segments[i], segments[i + 1], segments[j];
    assert Proper(a) && Proper(b) && Proper(c) && Justified(a, b.points[0]);
    Reaches(slave, rt, segments, i, j);
    QtyLimited(a);
    if Inside(a.points[0], r) && Inside(c.points[0], r) {
      if b.points[0].addr > Last(a) {
        assert b.points[0] in b.points && c.points[0] in c.points;
        if i + 1 < j {
          LaterPoints(segments, i + 1, j, b.points[0], c.points[0]);
        }
        assert Covered(Last(a), r.slave, r.rt, AllPoints(segments));
        var p :| p in AllPoints(segments) && Covers(p, slave, rt, Last(a));
        GapUncovered(slave, rt, segments, i, p);
      }
    }
  }

  // ---- all groups ----

  /** The enabled points of one slave and register type. */
  function Group(ps: seq<Point>, slave: Byte, rt: RegisterType): (r: seq<Point>)
    ensures forall p :: p in r ==> p in ps && p.enabled && p.slave == slave && p.regType == rt
  {
    if ps == [] then []
    else
      var p := ps[|ps| - 1];
      Group(ps[..|ps| - 1], slave, rt) + if p.enabled && p.slave == slave && p.regType == rt then [p] else []
  }

  function Enabled(ps: seq<Point>): (r: seq<Point>)
    ensures forall p :: p in r <==> p in ps && p.enabled
  {
    if ps == [] then []
    else Enabled(ps[..|ps| - 1]) + if ps[|ps| - 1].enabled then [ps[|ps| - 1]] else []
  }

  lemma {:induction false} GroupCounts(ps: seq<Point>, slave: Byte, rt: RegisterType, p: Point)
    ensures multiset(Group(ps, slave, rt))[p]
         == if p.enabled && p.slave == slave && p.regType == rt then multiset(ps)[p] else 0
  {
    if ps != [] {
      GroupCounts(ps[..|ps| - 1], slave, rt, p);
      assert ps == ps[..|ps| - 1] + [ps[|ps| - 1]];
    }
  }

  function TypeIndex(rt: RegisterType): nat {
    match rt case Coil => 0 case DiscreteInput => 1 case HoldingRegister => 2 case InputRegister => 3
  }

  /** Position of a group in key order. */
  function Key(slave: Byte, rt: RegisterType): nat { 4 * slave + TypeIndex(rt) }

  function TypeOf(k: nat): (rt: RegisterType)
    requires k < 4
    ensures TypeIndex(rt) == k
  {
    match k case 0 => Coil case 1 => DiscreteInput case 2 => HoldingRegister case _ => InputRegister
  }

  /** No sensible read for `ps` holds the starting points of both segments. */
  ghost predicate Apart(s: Segment, t: Segment, ps: seq<Point>)
    requires s.points != [] && t.points != []
  {
    forall r :: Sensible(r, ps) ==> !(Inside(s.points[0], r) && Inside(t.points[0], r))
  }

  /** Segments for the enabled points of all groups before `key`: every such point lies in exactly
      one segment, of its own slave and type; every segment is proper; no two could be one. */
  ghost predicate PlannedTo(points: seq<Point>, segments: seq<Segment>, key: nat) {
    && (forall p :: multiset(AllPoints(segments))[p]
                    == if p.enabled && Key(p.slave, p.regType) < key then multiset(points)[p] else 0)
    && (forall i :: 0 <= i < |segments| ==> Proper(segments[i]))
    && (forall i :: 0 <= i < |segments| ==> Key(segments[i].slave, segments[i].rt) < key)
    && (forall i, j :: 0 <= i < j < |segments| ==> Apart(segments[i], segments[j], Enabled(points)))
  }

  ghost predicate Planned(points: seq<Point>, segments: seq<Segment>) {
    && (forall p :: multiset(AllPoints(segments))[p] == if p.enabled then multiset(points)[p] else 0)
    && (forall i :: 0 <= i < |segments| ==> Proper(segments[i]))
    && (forall i, j :: 0 <= i < j < |segments| ==> Apart(segments[i], segments[j], Enabled(points)))
  }

  lemma {:induction false} AllPointsJoin(a: seq<Segment>, b: seq<Segment>)
    ensures AllPoints(a + b) == AllPoints(a) + AllPoints(b)
  {
    if b == [] {
      assert a + b == a;
    } else {
      var n := |b| - 1;
      assert (a + b)[..|a + b| - 1] == a + b[..n];
      AllPointsJoin(a, b[..n]);
    }
  }

  /** A read that is sensible for all enabled points is sensible for those of its group. */
  lemma SensibleInGroup(r: Read, points: seq<Point>, ps: seq<Point>)
    requires Sensible(r, Enabled(points))
    requires forall p :: p in points && p.enabled && p.slave == r.slave && p.regType == r.rt ==> p in ps
    ensures Sensible(r, ps)
  {
    forall a | r.start <= a < r.start + r.qty ensures Covered(a, r.slave, r.rt, ps) {
      assert Covered(a, r.slave, r.rt, Enabled(points));
      var p :| p in Enabled(points) && Covers(p, r.slave, r.rt, a);
      assert p in ps;
    }
  }

  lemma {:induction false} ApartInGroup(slave: Byte, rt: RegisterType, plan: seq<Segment>, points: seq<Point>,
                                        i: nat, j: nat)
    requires Chain(slave, rt, plan) && Sorted(AllPoints(plan)) && i < j < |plan|
    requires forall p :: p in points && p.enabled && p.slave == slave && p.regType == rt ==> p in AllPoints(plan)
    ensures plan[i].points != [] && plan[j].points != []
    ensures Apart(plan[i], plan[j], Enabled(points))
  {
    assert Proper(plan[i]) && Proper(plan[j]);
    var s, t := plan[i], plan[j];
    assert s.points[0] in s.points;
    assert Inside(s.points[0], ReadOf(s));
    forall r | Sensible(r, Enabled(points)) ensures !(Inside(s.points[0], r) && Inside(t.points[0], r)) {
      if r.slave == slave && r.rt == rt {
        SensibleInGroup(r, points, AllPoints(plan));
        StartsApart(slave, rt, plan, i, j, r);
      }
    }
  }

  lemma ApartAcrossGroups(s: Segment, t: Segment, ps: seq<Point>)
    requires Proper(s) && Proper(t) && Key(s.slave, s.rt) != Key(t.slave, t.rt)
    ensures Apart(s, t, ps)
  {
    assert s.points[0] in s.points && t.points[0] in t.points;
    assert Inside(s.points[0], ReadOf(s)) && Inside(t.points[0], ReadOf(t));
  }

  /** Adding the plan of the next group. */
  lemma {:induction false} GroupAdded(points: seq<Point>, segments: seq<Segment>, slave: Byte, rt: RegisterType,
                                      plan: seq<Segment>)
    requires PlannedTo(points, segments, Key(slave, rt))
    requires Chain(slave, rt, plan) && Sorted(AllPoints(plan))
    requires multiset(AllPoints(plan)) == multiset(Group(points, slave, rt))
    ensures PlannedTo(points, segments + plan, Key(slave, rt) + 1)
  {
    var key, all := Key(slave, rt), segments + plan;
    AllPointsJoin(segments, plan);
    forall p
      ensures multiset(AllPoints(all))[p]
           == if p.enabled && Key(p.slave, p.regType) < key + 1 then multiset(points)[p] else 0
    {
      GroupCounts(points, slave, rt, p);
      KeyInjective(p.slave, p.regType, slave, rt);
    }
    forall p | p in points && p.enabled && p.slave == slave && p.regType == rt ensures p in AllPoints(plan) {
      GroupCounts(points, slave, rt, p);
      assert p in multiset(AllPoints(plan));
    }
    forall i, j | 0 <= i < j < |all|
      ensures Proper(all[i]) && Proper(all[j]) && Apart(all[i], all[j], Enabled(points))
    {
      Later(points, segments, slave, rt, plan, i, j);
    }
    forall i | 0 <= i < |all| ensures Proper(all[i]) && Key(all[i].slave, all[i].rt) < key + 1 {
      assert all[i] == if i < |segments| then segments[i] else plan[i - |segments|];
    }
  }

  lemma {:induction false} Later(points: seq<Point>, segments: seq<Segment>, slave: Byte, rt: RegisterType,
                                 plan: seq<Segment>, i: nat, j: nat)
    requires PlannedTo(points, segments, Key(slave, rt))
    requires Chain(slave, rt, plan) && Sorted(AllPoints(plan))
    requires forall p :: p in points && p.enabled && p.slave == slave && p.regType == rt ==> p in AllPoints(plan)
    requires i < j < |segments + plan|
    ensures var all := segments + plan; Proper(all[i]) && Proper(all[j]) && Apart(all[i], all[j], Enabled(points))
  {
    if |segments| <= i {
      ApartInGroup(slave, rt, plan, points, i - |segments|, j - |segments|);
    } else if |segments| <= j {
      ApartAcrossGroups(segments[i], plan[j - |segments|], Enabled(points));
    }
  }

  lemma KeyInjective(slave: Byte, rt: RegisterType, slave': Byte, rt': RegisterType)
    ensures Key(slave, rt) == Key(slave', rt') <==> slave == slave' && rt == rt'
    ensures Key(slave, rt) < 1024
  {
  }

  /** `buildSegments`: the groups in key order, each sorted and planned greedily. */
  method BuildSegments(points: seq<Point>) returns (segments: seq<Segment>)
    ensures Planned(points, segments)
  {
    hide *;
    segments := [];
    NoGroupsYet(points);
    for key := 0 to 1024
      invariant PlannedTo(points, segments, key)
    {
      KeyOf(key);
      var slave: Byte, rt := key / 4, TypeOf(key % 4);
      var group := Sort(Group(points, slave, rt));
      SameMembers(group, Group(points, slave, rt));
      var plan := PlanGroup(slave, rt, group);
      GroupAdded(points, segments, slave, rt, plan);
      segments := segments + plan;
    }
    AllGroups(points, segments);
  }

  lemma SameMembers(ps: seq<Point>, qs: seq<Point>)
    requires multiset(ps) == multiset(qs)
    ensures forall p :: p in ps ==> p in qs
  {
    assert forall p :: p in ps ==> p in multiset(ps);
  }

  lemma NoGroupsYet(points: seq<Point>)
    ensures PlannedTo(points, [], 0)
  {
  }

  lemma KeyOf(key: nat)
    requires key < 1024
    ensures key / 4 < 256 && key % 4 < 4 && Key(key / 4, TypeOf(key % 4)) == key
  {
  }

  lemma AllGroups(points: seq<Point>, segments: seq<Segment>)
    requires PlannedTo(points, segments, 1024)
    ensures Planned(points, segments)
  {
    hide Proper;
    hide Apart;
    forall p ensures multiset(AllPoints(segments))[p] == if p.enabled then multiset(points)[p] else 0 {
      KeyInjective(p.slave, p.regType, p.slave, p.regType);
    }
  }

  // ---- the main results ----

  ghost predicate OnlyIn(segments: seq<Segment>, k: nat, p: Point) {
    && k < |segments| && p in segments[k].points
    && forall j :: 0 <= j < |segments| && p in segments[j].points ==> j == k
  }

  /** Each enabled point lies in exactly one segment, wholly inside its range, with its slave and
      type; disabled points lie in none. */
  lemma EveryPointPlannedOnce(points: seq<Point>, segments: seq<Segment>, p: Point)
    requires Planned(points, segments)
    requires p in points && multiset(points)[p] == 1
    ensures p.enabled ==> exists k: nat :: OnlyIn(segments, k, p) && Inside(p, ReadOf(segments[k]))
    ensures !p.enabled ==> forall j :: 0 <= j < |segments| ==> p !in segments[j].points
  {
    if p.enabled {
      assert p in multiset(AllPoints(segments));
      var k := PointPosition(segments, p);
      assert Proper(segments[k]);
      forall j | 0 <= j < |segments| && p in segments[j].points ensures j == k {
        if j < k {
          CountedTwice(segments, j, k, p);
        } else if k < j {
          CountedTwice(segments, k, j, p);
        }
      }
      assert OnlyIn(segments, k, p);
    } else {
      forall j | 0 <= j < |segments| ensures p !in segments[j].points {
        if p in segments[j].points {
          AllPointsContain(segments, j, p);
          assert p in multiset(AllPoints(segments));
        }
      }
    }
  }

  lemma {:induction false} CountedTwice(segments: seq<Segment>, i: nat, j: nat, p: Point)
    requires i < j < |segments| && p in segments[i].points && p in segments[j].points
    ensures multiset(AllPoints(segments))[p] >= 2
  {
    var n := |segments| - 1;
    if j == n {
      AllPointsContain(segments[..n], i, p);
      assert p in multiset(AllPoints(segments[..n])) && p in multiset(segments[n].points);
    } else {
      CountedTwice(segments[..n], i, j, p);
    }
  }

  /** Optimality: any set of sensible reads that holds every enabled point has at least as many reads. */
  lemma NoPlanIsSmaller(points: seq<Point>, segments: seq<Segment>, requests: seq<Read>)
    requires Planned(points, segments)
    requires forall r :: r in requests ==> Sensible(r, Enabled(points))
    requires forall p :: p in points && p.enabled ==> exists k :: 0 <= k < |requests| && Inside(p, requests[k])
    ensures |segments| <= |requests|
  {
    var choice := Holders(points, segments, requests);
    Pigeonhole(choice, |requests|);
  }

  /** For each segment a read that holds its starting point: all different. */
  lemma Holders(points: seq<Point>, segments: seq<Segment>, requests: seq<Read>) returns (choice: seq<nat>)
    requires Planned(points, segments)
    requires forall r :: r in requests ==> Sensible(r, Enabled(points))
    requires forall p :: p in points && p.enabled ==> exists k :: 0 <= k < |requests| && Inside(p, requests[k])
    ensures |choice| == |segments|
    ensures forall i :: 0 <= i < |choice| ==> choice[i] < |requests|
    ensures forall i, j :: 0 <= i < j < |choice| ==> choice[i] != choice[j]
  {
    choice := [];
    while |choice| < |segments|
      invariant |choice| <= |segments|
      invariant forall i :: 0 <= i < |choice| ==> choice[i] < |requests| && Holds(segments[i], requests[choice[i]])
    {
      var k := HolderOf(points, segments, requests, |choice|);
      choice := choice + [k];
    }
    forall i, j | 0 <= i < j < |choice| ensures choice[i] != choice[j] {
      assert requests[choice[i]] in requests;
      NotBoth(points, segments, i, j, requests[choice[i]]);
    }
  }

  ghost predicate Holds(s: Segment, r: Read) { s.points != [] && Inside(s.points[0], r) }

  lemma HolderOf(points: seq<Point>, segments: seq<Segment>, requests: seq<Read>, i: nat) returns (k: nat)
    requires Planned(points, segments) && i < |segments|
    requires forall p :: p in points && p.enabled ==> exists k :: 0 <= k < |requests| && Inside(p, requests[k])
    ensures k < |requests| && Holds(segments[i], requests[k])
  {
    assert Proper(segments[i]);
    var p := segments[i].points[0];
    AllPointsContain(segments, i, p);
    assert p in multiset(AllPoints(segments));
    assert p in points && p.enabled;
    k :| 0 <= k < |requests| && Inside(p, requests[k]);
  }

  lemma NotBoth(points: seq<Point>, segments: seq<Segment>, i: nat, j: nat, r: Read)
    requires Planned(points, segments) && i < j < |segments| && Sensible(r, Enabled(points))
    ensures !(Holds(segments[i], r) && Holds(segments[j], r))
  {
    assert Proper(segments[i]) && Proper(segments[j]);
    assert Apart(segments[i], segments[j], Enabled(points));
  }

  lemma {:induction false} Pigeonhole(choice: seq<nat>, n: nat)
    requires forall i :: 0 <= i < |choice| ==> choice[i] < n
    requires forall i, j :: 0 <= i < j < |choice| ==> choice[i] != choice[j]
    ensures |choice| <= n
  {
    Distinct(choice);
    SubsetSize(set i | 0 <= i < |choice| :: choice[i], Below(n));
  }

  function Below(n: nat): (s: set<nat>)
    ensures |s| == n && forall k: nat :: k in s <==> k < n
  {
    if n == 0 then {} else Below(n - 1) + {n - 1}
  }

  lemma {:induction false} Distinct(choice: seq<nat>)
    requires forall i, j :: 0 <= i < j < |choice| ==> choice[i] != choice[j]
    ensures |set i | 0 <= i < |choice| :: choice[i]| == |choice|
  {
    if choice != [] {
      var n := |choice| - 1;
      Distinct(choice[..n]);
      var front := set i | 0 <= i < n :: choice[..n][i];
      assert (set i | 0 <= i < |choice| :: choice[i]) == front + {choice[n]};
    }
  }

  lemma {:induction false} SubsetSize(a: set<nat>, b: set<nat>)
    requires a <= b
    ensures |a| <= |b|
  {
    if a != {} {
      var x :| x in a;
      SubsetSize(a - {x}, b - {x});
    }
  }

  /** The planner's own segments are sensible reads, so the bound is met exactly. */
  lemma PlanIsSensible(points: seq<Point>, segments: seq<Segment>, k: nat)
    requires Planned(points, segments) && k < |segments|
    ensures Sensible(ReadOf(segments[k]), Enabled(points)) && 1 <= segments[k].qty <= MaxQty(segments[k].rt)
  {
    var s := segments[k];
    assert Proper(s);
    var r := ReadOf(s);
    forall a | r.start <= a < r.start + r.qty ensures Covered(a, r.slave, r.rt, Enabled(points)) {
      assert Covered(a, r.slave, r.rt, s.points);
      var p :| p in s.points && Covers(p, r.slave, r.rt, a);
      AllPointsContain(segments, k, p);
      assert p in multiset(AllPoints(segments));
    }
  }
}
