/** The single-producer, multi-consumer ring under every interleaving of its atomic steps. Positions
    are unbounded counters; `pos & mask` is `pos % capacity` for a power-of-two capacity. */
module RingBufferSteps {
  /** `push` and `pushBatch`: reserve positions, store the items one by one, publish. */
  datatype Producer = Resting | Storing

  /** `readRecent`: load the published count, position, read slots, store the cursor.
      `evictSlowConsumer`: load the published count, then maybe jump. */
  datatype Consumer<T> = Consumer(cursor: nat, activity: Activity<T>)

  datatype Activity<T> =
    | Away
    | Loaded(published: nat, count: nat)
    | Reading(start: nat, readable: nat, out: seq<T>)
    | Evicting(published: nat)

  /** `items` is the history of everything reserved so far, `stored` how many of them have been
      written to their slots. */
  datatype Ring<T> = Ring(capacity: nat, slots: seq<T>, items: seq<T>, stored: nat, published: nat,
                          producer: Producer, consumers: seq<Consumer<T>>)

  const MAX_CONSUMERS: nat := 4

  datatype Action<T> =
    | Reserve(batch: seq<T>)
    | Store
    | Publish
    | BeginRead(c: nat, count: nat)
    | Position(c: nat)
    | ReadSlot(c: nat)
    | EndRead(c: nat)
    | BeginEvict(c: nat)
    | EndEvict(c: nat)

  function Start<T>(capacity: nat, initial: T): Ring<T> {
    Ring(capacity, seq(capacity, _ => initial), [], 0, 0, Resting, seq(MAX_CONSUMERS, _ => Consumer(0, Away)))
  }

  /** Behind by a full ring or more: go to the oldest position still readable. */
  function Jump(published: nat, cursor: nat, capacity: nat): nat {
    if published >= cursor + capacity then published - capacity else cursor
  }

  predicate Enabled<T>(r: Ring<T>, a: Action<T>)
    requires r.capacity > 0
  {
    match a
    case Reserve(batch) => r.producer.Resting? && batch != []
    case Store => r.producer.Storing? && r.stored < |r.items|
    case Publish => r.producer.Storing? && r.stored == |r.items|
    case BeginRead(c, count) => c < |r.consumers| && r.consumers[c].activity.Away? && count > 0
    case Position(c) => c < |r.consumers| && r.consumers[c].activity.Loaded?
    case ReadSlot(c) => c < |r.consumers| && r.consumers[c].activity.Reading?
                        && |r.consumers[c].activity.out| < r.consumers[c].activity.readable
    case EndRead(c) => c < |r.consumers| && r.consumers[c].activity.Reading?
                       && |r.consumers[c].activity.out| == r.consumers[c].activity.readable
    case BeginEvict(c) => c < |r.consumers| && r.consumers[c].activity.Away?
    case EndEvict(c) => c < |r.consumers| && r.consumers[c].activity.Evicting?
  }

  function With<T>(r: Ring<T>, c: nat, k: Consumer<T>): Ring<T>
    requires c < |r.consumers|
  {
    r.(consumers := r.consumers[c := k])
  }

  function Step<T>(r: Ring<T>, a: Action<T>): Ring<T>
    requires r.capacity > 0 && |r.slots| == r.capacity && Enabled(r, a)
  {
    match a
    case Reserve(batch) => r.(items := r.items + batch, producer := Storing)
    case Store => r.(slots := r.slots[r.stored % r.capacity := r.items[r.stored]], stored := r.stored + 1)
    case Publish => r.(published := |r.items|, producer := Resting)
    case BeginRead(c, count) =>
      With(r, c, r.consumers[c].(activity := Loaded(r.published, if count > r.capacity then r.capacity else count)))
    case Position(c) =>
      var k := r.consumers[c];
      var p := k.activity.published;
      if p <= k.cursor then With(r, c, k.(activity := Away))
      else
        var start := Jump(p, k.cursor, r.capacity);
        var readable := if p - start < k.activity.count then p - start else k.activity.count;
        With(r, c, k.(activity := Reading(start, readable, [])))
    case ReadSlot(c) =>
      var k := r.consumers[c];
      var v := r.slots[(k.activity.start + |k.activity.out|) % r.capacity];
      With(r, c, k.(activity := k.activity.(out := k.activity.out + [v])))
    case EndRead(c) =>
      var k := r.consumers[c];
      With(r, c, Consumer(k.activity.start + k.activity.readable, Away))
    case BeginEvict(c) => With(r, c, r.consumers[c].(activity := Evicting(r.published)))
    case EndEvict(c) =>
      var k := r.consumers[c];
      With(r, c, Consumer(Jump(k.activity.published, k.cursor, r.capacity), Away))
  }

  /** The ring after a series of actions; actions that are not enabled do nothing. */
  function Run<T>(r: Ring<T>, actions: seq<Action<T>>): Ring<T>
    requires r.capacity > 0 && |r.slots| == r.capacity
    ensures var r' := Run(r, actions); r'.capacity == r.capacity && |r'.slots| == r.capacity
  {
    if actions == [] then r
    else
      var r1 := Run(r, actions[..|actions| - 1]);
      var a := actions[|actions| - 1];
      if Enabled(r1, a) then Step(r1, a) else r1
  }

  // ---- invariant ----

  /** `v` is item `k`, written to the slot of position `x` at that time or a whole number of rounds
      later; item `x` itself unless position `x + capacity` has been stored. */
  ghost predicate Genuine<T>(r: Ring<T>, x: nat, v: T) {
    exists k: nat :: Origin(r, x, v, k)
  }

  ghost predicate Origin<T>(r: Ring<T>, x: nat, v: T, k: nat) {
    && r.capacity > 0 && x <= k < r.stored <= |r.items| && r.items[k] == v
    && (k - x) % r.capacity == 0 && (r.stored <= x + r.capacity ==> k == x)
  }

  ghost predicate ProducerOk<T>(r: Ring<T>) {
    && r.capacity > 0 && |r.slots| == r.capacity
    && r.published <= r.stored <= |r.items|
    && (r.producer.Resting? ==> r.published == |r.items|)
    && forall k: nat :: k < r.stored && r.stored <= k + r.capacity ==> r.slots[k % r.capacity] == r.items[k]
  }

  ghost predicate ConsumerOk<T>(r: Ring<T>, k: Consumer<T>) {
    && k.cursor <= r.published
    && match k.activity
       case Away => true
       case Loaded(p, count) => k.cursor <= p <= r.published && 0 < count <= r.capacity
       case Reading(start, readable, out) =>
         && k.cursor <= start && start + readable <= r.published && |out| <= readable <= r.capacity
         && forall i :: 0 <= i < |out| ==> Genuine(r, start + i, out[i])
       case Evicting(p) => k.cursor <= p <= r.published
  }

  ghost predicate Inv<T>(r: Ring<T>) {
    ProducerOk(r) && |r.consumers| == MAX_CONSUMERS
    && forall c :: 0 <= c < |r.consumers| ==> ConsumerOk(r, r.consumers[c])
  }

  /** The latest item written to the slot of position `x`. */
  lemma {:induction false} SlotGenuine<T>(r: Ring<T>, x: nat)
    requires ProducerOk(r) && x < r.stored
    ensures Genuine(r, x, r.slots[x % r.capacity])
  {
    var k := LatestInSlot(x, r.stored, r.capacity);
    assert Origin(r, x, r.slots[x % r.capacity], k);
  }

  lemma {:induction false} LatestInSlot(x: nat, stored: nat, capacity: nat) returns (k: nat)
    requires capacity > 0 && x < stored
    ensures x <= k < stored <= k + capacity && k % capacity == x % capacity && (k - x) % capacity == 0
    ensures stored <= x + capacity ==> k == x
    decreases stored - x
  {
    if stored <= x + capacity {
      k := x;
    } else {
      k := LatestInSlot(x + capacity, stored, capacity);
      AddRound(x, capacity);
      AddRound(k - x - capacity, capacity);
    }
  }

  lemma AddRound(x: nat, capacity: nat)
    requires capacity > 0
    ensures (x + capacity) % capacity == x % capacity
  {
    var q, m := x / capacity, x % capacity;
    assert x == q * capacity + m;
    assert x + capacity == (q + 1) * capacity + m;
    ModUnique(x + capacity, capacity, q + 1, m);
  }

  lemma ModUnique(x: int, d: nat, q: int, m: nat)
    requires m < d && x == q * d + m
    ensures x % d == m
  {
    var q', m' := x / d, x % d;
    assert x == q' * d + m';
    assert (q - q') * d == q * d - q' * d == m' - m;
    SmallMultiple(q - q', d);
  }

  lemma SmallMultiple(t: int, d: nat)
    requires d > 0 && 0 - (d as int) < t * d < d
    ensures t == 0
  {
    if t > 0 {
      assert t * d == (t - 1) * d + d;
      Product(t - 1, d);
    } else if t < 0 {
      assert t * d == -((-t - 1) * d) - d;
      Product(-t - 1, d);
    }
  }

  lemma Product(a: nat, b: nat)
    ensures a * b >= 0
  {
  }

  /** What was genuine stays genuine while the producer goes on. */
  lemma {:induction false} GenuineLater<T>(r: Ring<T>, r': Ring<T>, x: nat, v: T)
    requires Genuine(r, x, v)
    requires r'.capacity == r.capacity && r.stored <= r'.stored <= |r'.items| && r.items <= r'.items
    ensures Genuine(r', x, v)
  {
    var k: nat :| Origin(r, x, v, k);
    assert Origin(r', x, v, k);
  }

  lemma {:induction false} ConsumersLater<T>(r: Ring<T>, r': Ring<T>)
    requires Inv(r) && r'.consumers == r.consumers
    requires r'.capacity == r.capacity && r.published <= r'.published
    requires r.stored <= r'.stored <= |r'.items| && r.items <= r'.items
    ensures forall c :: 0 <= c < |r'.consumers| ==> ConsumerOk(r', r'.consumers[c])
  {
    forall c | 0 <= c < |r'.consumers| ensures ConsumerOk(r', r'.consumers[c]) {
      var k := r.consumers[c];
      assert ConsumerOk(r, k);
      if k.activity.Reading? {
        forall i | 0 <= i < |k.activity.out| ensures Genuine(r', k.activity.start + i, k.activity.out[i]) {
          GenuineLater(r, r', k.activity.start + i, k.activity.out[i]);
        }
      }
    }
  }

  lemma SlotsApart(a: nat, b: nat, capacity: nat)
    requires capacity > 0 && a < b < a + capacity
    ensures a % capacity != b % capacity
  {
    if a % capacity == b % capacity {
      var p, q := a / capacity, b / capacity;
      assert a == p * capacity + a % capacity && b == q * capacity + b % capacity;
      assert (q - p) * capacity == q * capacity - p * capacity;
      SmallMultiple(q - p, capacity);
    }
  }

  lemma {:induction false} StoreKeeps<T>(r: Ring<T>)
    requires ProducerOk(r) && Enabled(r, Store)
    ensures ProducerOk(Step(r, Store))
  {
    var r' := Step(r, Store);
    forall k: nat | k < r'.stored && r'.stored <= k + r.capacity ensures r'.slots[k % r.capacity] == r'.items[k] {
      if k < r.stored {
        SlotsApart(k, r.stored, r.capacity);
      }
    }
  }

  lemma {:induction false} ProducerKeeps<T>(r: Ring<T>, a: Action<T>)
    requires Inv(r) && Enabled(r, a) && (a.Reserve? || a.Store? || a.Publish?)
    ensures Inv(Step(r, a))
  {
    if a.Store? {
      StoreKeeps(r);
    }
    ConsumersLater(r, Step(r, a));
  }

  predicate ByConsumer<T>(a: Action<T>) { !(a.Reserve? || a.Store? || a.Publish?) }

  /** A consumer's step changes that consumer and nothing else. */
  lemma {:induction false} ConsumerFrame<T>(r: Ring<T>, a: Action<T>)
    requires Inv(r) && Enabled(r, a) && ByConsumer(a)
    ensures var r' := Step(r, a);
      && r'.capacity == r.capacity && r'.slots == r.slots && r'.items == r.items && r'.stored == r.stored
      && r'.published == r.published && r'.producer == r.producer && |r'.consumers| == |r.consumers|
      && forall j :: 0 <= j < |r.consumers| && j != a.c ==> r'.consumers[j] == r.consumers[j]
  {
  }

  lemma {:induction false} SteppedConsumer<T>(r: Ring<T>, a: Action<T>)
    requires Inv(r) && Enabled(r, a) && ByConsumer(a)
    ensures ConsumerOk(Step(r, a), Step(r, a).consumers[a.c])
  {
    var r', k, k' := Step(r, a), r.consumers[a.c], Step(r, a).consumers[a.c];
    assert ConsumerOk(r, k);
    if a.ReadSlot? {
      SlotGenuine(r, k.activity.start + |k.activity.out|);
    }
    if k'.activity.Reading? {
      hide ProducerOk;
      forall i | 0 <= i < |k'.activity.out| ensures Genuine(r', k'.activity.start + i, k'.activity.out[i]) {
        GenuineLater(r, r', k'.activity.start + i, k'.activity.out[i]);
      }
    }
  }

  lemma {:induction false} ConsumerKeeps<T>(r: Ring<T>, a: Action<T>)
    requires Inv(r) && Enabled(r, a) && ByConsumer(a)
    ensures Inv(Step(r, a))
  {
    ConsumerFrame(r, a);
    SteppedConsumer(r, a);
    var r' := Step(r, a);
    hide Step;
    hide Enabled;
    forall j | 0 <= j < |r'.consumers| ensures ConsumerOk(r', r'.consumers[j]) {
      var k := r.consumers[j];
      assert ConsumerOk(r, k);
      if j != a.c && k.activity.Reading? {
        forall i | 0 <= i < |k.activity.out| ensures Genuine(r', k.activity.start + i, k.activity.out[i]) {
          GenuineLater(r, r', k.activity.start + i, k.activity.out[i]);
        }
      }
    }
  }

  /** In every interleaving: published never passes what is stored, cursors never pass what is
      published, and every value read is a genuine item. */
  lemma {:induction false} RunKeeps<T>(capacity: nat, initial: T, actions: seq<Action<T>>)
    requires capacity > 0
    ensures Inv(Run(Start(capacity, initial), actions))
  {
    if actions != [] {
      var a := actions[|actions| - 1];
      RunKeeps(capacity, initial, actions[..|actions| - 1]);
      var r := Run(Start(capacity, initial), actions[..|actions| - 1]);
      if Enabled(r, a) {
        if a.Reserve? || a.Store? || a.Publish? {
          ProducerKeeps(r, a);
        } else {
          ConsumerKeeps(r, a);
        }
      }
    }
  }

  /** No step moves a counter back. */
  lemma CountersMonotone<T>(r: Ring<T>, a: Action<T>, c: nat)
    requires Inv(r) && Enabled(r, a) && c < MAX_CONSUMERS
    ensures var r' := Step(r, a);
      && r.published <= r'.published && r.stored <= r'.stored && r.items <= r'.items
      && r.consumers[c].cursor <= r'.consumers[c].cursor
  {
    assert ConsumerOk(r, r.consumers[c]);
  }

  /** More than a ringful was published from position `x` on: its slot has been used again. */
  predicate Lapped(x: nat, published: nat, capacity: nat) { x + capacity < published }

  /** `start` is the first position from `cursor` on that has not been overwritten. */
  ghost predicate Oldest(start: nat, published: nat, cursor: nat, capacity: nat) {
    && cursor <= start && !Lapped(start, published, capacity)
    && forall x :: cursor <= x < start ==> Lapped(x, published, capacity)
  }

  lemma JumpToOldest(published: nat, cursor: nat, capacity: nat)
    ensures Oldest(Jump(published, cursor, capacity), published, cursor, capacity)
    ensures forall start: nat :: Oldest(start, published, cursor, capacity) ==>
              start == Jump(published, cursor, capacity)
  {
    var jump := Jump(published, cursor, capacity);
    forall start: nat | Oldest(start, published, cursor, capacity) ensures start == jump {
      assert jump < start ==> Lapped(jump, published, capacity);
      assert start < jump ==> Lapped(start, published, capacity);
    }
  }

  /** Where a read starts: at the first position of its consumer that had not been overwritten when it
      loaded the published count, with as many items as asked for, or all there are. */
  lemma ReaderStarts<T>(r: Ring<T>, c: nat)
    requires Inv(r) && Enabled(r, Position(c))
    ensures var k, k' := r.consumers[c], Step(r, Position(c)).consumers[c];
      var p, count := k.activity.published, k.activity.count;
      && k'.cursor == k.cursor
      && (k'.activity.Away? <==> p == k.cursor)
      && (p > k.cursor ==>
            && k'.activity.Reading? && k'.activity.out == []
            && Oldest(k'.activity.start, p, k.cursor, r.capacity) && k'.activity.start < p
            && k'.activity.readable == if k'.activity.start + count <= p then count else p - k'.activity.start)
  {
    assert ConsumerOk(r, r.consumers[c]);
    JumpToOldest(r.consumers[c].activity.published, r.consumers[c].cursor, r.capacity);
  }

  /** A finished read that was not overtaken is exactly the items from its start, in order. */
  lemma {:induction false} UndisturbedRead<T>(r: Ring<T>, c: nat)
    requires Inv(r) && Enabled(r, EndRead(c))
    requires r.stored <= r.consumers[c].activity.start + r.capacity
    ensures var k := r.consumers[c].activity; k.out == r.items[k.start..k.start + k.readable]
  {
    var k := r.consumers[c].activity;
    assert ConsumerOk(r, r.consumers[c]);
    forall i | 0 <= i < k.readable ensures k.out[i] == r.items[k.start + i] {
      assert Genuine(r, k.start + i, k.out[i]);
      var o: nat :| Origin(r, k.start + i, k.out[i], o);
    }
  }

  /** With distinct items, the slot of a published position holds the item of that position exactly
      while the position one ring further has not been stored. */
  lemma {:induction false} SlotExact<T>(r: Ring<T>, x: nat)
    requires Inv(r) && x < r.published
    requires forall i, j :: 0 <= i < j < |r.items| ==> r.items[i] != r.items[j]
    ensures r.slots[x % r.capacity] == r.items[x] <==> r.stored <= x + r.capacity
  {
    var k := LatestInSlot(x, r.stored, r.capacity);
    assert r.slots[k % r.capacity] == r.items[k];
    if k != x {
      assert r.items[x] != r.items[k];
    }
  }

  lemma OneStored() returns (actions: seq<Action<nat>>)
    ensures Run(Start(2, 0), actions) == At([10, 0], [10, 11], 1, 0, Storing, Away)
  {
    var r0 := Start(2, 0);
    actions := [];
    assert Run(r0, actions) == At([0, 0], [], 0, 0, Resting, Away);
    hide Run;
    hide Start;
    actions := Advance(r0, actions, Reserve([10, 11]),
      At([0, 0], [], 0, 0, Resting, Away),
      At([0, 0], [10, 11], 0, 0, Storing, Away));
    actions := Advance(r0, actions, Store,
      At([0, 0], [10, 11], 0, 0, Storing, Away),
      At([10, 0], [10, 11], 1, 0, Storing, Away));
  }

  lemma TwoStored() returns (actions: seq<Action<nat>>)
    ensures Run(Start(2, 0), actions) == At([10, 11], [10, 11], 2, 0, Storing, Away)
  {
    var r0 := Start(2, 0);
    actions := OneStored();
    hide Run;
    hide Start;
    actions := Advance(r0, actions, Store,
      At([10, 0], [10, 11], 1, 0, Storing, Away),
      At([10, 11], [10, 11], 2, 0, Storing, Away));
  }

  lemma TwoPublished() returns (actions: seq<Action<nat>>)
    ensures Run(Start(2, 0), actions) == At([10, 11], [10, 11], 2, 2, Resting, Loaded(2, 2))
  {
    var r0 := Start(2, 0);
    actions := TwoStored();
    hide Run;
    hide Start;
    actions := Advance(r0, actions, Publish,
      At([10, 11], [10, 11], 2, 0, Storing, Away),
      At([10, 11], [10, 11], 2, 2, Resting, Away));
    actions := Advance(r0, actions, BeginRead(0, 2),
      At([10, 11], [10, 11], 2, 2, Resting, Away),
      At([10, 11], [10, 11], 2, 2, Resting, Loaded(2, 2)));
  }

  lemma ReadBegun() returns (actions: seq<Action<nat>>)
    ensures Run(Start(2, 0), actions) == At([10, 11], [10, 11, 12], 2, 2, Storing, Reading(0, 2, []))
  {
    var r0 := Start(2, 0);
    actions := TwoPublished();
    hide Run;
    hide Start;
    actions := Advance(r0, actions, Position(0),
      At([10, 11], [10, 11], 2, 2, Resting, Loaded(2, 2)),
      At([10, 11], [10, 11], 2, 2, Resting, Reading(0, 2, [])));
    actions := Advance(r0, actions, Reserve([12]),
      At([10, 11], [10, 11], 2, 2, Resting, Reading(0, 2, [])),
      At([10, 11], [10, 11, 12], 2, 2, Storing, Reading(0, 2, [])));
  }

  lemma Overwritten() returns (actions: seq<Action<nat>>)
    ensures Run(Start(2, 0), actions) == At([12, 11], [10, 11, 12], 3, 2, Storing, Reading(0, 2, [12]))
  {
    var r0 := Start(2, 0);
    actions := ReadBegun();
    hide Run;
    hide Start;
    actions := Advance(r0, actions, Store,
      At([10, 11], [10, 11, 12], 2, 2, Storing, Reading(0, 2, [])),
      At([12, 11], [10, 11, 12], 3, 2, Storing, Reading(0, 2, [])));
    assert [] + [12] == [12];
    actions := Advance(r0, actions, ReadSlot(0),
      At([12, 11], [10, 11, 12], 3, 2, Storing, Reading(0, 2, [])),
      At([12, 11], [10, 11, 12], 3, 2, Storing, Reading(0, 2, [12])));
  }

  /** Being overtaken is reachable: a consumer exactly one ring behind does not skip, and while it
      reads the producer stores the next item over its first slot. It gets item 2 before item 1. */
  lemma OvertakenRead() returns (actions: seq<Action<nat>>)
    ensures Run(Start(2, 0), actions) == At([12, 11], [10, 11, 12], 3, 2, Storing, Reading(0, 2, [12, 11]))
  {
    var r0 := Start(2, 0);
    actions := Overwritten();
    hide Run;
    hide Start;
    assert [12] + [11] == [12, 11];
    actions := Advance(r0, actions, ReadSlot(0),
      At([12, 11], [10, 11, 12], 3, 2, Storing, Reading(0, 2, [12])),
      At([12, 11], [10, 11, 12], 3, 2, Storing, Reading(0, 2, [12, 11])));
  }

  /** A ring of two slots whose first consumer is at position 0. */
  function At(slots: seq<nat>, items: seq<nat>, stored: nat, published: nat, producer: Producer, a: Activity<nat>)
    : Ring<nat>
  {
    Ring(2, slots, items, stored, published, producer,
         [Consumer(0, a), Consumer(0, Away), Consumer(0, Away), Consumer(0, Away)])
  }

  lemma {:induction false} Advance(r0: Ring<nat>, actions: seq<Action<nat>>, a: Action<nat>, r: Ring<nat>,
                                   r': Ring<nat>)
    returns (longer: seq<Action<nat>>)
    requires r0.capacity > 0 && |r0.slots| == r0.capacity
    requires Run(r0, actions) == r && Enabled(r, a) && Step(r, a) == r'
    ensures Run(r0, longer) == r'
  {
    hide Step;
    hide Enabled;
    longer := actions + [a];
    assert longer[..|actions|] == actions;
  }
}
