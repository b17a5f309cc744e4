/** The broadcast bus: subscriptions in a dense table with swap-remove, found through handles. What it
    broadcasts is a matter of the calls made on it so far. */
module DataBuses {
  import opened Bytes

  /** Point id of a subscription to every point. */
  const WILDCARD: nat := 0xFFFF_FFFF

  datatype Entry = Entry(pointId: nat, sub: nat)

  predicate Hears(e: Entry, p: nat) { e.pointId == p || e.pointId == WILDCARD }

  /** Subscribers called for a sample of point `p`, in table order. */
  function Targets(entries: seq<Entry>, p: nat): seq<nat> {
    if entries == [] then []
    else
      var last := entries[|entries| - 1];
      Targets(entries[..|entries| - 1], p) + if Hears(last, p) then [last.sub] else []
  }

  /** Live handles of subscriber `x` that hear point `p`. */
  function Listening(live: map<nat, Entry>, p: nat, x: nat): set<nat> {
    set h | h in live && Hears(live[h], p) && live[h].sub == x
  }

  ghost predicate InRange(entries: seq<Entry>, index: map<nat, nat>) {
    forall h :: h in index ==> index[h] < |entries|
  }

  /** Every handle names one slot, and every slot has one handle: slot `i` belongs to `owners[i]`. */
  ghost predicate Bijection(entries: seq<Entry>, index: map<nat, nat>, owners: seq<nat>) {
    && |owners| == |entries| && InRange(entries, index)
    && (forall h :: h in index ==> owners[index[h]] == h)
    && (forall i :: 0 <= i < |owners| ==> owners[i] in index && index[owners[i]] == i)
  }

  ghost function LiveOf(entries: seq<Entry>, index: map<nat, nat>): map<nat, Entry>
    requires InRange(entries, index)
  {
    map h | h in index :: entries[index[h]]
  }

  ghost function ListeningBelow(entries: seq<Entry>, index: map<nat, nat>, p: nat, x: nat, n: nat): set<nat>
    requires InRange(entries, index)
  {
    set h | h in index && index[h] < n && Hears(entries[index[h]], p) && entries[index[h]].sub == x
  }

  /** One more slot brings the one handle that owns it. */
  lemma {:induction false} OneMoreSlot(entries: seq<Entry>, index: map<nat, nat>, owners: seq<nat>, p: nat, x: nat,
                                       i: nat)
    requires Bijection(entries, index, owners) && i < |entries|
    ensures |ListeningBelow(entries, index, p, x, i + 1)|
         == |ListeningBelow(entries, index, p, x, i)| + if Hears(entries[i], p) && entries[i].sub == x then 1 else 0
  {
    var fewer := ListeningBelow(entries, index, p, x, i);
    assert ListeningBelow(entries, index, p, x, i + 1)
        == if Hears(entries[i], p) && entries[i].sub == x then fewer + {owners[i]} else fewer;
  }

  /** The dense table calls each subscriber as often as it has live handles that hear the point. */
  lemma {:induction false} TargetsCount(entries: seq<Entry>, index: map<nat, nat>, owners: seq<nat>, p: nat, x: nat,
                                        n: nat)
    requires Bijection(entries, index, owners) && n <= |entries|
    ensures multiset(Targets(entries[..n], p))[x] == |ListeningBelow(entries, index, p, x, n)|
  {
    if n == 0 {
      assert ListeningBelow(entries, index, p, x, 0) == {};
    } else {
      TargetsCount(entries, index, owners, p, x, n - 1);
      OneMoreSlot(entries, index, owners, p, x, n - 1);
      hide Bijection;
      hide ListeningBelow;
      assert entries[..n][..n - 1] == entries[..n - 1];
    }
  }

  lemma {:induction false} TargetsAreListeners(entries: seq<Entry>, index: map<nat, nat>, owners: seq<nat>, p: nat,
                                               x: nat)
    requires Bijection(entries, index, owners)
    ensures multiset(Targets(entries, p))[x] == |Listening(LiveOf(entries, index), p, x)|
  {
    TargetsCount(entries, index, owners, p, x, |entries|);
    assert entries[..|entries|] == entries;
    assert ListeningBelow(entries, index, p, x, |entries|) == Listening(LiveOf(entries, index), p, x);
  }

  // ---- the slot moved by a removal ----

  function Removed<T>(s: seq<T>, i: nat): seq<T>
    requires i < |s|
  {
    s[i := s[|s| - 1]][..|s| - 1]
  }

  function Reindexed(index: map<nat, nat>, handle: nat, i: nat, last: nat): map<nat, nat> {
    (map h | h in index :: if index[h] == last then i else index[h]) - {handle}
  }

  lemma {:induction false} RemovalBijection(entries: seq<Entry>, index: map<nat, nat>, owners: seq<nat>, handle: nat)
    requires Bijection(entries, index, owners) && handle in index
    ensures var i := index[handle];
      Bijection(Removed(entries, i), Reindexed(index, handle, i, |entries| - 1), Removed(owners, i))
  {
  }

  /** Moving the last slot into the hole forgets one handle and leaves the others as they were. */
  lemma {:induction false} RemovalLive(entries: seq<Entry>, index: map<nat, nat>, owners: seq<nat>, handle: nat)
    requires Bijection(entries, index, owners) && handle in index
    ensures var i := index[handle];
      var entries', index' := Removed(entries, i), Reindexed(index, handle, i, |entries| - 1);
      InRange(entries', index') && LiveOf(entries', index') == LiveOf(entries, index) - {handle}
  {
    var i := index[handle];
    var entries', index' := Removed(entries, i), Reindexed(index, handle, i, |entries| - 1);
    RemovalBijection(entries, index, owners, handle);
    var before, after := LiveOf(entries, index), LiveOf(entries', index');
    forall h | h in after ensures h in before - {handle} && after[h] == before[h] {
      assert owners[index[h]] == h;
    }
    assert after.Keys == before.Keys - {handle};
  }

  lemma {:induction false} AppendKeeps(entries: seq<Entry>, index: map<nat, nat>, owners: seq<nat>, handle: nat,
                                       e: Entry)
    requires Bijection(entries, index, owners) && handle !in index
    ensures Bijection(entries + [e], index[handle := |entries|], owners + [handle])
    ensures LiveOf(entries + [e], index[handle := |entries|]) == LiveOf(entries, index)[handle := e]
  {
    var entries', index' := entries + [e], index[handle := |entries|];
    assert LiveOf(entries', index').Keys == LiveOf(entries, index).Keys + {handle};
  }

  // ---- the calls made so far ----

  /** The calls that the bus has taken, with the handles it gave out. */
  datatype Call =
    | Subscribed(p: nat, x: nat, handle: nat)
    | SubscribedToAll(x: nat, handle: nat)
    | Unsubscribed(handle: nat)

  /** Call `k` is a subscription, and its handle has not been unsubscribed since. */
  ghost predicate Stands(calls: seq<Call>, k: nat) {
    && k < |calls| && !calls[k].Unsubscribed?
    && forall l :: k < l < |calls| ==> calls[l] != Unsubscribed(calls[k].handle)
  }

  /** The call asks for samples of point `p` on behalf of `x`; point 0xFFFFFFFF asks for all points. */
  predicate Asks(c: Call, p: nat, x: nat) {
    match c
    case Subscribed(q, y, _) => y == x && (q == p || q == 0xFFFF_FFFF)
    case SubscribedToAll(y, _) => y == x
    case Unsubscribed(_) => false
  }

  ghost function Standing(calls: seq<Call>): set<nat> {
    set k: nat | k < |calls| && Stands(calls, k)
  }

  ghost function Asking(calls: seq<Call>, p: nat, x: nat): set<nat> {
    set k: nat | k < |calls| && Stands(calls, k) && Asks(calls[k], p, x)
  }

  function EntryOf(c: Call): Entry
    requires !c.Unsubscribed?
  {
    match c
    case Subscribed(p, x, _) => Entry(p, x)
    case SubscribedToAll(x, _) => Entry(WILDCARD, x)
  }

  ghost predicate StandsUnder(calls: seq<Call>, k: nat, handle: nat) {
    Stands(calls, k) && calls[k].handle == handle
  }

  ghost predicate HandlesApart(calls: seq<Call>, next: nat) {
    && (forall k :: 0 <= k < |calls| && !calls[k].Unsubscribed? ==> 0 < calls[k].handle < next)
    && (forall k, l :: 0 <= k < l < |calls| && !calls[k].Unsubscribed? && !calls[l].Unsubscribed? ==>
          calls[k].handle != calls[l].handle)
  }

  ghost predicate Shown(live: map<nat, Entry>, c: Call)
    requires !c.Unsubscribed?
  {
    c.handle in live && live[c.handle] == EntryOf(c)
  }

  /** Handles are given out once, and the live ones are those of the standing calls. */
  ghost predicate Traced(live: map<nat, Entry>, calls: seq<Call>, next: nat) {
    && HandlesApart(calls, next)
    && (forall k: nat :: Stands(calls, k) ==> Shown(live, calls[k]))
    && (forall h :: h in live ==> exists k :: StandsUnder(calls, k, h))
  }

  lemma {:induction false} StandsLater(calls: seq<Call>, c: Call, k: nat)
    ensures Stands(calls + [c], k)
      <==> if k == |calls| then !c.Unsubscribed? else Stands(calls, k) && c != Unsubscribed(calls[k].handle)
  {
    var all := calls + [c];
    assert all[|calls|] == c;
    assert forall l :: 0 <= l < |calls| ==> all[l] == calls[l];
  }

  lemma {:induction false} UnderLater(calls: seq<Call>, c: Call, k: nat, h: nat)
    requires StandsUnder(calls, k, h) && c != Unsubscribed(h)
    ensures StandsUnder(calls + [c], k, h)
  {
    StandsLater(calls, c, k);
  }

  lemma {:induction false} SubscribeTraced(live: map<nat, Entry>, calls: seq<Call>, next: nat, c: Call)
    requires Traced(live, calls, next) && next > 0 && !c.Unsubscribed? && c.handle == next
    ensures next !in live && Traced(live[next := EntryOf(c)], calls + [c], next + 1)
  {
    var all, live' := calls + [c], live[next := EntryOf(c)];
    forall h | h in live ensures h < next {
      var k: nat :| StandsUnder(calls, k, h);
    }
    assert HandlesApart(all, next + 1);
    forall k: nat | Stands(all, k) ensures Shown(live', all[k]) {
      StandsLater(calls, c, k);
      hide Stands;
      assert k < |calls| ==> Shown(live, calls[k]) && all[k] == calls[k];
    }
    forall h | h in live' ensures exists k :: StandsUnder(all, k, h) {
      if h == next {
        StandsLater(calls, c, |calls|);
        assert StandsUnder(all, |calls|, h);
      } else {
        var k: nat :| StandsUnder(calls, k, h);
        UnderLater(calls, c, k, h);
      }
    }
  }

  lemma {:induction false} UnsubscribeTraced(live: map<nat, Entry>, calls: seq<Call>, next: nat, handle: nat)
    requires Traced(live, calls, next)
    ensures Traced(live - {handle}, calls + [Unsubscribed(handle)], next)
  {
    var c := Unsubscribed(handle);
    var all, live' := calls + [c], live - {handle};
    assert HandlesApart(all, next);
    forall k: nat | Stands(all, k) ensures Shown(live', all[k]) {
      StandsLater(calls, c, k);
      hide Stands;
      assert Shown(live, calls[k]) && all[k] == calls[k];
    }
    forall h | h in live' ensures exists k :: StandsUnder(all, k, h) {
      var k: nat :| StandsUnder(calls, k, h);
      UnderLater(calls, c, k, h);
    }
  }

  lemma {:induction false} LiveUnder(live: map<nat, Entry>, calls: seq<Call>, next: nat, handle: nat)
    requires Traced(live, calls, next)
    ensures handle in live <==> exists k :: StandsUnder(calls, k, handle)
    ensures 0 !in live
  {
    forall k: nat | StandsUnder(calls, k, handle) ensures handle in live {
      assert Shown(live, calls[k]);
    }
    forall h | h in live ensures h > 0 {
      var k: nat :| StandsUnder(calls, k, h);
    }
  }

  /** Distinct handles: as many handles as calls. */
  lemma {:induction false} HandleCount(calls: seq<Call>, ks: set<nat>, hs: set<nat>)
    requires forall k :: k in ks ==> k < |calls| && calls[k].handle in hs
    requires forall h :: h in hs ==> exists k :: k in ks && calls[k].handle == h
    requires forall k, l :: k in ks && l in ks && k != l ==> calls[k].handle != calls[l].handle
    ensures |ks| == |hs|
  {
    if ks != {} {
      var k :| k in ks;
      HandleCount(calls, ks - {k}, hs - {calls[k].handle});
    } else {
      assert hs == {};
    }
  }

  lemma {:induction false} ListeningCount(live: map<nat, Entry>, calls: seq<Call>, next: nat, p: nat, x: nat)
    requires Traced(live, calls, next)
    ensures |Listening(live, p, x)| == |Asking(calls, p, x)|
  {
    var ks, hs := Asking(calls, p, x), Listening(live, p, x);
    forall k | k in ks ensures k < |calls| && !calls[k].Unsubscribed? && calls[k].handle in hs {
      assert Shown(live, calls[k]);
    }
    forall h | h in hs ensures exists k :: k in ks && calls[k].handle == h {
      var k: nat :| StandsUnder(calls, k, h);
      assert Shown(live, calls[k]);
      assert k in ks;
    }
    hide Stands;
    HandleCount(calls, ks, hs);
  }

  lemma {:induction false} LiveCount(live: map<nat, Entry>, calls: seq<Call>, next: nat)
    requires Traced(live, calls, next)
    ensures |live| == |Standing(calls)|
  {
    var ks := Standing(calls);
    forall k | k in ks ensures k < |calls| && !calls[k].Unsubscribed? && calls[k].handle in live.Keys {
      assert Shown(live, calls[k]);
    }
    forall h | h in live.Keys ensures exists k :: k in ks && calls[k].handle == h {
      var k: nat :| StandsUnder(calls, k, h);
      assert k in ks;
    }
    hide Stands;
    HandleCount(calls, ks, live.Keys);
    assert |live| == |live.Keys|;
  }

  class DataBus {
    var entries: seq<Entry>
    var handleIndex: map<nat, nat>
    var nextHandle: nat
    ghost var owners: seq<nat>
    ghost var calls: seq<Call>

    ghost predicate Valid()
      reads this
    {
      && nextHandle > 0 && Bijection(entries, handleIndex, owners)
      && Traced(LiveOf(entries, handleIndex), calls, nextHandle)
    }

    ghost function Live(): map<nat, Entry>
      requires Valid()
      reads this
    {
      LiveOf(entries, handleIndex)
    }

    constructor ()
      ensures Valid() && Live() == map[] && nextHandle == 1 && calls == []
    {
      entries, handleIndex, nextHandle, owners, calls := [], map[], 1, [], [];
    }

    /** Adds a row under the next handle; `c` is the call that asked for it. */
    method Add(e: Entry, ghost c: Call) returns (handle: nat)
      requires Valid() && !c.Unsubscribed? && c.handle == nextHandle && EntryOf(c) == e
      modifies this
      ensures Valid() && handle == old(nextHandle) && nextHandle == handle + 1 && calls == old(calls) + [c]
      ensures handle > 0 && handle !in old(Live()) && Live() == old(Live())[handle := e]
    {
      handle := nextHandle;
      SubscribeTraced(Live(), calls, nextHandle, c);
      AppendKeeps(entries, handleIndex, owners, handle, e);
      hide Bijection;
      hide Traced;
      nextHandle := nextHandle + 1;
      var idx := |entries|;
      entries := entries + [e];
      handleIndex := handleIndex[handle := idx];
      owners := owners + [handle];
      calls := calls + [c];
    }

    /** A missing subscriber is refused with handle 0; every other handle is new. */
    method Subscribe(pointId: nat, sub: Option<nat>) returns (handle: nat)
      requires Valid()
      modifies this
      ensures Valid()
      ensures sub.None? ==> handle == 0 && calls == old(calls) && nextHandle == old(nextHandle)
      ensures sub.Some? ==> handle == old(nextHandle) && handle > 0 && nextHandle == handle + 1
      ensures sub.Some? ==> calls == old(calls) + [Subscribed(pointId, sub.value, handle)]
    {
      if sub.None? {
        return 0;
      }
      handle := Add(Entry(pointId, sub.value), Subscribed(pointId, sub.value, nextHandle));
    }

    method SubscribeWildcard(sub: Option<nat>) returns (handle: nat)
      requires Valid()
      modifies this
      ensures Valid()
      ensures sub.None? ==> handle == 0 && calls == old(calls) && nextHandle == old(nextHandle)
      ensures sub.Some? ==> handle == old(nextHandle) && handle > 0 && nextHandle == handle + 1
      ensures sub.Some? ==> calls == old(calls) + [SubscribedToAll(sub.value, handle)]
    {
      if sub.None? {
        return 0;
      }
      handle := Add(Entry(WILDCARD, sub.value), SubscribedToAll(sub.value, nextHandle));
    }

    /** Looks through the handles, in any order, for the one of the last slot and moves it to `idx`. */
    method Repoint(idx: nat, last: nat)
      requires Bijection(entries, handleIndex, owners) && idx < last < |entries|
      modifies this`handleIndex
      ensures handleIndex ==
              map h | h in old(handleIndex) :: if old(handleIndex)[h] == last then idx else old(handleIndex)[h]
    {
      var todo := handleIndex.Keys;
      while todo != {}
        invariant todo <= handleIndex.Keys && handleIndex == old(handleIndex)
        invariant forall h :: h in handleIndex && h !in todo ==> handleIndex[h] != last
        decreases |todo|
      {
        var h :| h in todo;
        if handleIndex[h] == last {
          handleIndex := handleIndex[h := idx];
          return;
        }
        todo := todo - {h};
      }
    }

    /** Swaps the last slot into the hole. */
    method SwapRemove(handle: nat)
      requires Bijection(entries, handleIndex, owners) && handle in handleIndex
      modifies this`entries, this`handleIndex, this`owners
      ensures var i := old(handleIndex)[handle];
        && entries == Removed(old(entries), i)
        && handleIndex == Reindexed(old(handleIndex), handle, i, |old(entries)| - 1)
        && owners == Removed(old(owners), i)
    {
      var idx := handleIndex[handle];
      var last: nat := |entries| - 1;
      if idx != last {
        Repoint(idx, last);
        entries := entries[idx := entries[last]];
      }
      entries := entries[..last];
      handleIndex := handleIndex - {handle};
      owners := Removed(owners, idx);
    }

    /** True exactly for a handle that some call still stands under. */
    method Unsubscribe(handle: nat) returns (ok: bool)
      requires Valid()
      modifies this`entries, this`handleIndex, this`owners, this`calls
      ensures Valid() && calls == old(calls) + [Unsubscribed(handle)]
      ensures ok <==> exists k :: StandsUnder(old(calls), k, handle)
      ensures Live() == old(Live()) - {handle}
    {
      ok := handle != 0 && handle in handleIndex;
      LiveUnder(Live(), calls, nextHandle, handle);
      UnsubscribeTraced(Live(), calls, nextHandle, handle);
      hide Traced;
      hide StandsUnder;
      if ok {
        RemovalBijection(entries, handleIndex, owners, handle);
        RemovalLive(entries, handleIndex, owners, handle);
        SwapRemove(handle);
      } else {
        assert Live() - {handle} == Live();
      }
      calls := calls + [Unsubscribed(handle)];
    }

    /** The subscribers called: each as often as calls that ask for the point, or for all points, still
        stand. */
    method Broadcast(p: nat) returns (targets: seq<nat>)
      requires Valid()
      ensures forall x :: multiset(targets)[x] == |Asking(calls, p, x)|
    {
      targets := [];
      for i := 0 to |entries|
        invariant targets == Targets(entries[..i], p)
      {
        assert entries[..i + 1][..i] == entries[..i];
        if Hears(entries[i], p) {
          targets := targets + [entries[i].sub];
        }
      }
      assert entries[..|entries|] == entries;
      forall x ensures multiset(targets)[x] == |Asking(calls, p, x)| {
        TargetsAreListeners(entries, handleIndex, owners, p, x);
        ListeningCount(Live(), calls, nextHandle, p, x);
      }
    }

    method SubscriberCount() returns (n: nat)
      requires Valid()
      ensures n == |Standing(calls)|
    {
      n := |entries|;
      SlotsAndHandles(entries, handleIndex, owners, n);
      assert HandlesBelow(handleIndex, n) == Live().Keys;
      assert |Live()| == |Live().Keys|;
      LiveCount(Live(), calls, nextHandle);
    }
  }

  ghost function HandlesBelow(index: map<nat, nat>, n: nat): set<nat> {
    set h | h in index && index[h] < n
  }

  lemma {:induction false} SlotsAndHandles(entries: seq<Entry>, index: map<nat, nat>, owners: seq<nat>, n: nat)
    requires Bijection(entries, index, owners) && n <= |entries|
    ensures |HandlesBelow(index, n)| == n
  {
    if n > 0 {
      SlotsAndHandles(entries, index, owners, n - 1);
      assert HandlesBelow(index, n) == HandlesBelow(index, n - 1) + {owners[n - 1]};
    }
  }
}
