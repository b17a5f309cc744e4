/** The month files of the history store: one table a month, keyed by point and time stamp, filled a batch
    at a time. */
module HistoryFiling {
  import D = DownSampling

  predicate SameKey(a: D.Rolled, b: D.Rolled) { a.pointId == b.pointId && a.timestamp == b.timestamp }

  /** The primary key holds. */
  predicate Keyed(rows: seq<D.Rolled>) {
    forall i, j :: 0 <= i < j < |rows| ==> !SameKey(rows[i], rows[j])
  }

  /** The month takes the batch: nothing is broken, and no key occurs twice. */
  predicate Accepts(rows: seq<D.Rolled>, batch: seq<D.Rolled>, broken: bool) {
    batch == [] || (!broken && Keyed(rows + batch))
  }

  /** A batch goes in as a whole or not at all. */
  function Inserted(rows: seq<D.Rolled>, batch: seq<D.Rolled>, broken: bool): seq<D.Rolled> {
    if Accepts(rows, batch, broken) then rows + batch else rows
  }

  lemma EmptyBatch()
    ensures forall rows, broken :: Accepts(rows, [], broken) && Inserted(rows, [], broken) == rows
  {
    forall rows, broken ensures Inserted(rows, [], broken) == rows {
      assert rows + [] == rows;
    }
  }

  predicate KeyIn(rows: seq<D.Rolled>, x: D.Rolled) {
    exists k :: 0 <= k < |rows| && SameKey(rows[k], x)
  }

  lemma KeyedAppend(rows: seq<D.Rolled>, x: D.Rolled)
    ensures Keyed(rows + [x]) <==> Keyed(rows) && !KeyIn(rows, x)
  {
    var all := rows + [x];
    assert all[|rows|] == x;
    assert forall k :: 0 <= k < |rows| ==> all[k] == rows[k];
    hide SameKey;
  }

  lemma KeyedPart(rows: seq<D.Rolled>, more: seq<D.Rolled>)
    requires Keyed(rows + more)
    ensures Keyed(rows)
  {
    assert forall k :: 0 <= k < |rows| ==> (rows + more)[k] == rows[k];
  }

  lemma PrefixBreaks(base: seq<D.Rolled>, samples: seq<D.Rolled>, done: nat)
    requires done < |samples| && KeyIn(base + samples[..done], samples[done])
    ensures !Keyed(base + samples)
  {
    var all := base + samples;
    var k :| 0 <= k < |base + samples[..done]| && SameKey((base + samples[..done])[k], samples[done]);
    assert all[k] == (base + samples[..done])[k] && all[|base| + done] == samples[done];
  }

  /** Rows go in one by one; the first one whose key is taken undoes them all. */
  method InsertRows(base: seq<D.Rolled>, samples: seq<D.Rolled>) returns (ok: bool, rows: seq<D.Rolled>)
    requires Keyed(base)
    ensures ok <==> Keyed(base + samples)
    ensures rows == if ok then base + samples else base
  {
    hide Keyed;
    rows := base;
    assert base + samples[..0] == base;
    for done := 0 to |samples|
      invariant rows == base + samples[..done] && Keyed(rows)
    {
      KeyedAppend(rows, samples[done]);
      assert rows + [samples[done]] == base + samples[..done + 1];
      if KeyIn(rows, samples[done]) {
        PrefixBreaks(base, samples, done);
        return false, base;
      }
      rows := rows + [samples[done]];
    }
    assert samples[..|samples|] == samples;
    ok := true;
  }

  function RowsOf(tables: map<nat, seq<D.Rolled>>, m: nat): seq<D.Rolled> {
    if m in tables then tables[m] else []
  }

  class HistoryFiles {
    var tables: map<nat, seq<D.Rolled>>

    ghost predicate Valid()
      reads this
    {
      forall m: nat :: Keyed(RowsOf(tables, m))
    }

    constructor ()
      ensures Valid() && forall m: nat :: RowsOf(tables, m) == []
    {
      tables := map[];
    }

    /** One transaction: the first row whose key is taken rolls everything back. `broken`: the file cannot
        be opened, or the transaction cannot begin or commit. */
    method BatchInsert(m: nat, samples: seq<D.Rolled>, broken: bool) returns (ok: bool)
      requires Valid()
      modifies this
      ensures Valid() && (ok <==> Accepts(old(RowsOf(tables, m)), samples, broken))
      ensures RowsOf(tables, m) == Inserted(old(RowsOf(tables, m)), samples, broken)
      ensures forall other: nat :: other != m ==> RowsOf(tables, other) == old(RowsOf(tables, other))
    {
      hide Keyed;
      assert RowsOf(tables, m) + [] == RowsOf(tables, m);
      if samples == [] {
        return true;
      }
      if broken {
        return false;
      }
      var rows;
      ok, rows := InsertRows(RowsOf(tables, m), samples);
      if ok {
        tables := tables[m := rows];
      }
      assert forall other: nat :: other != m ==> RowsOf(tables, other) == old(RowsOf(tables, other));
    }
  }
}
