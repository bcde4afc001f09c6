/**
 * The `weight` table (main.py:121-132) keyed by its primary key `created_at`,
 * its conflict-skipping batch insert (`insert(...).on_conflict_do_nothing()`,
 * main.py:241-243) and the checkpoint query `get_last_weight_timestamp`
 * (main.py:253-261).
 */
module Repository {
  import opened Wrappers
  import opened Measures
  import opened Timestamps

  /** Rows of the weight table, by primary key. */
  type Rows = map<int, WeightRecord>

  function BatchKeys(batch: seq<WeightRecord>): set<int> {
    set i | 0 <= i < |batch| :: batch[i].createdAt
  }

  /** The keys an insert of `batch` adds to `rows`: the count it reports. */
  function NewKeys(rows: Rows, batch: seq<WeightRecord>): set<int> {
    BatchKeys(batch) - rows.Keys
  }

  /** One row of the statement: written unless its key is already taken. */
  function AddIfAbsent(rows: Rows, w: WeightRecord): Rows {
    if w.createdAt in rows then rows else rows[w.createdAt := w]
  }

  /** The table after a conflict-skipping insert of `batch`, row by row. */
  function InsertAll(rows: Rows, batch: seq<WeightRecord>): Rows
  {
    if batch == [] then rows
    else AddIfAbsent(InsertAll(rows, batch[..|batch| - 1]), batch[|batch| - 1])
  }

  /** The checkpoint: the newest stored timestamp, or none for an empty table. */
  ghost function Checkpoint(rows: Rows): (r: Option<int>)
    ensures r.None? <==> rows == map[]
    ensures r.Some? ==> r.value in rows && forall k :: k in rows ==> k <= r.value
  {
    if rows == map[] then None else Some(MaxKey(rows.Keys))
  }

  /** Existing rows are never changed or removed by the insert. */
  lemma {:induction false} InsertKeepsExisting(rows: Rows, batch: seq<WeightRecord>)
    ensures rows.Keys <= InsertAll(rows, batch).Keys
    ensures forall k :: k in rows ==> InsertAll(rows, batch)[k] == rows[k]
  {
    if batch != [] {
      InsertKeepsExisting(rows, batch[..|batch| - 1]);
    }
  }

  /** The insert adds exactly the batch's keys. */
  lemma {:induction false} InsertKeys(rows: Rows, batch: seq<WeightRecord>)
    ensures InsertAll(rows, batch).Keys == rows.Keys + BatchKeys(batch)
  {
    if batch != [] {
      var init := batch[..|batch| - 1];
      InsertKeys(rows, init);
      assert BatchKeys(batch) == BatchKeys(init) + {batch[|batch| - 1].createdAt} by {
        forall t | t in BatchKeys(batch) ensures t in BatchKeys(init) + {batch[|batch| - 1].createdAt} {
          var i :| 0 <= i < |batch| && batch[i].createdAt == t;
          if i < |batch| - 1 { assert init[i] == batch[i]; }
        }
        forall t | t in BatchKeys(init) ensures t in BatchKeys(batch) {
          var i :| 0 <= i < |init| && init[i].createdAt == t;
          assert batch[i] == init[i];
        }
      }
    }
  }

  /** A new key holds the first batch row that carries it; later duplicates are skipped. */
  lemma {:induction false} InsertFirstWins(rows: Rows, batch: seq<WeightRecord>, i: int)
    requires 0 <= i < |batch| && batch[i].createdAt !in rows
    requires forall j :: 0 <= j < i ==> batch[j].createdAt != batch[i].createdAt
    ensures batch[i].createdAt in InsertAll(rows, batch)
    ensures InsertAll(rows, batch)[batch[i].createdAt] == batch[i]
  {
    var n := |batch| - 1;
    var init := batch[..n];
    if i == n {
      InsertKeys(rows, init);
      assert forall j :: 0 <= j < |init| ==> init[j].createdAt != batch[i].createdAt by {
        forall j | 0 <= j < |init| ensures init[j].createdAt != batch[i].createdAt {
          assert init[j] == batch[j];
        }
      }
    } else {
      InsertFirstWins(rows, init, i);
    }
  }

  /** Inserting rows whose keys are all present changes nothing. */
  lemma {:induction false} InsertPresentIsNoop(rows: Rows, batch: seq<WeightRecord>)
    requires BatchKeys(batch) <= rows.Keys
    ensures InsertAll(rows, batch) == rows
  {
    if batch != [] {
      var init := batch[..|batch| - 1];
      assert BatchKeys(init) <= BatchKeys(batch) by {
        forall t | t in BatchKeys(init) ensures t in BatchKeys(batch) {
          var i :| 0 <= i < |init| && init[i].createdAt == t;
          assert batch[i] == init[i];
        }
      }
      InsertPresentIsNoop(rows, init);
      assert batch[|batch| - 1].createdAt in BatchKeys(batch);
    }
  }

  /**
   * Idempotence under retry: a second insert of the same batch leaves the
   * table as the first left it, and reports no new rows.
   */
  lemma InsertIdempotent(rows: Rows, batch: seq<WeightRecord>)
    ensures InsertAll(InsertAll(rows, batch), batch) == InsertAll(rows, batch)
    ensures NewKeys(InsertAll(rows, batch), batch) == {}
  {
    InsertKeys(rows, batch);
    InsertPresentIsNoop(InsertAll(rows, batch), batch);
  }

  /** The insert keeps every row under its own primary key. */
  lemma {:induction false} InsertKeepsKeyed(rows: Rows, batch: seq<WeightRecord>)
    requires Keyed(rows)
    ensures Keyed(InsertAll(rows, batch))
  {
    if batch != [] {
      InsertKeepsKeyed(rows, batch[..|batch| - 1]);
    }
  }

  /** The checkpoint never moves backwards across an insert, and a non-empty batch sets one. */
  lemma CheckpointMonotone(rows: Rows, batch: seq<WeightRecord>)
    ensures Checkpoint(rows).Some? ==> Checkpoint(InsertAll(rows, batch)).Some?
    ensures Checkpoint(rows).Some? ==> Checkpoint(InsertAll(rows, batch)).value >= Checkpoint(rows).value
    ensures batch != [] ==> Checkpoint(InsertAll(rows, batch)).Some?
  {
    InsertKeys(rows, batch);
    if batch != [] {
      assert batch[0].createdAt in InsertAll(rows, batch).Keys;
    }
  }

  lemma InsertStep(rows: Rows, batch: seq<WeightRecord>, i: int)
    requires 0 <= i < |batch|
    ensures InsertAll(rows, batch[..i + 1]) == AddIfAbsent(InsertAll(rows, batch[..i]), batch[i])
  {
    assert batch[..i + 1][..i] == batch[..i];
  }

  /** Writing a row under a key absent from both tables adds one new key. */
  lemma OneMoreNewKey(before: Rows, rows: Rows, w: WeightRecord)
    requires w.createdAt !in rows && before.Keys <= rows.Keys
    ensures |rows[w.createdAt := w].Keys - before.Keys| == |rows.Keys - before.Keys| + 1
  {
  }

  /** The `weight` table. */
  class WeightTable {
    var rows: Rows

    ghost predicate Valid()
      reads this
    {
      Keyed(rows)
    }

    constructor ()
      ensures Valid() && rows == map[]
    {
      rows := map[];
    }

    /**
     * `insert(weight).values(batch).on_conflict_do_nothing()`: rows whose key
     * is taken are skipped; the result is the number of rows written.
     */
    method InsertBatch(batch: seq<WeightRecord>) returns (count: nat)
      requires Valid()
      modifies this
      ensures Valid()
      ensures rows == InsertAll(old(rows), batch)
      ensures count == |NewKeys(old(rows), batch)|
    {
      var before, t := rows, rows;
      count := 0;
      for i := 0 to |batch|
        invariant t == InsertAll(before, batch[..i])
        invariant count == |t.Keys - before.Keys|
      {
        var w := batch[i];
        InsertStep(before, batch, i);
        if w.createdAt !in t {
          InsertKeepsExisting(before, batch[..i]);
          OneMoreNewKey(before, t, w);
          t := t[w.createdAt := w];
          count := count + 1;
        }
      }
      assert batch[..|batch|] == batch;
      InsertKeepsKeyed(before, batch);
      InsertKeys(before, batch);
      assert t.Keys - before.Keys == NewKeys(before, batch);
      rows := t;
    }

    /**
     * `get_last_weight_timestamp`: the greatest stored `created_at`
     * (`ORDER BY created_at DESC LIMIT 1`), or none when the table is empty.
     */
    method LastWeightTimestamp() returns (r: Option<int>)
      ensures r == Checkpoint(rows)
      ensures r.None? <==> rows == map[]
      ensures r.Some? ==> r.value in rows && forall k :: k in rows ==> k <= r.value
    {
      if rows == map[] {
        return None;
      }
      var m := Greatest(rows.Keys);
      r := Some(m);
    }
  }
}
