/**
 * One iteration of the `monitor_weight` loop (main.py:214-250): read the
 * checkpoint, fetch since it, normalise, insert skipping conflicts, and
 * compute how long to sleep.
 */
module Sync {
  import opened Wrappers
  import opened Measures
  import opened Normaliser
  import opened Repository
  import opened Timestamps

  const MicrosPerSecond: int := 1_000_000
  const SecondsPerDay: int := 86_400

  /**
   * `(Arrow.now() - start_time).seconds`: the `seconds` attribute of a Python
   * timedelta is only its seconds-within-a-day component; whole days and the
   * microseconds are dropped. `elapsedMicros` is the true elapsed time.
   */
  function TimedeltaSeconds(elapsedMicros: int): (s: int)
    ensures 0 <= s < SecondsPerDay
    ensures 0 <= elapsedMicros < SecondsPerDay * MicrosPerSecond ==>
              s * MicrosPerSecond <= elapsedMicros < (s + 1) * MicrosPerSecond
  {
    (elapsedMicros / MicrosPerSecond) % SecondsPerDay
  }

  /** `sleep_for` as main.py:248 computes it: not clamped. */
  function SleepForAsWritten(refreshSeconds: int, elapsedMicros: int): (r: int)
    ensures refreshSeconds - SecondsPerDay < r <= refreshSeconds
  {
    refreshSeconds - TimedeltaSeconds(elapsedMicros)
  }

  /** An iteration slower than the period gives a negative pause, which `time.sleep` rejects. */
  lemma SlowCycleSleepsNegative()
    ensures SleepForAsWritten(60, 90 * MicrosPerSecond) == -30
  {
  }

  /**
   * A wall clock stepped back by one microsecond during the iteration: the
   * timedelta normalises to -1 day plus 86399 seconds, so the pause is far below zero.
   */
  lemma ClockStepBackSleepsNegative()
    ensures TimedeltaSeconds(-1) == SecondsPerDay - 1
    ensures SleepForAsWritten(60, -1) == 60 - (SecondsPerDay - 1) < 0
  {
  }

  /** An iteration longer than a day reads as a short one, so the loop still waits. */
  lemma DayLongCycleReadsAsShort()
    ensures SleepForAsWritten(3600, (SecondsPerDay + 30) * MicrosPerSecond) == 3570
    ensures (SecondsPerDay + 30) > 3600
  {
  }

  /** Whole seconds elapsed, rounded down. */
  function ElapsedSeconds(elapsedMicros: int): int {
    elapsedMicros / MicrosPerSecond
  }

  /**
   * The intended pause: what remains of the period after the iteration, or
   * nothing when the iteration used the whole period.
   */
  function SleepFor(refreshSeconds: int, elapsedMicros: int): (r: int)
    ensures r >= 0
    ensures r >= refreshSeconds - ElapsedSeconds(elapsedMicros)
    ensures r == 0 || r == refreshSeconds - ElapsedSeconds(elapsedMicros)
  {
    var remaining := refreshSeconds - ElapsedSeconds(elapsedMicros);
    if remaining < 0 then 0 else remaining
  }

  /** Pause plus elapsed time covers the period, and overshoots it only when the period was already spent. */
  lemma SleepForKeepsCadence(refreshSeconds: int, elapsedMicros: int)
    ensures ElapsedSeconds(elapsedMicros) + SleepFor(refreshSeconds, elapsedMicros) >= refreshSeconds
    ensures ElapsedSeconds(elapsedMicros) <= refreshSeconds ==>
              ElapsedSeconds(elapsedMicros) + SleepFor(refreshSeconds, elapsedMicros) == refreshSeconds
  {
  }

  /** Within a day and within the period, the code as written computes the intended pause. */
  lemma SleepForAgreesWhenShort(refreshSeconds: int, elapsedMicros: int)
    requires 0 <= elapsedMicros < SecondsPerDay * MicrosPerSecond
    requires ElapsedSeconds(elapsedMicros) <= refreshSeconds
    ensures SleepForAsWritten(refreshSeconds, elapsedMicros) == SleepFor(refreshSeconds, elapsedMicros)
  {
  }

  /**
   * One pass of the loop body. `fetch` stands for the provider's
   * `measure_get_meas(startdate=...)`; `storageAvailable` says whether the
   * insert statement succeeds (a failed statement leaves the table unchanged;
   * the `SQLAlchemyError` is caught and logged inside the transaction block);
   * `elapsedMicros` is the iteration's wall-clock duration.
   * `sleepRaises` says that `sleep(sleep_for)` raises and ends the loop.
   */
  method SyncOnce(
    table: WeightTable,
    fetch: Option<int> -> seq<MeasureGroup>,
    storageAvailable: bool,
    refreshSeconds: int,
    elapsedMicros: int)
    returns (since: Option<int>, batch: seq<WeightRecord>, inserted: Option<nat>, sleepFor: int, sleepRaises: bool)
    requires table.Valid()
    modifies table
    ensures table.Valid()
    ensures since == Checkpoint(old(table.rows))
    ensures IsNormalisation(fetch(since), batch)
    ensures storageAvailable ==>
              table.rows == InsertAll(old(table.rows), batch) && inserted == Some(|NewKeys(old(table.rows), batch)|)
    ensures !storageAvailable ==> table.rows == old(table.rows) && inserted == None
    ensures sleepFor == SleepForAsWritten(refreshSeconds, elapsedMicros)
    ensures sleepRaises <==> sleepFor < 0
  {
    since := table.LastWeightTimestamp();
    var groups := fetch(since);
    batch := MeasuresToWeights(groups);
    if storageAvailable {
      var count := table.InsertBatch(batch);
      inserted := Some(count);
    } else {
      inserted := None;
    }
    sleepFor := SleepForAsWritten(refreshSeconds, elapsedMicros);
    sleepRaises := sleepFor < 0;
  }

  /** The table after one iteration, as a function of the table before it. */
  function AfterCycle(rows: Rows, batch: seq<WeightRecord>, storageAvailable: bool): Rows {
    if storageAvailable then InsertAll(rows, batch) else rows
  }

  /**
   * An iteration never loses or rewrites a stored row, and the checkpoint it
   * leaves is no earlier than the one it read.
   */
  lemma CycleKeepsHistory(rows: Rows, batch: seq<WeightRecord>, storageAvailable: bool)
    ensures forall k :: k in rows ==>
              (k in AfterCycle(rows, batch, storageAvailable) && AfterCycle(rows, batch, storageAvailable)[k] == rows[k])
    ensures Checkpoint(rows).Some? ==>
              Checkpoint(AfterCycle(rows, batch, storageAvailable)).Some? &&
              Checkpoint(AfterCycle(rows, batch, storageAvailable)).value >= Checkpoint(rows).value
  {
    InsertKeepsExisting(rows, batch);
    CheckpointMonotone(rows, batch);
  }

  /**
   * The fetch starts at the checkpoint, so the newest stored reading comes
   * back again; the insert keeps the stored row and does not count it.
   */
  lemma RefetchedCheckpointSkipped(rows: Rows, batch: seq<WeightRecord>, i: int)
    requires Checkpoint(rows).Some?
    requires 0 <= i < |batch| && batch[i].createdAt == Checkpoint(rows).value
    ensures batch[i].createdAt in rows && batch[i].createdAt in InsertAll(rows, batch)
    ensures InsertAll(rows, batch)[batch[i].createdAt] == rows[batch[i].createdAt]
    ensures batch[i].createdAt !in NewKeys(rows, batch)
  {
    InsertKeepsExisting(rows, batch);
  }

  const ScenarioT1 := MeasureGroup(1000, [Measure(Weight, 70000)])
  const ScenarioT2 := MeasureGroup(2000, [Measure(Weight, 70500), Measure(FatMassWeight, 15000)])
  const ScenarioT3 := MeasureGroup(3000, [Measure(Weight, 70200)])

  lemma ScenarioFolds()
    ensures Normalised(ScenarioT1).weight == 70000 && Normalised(ScenarioT1).fatMass == None
    ensures Normalised(ScenarioT2).weight == 70500 && Normalised(ScenarioT2).fatMass == Some(15000)
  {
    var ms := ScenarioT2.measures;
    assert ms[..1] == [Measure(Weight, 70500)];
    assert ms[..1][..0] == [];
  }

  /**
   * Two iterations on an empty table, storage available: the provider first
   * returns groups at T1 < T2, which are stored and make T2 the checkpoint;
   * it then returns the same two groups plus one at T3, and only T3 is added.
   */
  method RunTwoCycles(g1: MeasureGroup, g2: MeasureGroup, g3: MeasureGroup)
    returns (first: Rows, checkpoint: Option<int>, firstCount: Option<nat>, second: Rows, secondCount: Option<nat>)
    requires g1.created == 1000 && g2.created == 2000 && g3.created == 3000
    ensures first == map[1000 := Normalised(g1), 2000 := Normalised(g2)]
    ensures checkpoint == Some(2000) && firstCount == Some(2)
    ensures second == first[3000 := Normalised(g3)] && secondCount == Some(1)
  {
    var t := new WeightTable();
    firstCount := FirstCycle(t, g1, g2);
    first := t.rows;
    checkpoint := t.LastWeightTimestamp();
    secondCount := SecondCycle(t, g1, g2, g3);
    second := t.rows;
  }

  /** First iteration of the scenario: both groups are new. */
  method FirstCycle(t: WeightTable, g1: MeasureGroup, g2: MeasureGroup) returns (count: Option<nat>)
    requires g1.created == 1000 && g2.created == 2000
    requires t.Valid() && t.rows == map[]
    modifies t
    ensures t.Valid() && t.rows == map[1000 := Normalised(g1), 2000 := Normalised(g2)]
    ensures Checkpoint(t.rows) == Some(2000) && count == Some(2)
  {
    var groups := [g1, g2];
    var fetch: Option<int> -> seq<MeasureGroup> := _ => groups;
    var since, batch, pause, raises;
    since, batch, count, pause, raises := SyncOnce(t, fetch, true, 3600, 0);
    assert fetch(since) == groups;
    FirstCycleBatch(g1, g2, batch);
  }

  /** Second iteration of the scenario: the fetch repeats T1 and T2 and adds T3. */
  method SecondCycle(t: WeightTable, g1: MeasureGroup, g2: MeasureGroup, g3: MeasureGroup) returns (count: Option<nat>)
    requires g1.created == 1000 && g2.created == 2000 && g3.created == 3000
    requires t.Valid() && t.rows == map[1000 := Normalised(g1), 2000 := Normalised(g2)]
    modifies t
    ensures t.Valid() && t.rows == old(t.rows)[3000 := Normalised(g3)]
    ensures count == Some(1)
  {
    var groups := [g1, g2, g3];
    var fetch: Option<int> -> seq<MeasureGroup> := _ => groups;
    var since, batch, pause, raises;
    since, batch, count, pause, raises := SyncOnce(t, fetch, true, 3600, 0);
    assert fetch(since) == groups;
    SecondCycleBatch(g1, g2, g3, batch);
  }

  /** The same two iterations with readings T1: WEIGHT 70000; T2: WEIGHT 70500, FAT_MASS 15000; T3: WEIGHT 70200. */
  method TwoCycleScenario()
    returns (first: Rows, checkpoint: Option<int>, firstCount: Option<nat>, second: Rows, secondCount: Option<nat>)
    ensures first.Keys == {1000, 2000}
    ensures first[1000].weight == 70000 && first[1000].fatMass == None
    ensures first[2000].weight == 70500 && first[2000].fatMass == Some(15000)
    ensures checkpoint == Some(2000) && firstCount == Some(2)
    ensures second.Keys == {1000, 2000, 3000} && secondCount == Some(1)
    ensures second[1000] == first[1000] && second[2000] == first[2000]
  {
    ScenarioFolds();
    first, checkpoint, firstCount, second, secondCount := RunTwoCycles(ScenarioT1, ScenarioT2, ScenarioT3);
  }

  /** What the first iteration stores, given that its batch normalises the two groups. */
  lemma FirstCycleBatch(g1: MeasureGroup, g2: MeasureGroup, batch: seq<WeightRecord>)
    requires g1.created == 1000 && g2.created == 2000
    requires IsNormalisation([g1, g2], batch)
    ensures InsertAll(map[], batch) == map[1000 := Normalised(g1), 2000 := Normalised(g2)]
    ensures |NewKeys(map[], batch)| == 2
    ensures Checkpoint(map[1000 := Normalised(g1), 2000 := Normalised(g2)]) == Some(2000)
  {
    AscendingNormalisationIsFoldEach([g1, g2], batch);
    assert batch == [Normalised(g1), Normalised(g2)];
    FirstCycleRows(Normalised(g1), Normalised(g2));
  }

  lemma FirstCycleRows(n1: WeightRecord, n2: WeightRecord)
    requires n1.createdAt == 1000 && n2.createdAt == 2000
    ensures InsertAll(map[], [n1, n2]) == map[1000 := n1, 2000 := n2]
    ensures |NewKeys(map[], [n1, n2])| == 2
    ensures Checkpoint(map[1000 := n1, 2000 := n2]) == Some(2000)
  {
    var b := [n1, n2];
    assert b[..1][..0] == [];
    assert InsertAll(map[], b[..1]) == map[1000 := n1];
    assert BatchKeys(b) == {1000, 2000} by {
      assert b[0].createdAt == 1000 && b[1].createdAt == 2000;
    }
    var rows := map[1000 := n1, 2000 := n2];
    assert rows.Keys == {1000, 2000};
    assert Checkpoint(rows).value >= 2000;
  }

  /** What the second iteration stores, given that its batch normalises the three groups. */
  lemma SecondCycleBatch(g1: MeasureGroup, g2: MeasureGroup, g3: MeasureGroup, batch: seq<WeightRecord>)
    requires g1.created == 1000 && g2.created == 2000 && g3.created == 3000
    requires IsNormalisation([g1, g2, g3], batch)
    ensures InsertAll(map[1000 := Normalised(g1), 2000 := Normalised(g2)], batch)
              == map[1000 := Normalised(g1), 2000 := Normalised(g2), 3000 := Normalised(g3)]
    ensures |NewKeys(map[1000 := Normalised(g1), 2000 := Normalised(g2)], batch)| == 1
  {
    AscendingNormalisationIsFoldEach([g1, g2, g3], batch);
    assert batch == [Normalised(g1), Normalised(g2), Normalised(g3)];
    SecondCycleRows(Normalised(g1), Normalised(g2), Normalised(g3));
  }

  lemma SecondCycleRows(n1: WeightRecord, n2: WeightRecord, n3: WeightRecord)
    requires n1.createdAt == 1000 && n2.createdAt == 2000 && n3.createdAt == 3000
    ensures InsertAll(map[1000 := n1, 2000 := n2], [n1, n2, n3]) == map[1000 := n1, 2000 := n2, 3000 := n3]
    ensures NewKeys(map[1000 := n1, 2000 := n2], [n1, n2, n3]) == {3000}
  {
    var rows, b := map[1000 := n1, 2000 := n2], [n1, n2, n3];
    InsertPresentIsNoop(rows, b[..2]) by {
      assert BatchKeys(b[..2]) == {1000, 2000} by {
        assert b[..2][0].createdAt == 1000 && b[..2][1].createdAt == 2000;
      }
    }
    assert b[..3][..2] == b[..2];
    assert BatchKeys(b) == {1000, 2000, 3000} by {
      assert b[0].createdAt == 1000 && b[1].createdAt == 2000 && b[2].createdAt == 3000;
    }
  }
}
