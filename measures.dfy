/**
 * Folding one remote measurement group into one weight record
 * (`Weight.from_measure`, main.py:71-101).
 */
module Measures {
  import opened Wrappers

  /** The measurement kinds the fold recognises, and every other kind. */
  datatype MeasureType =
    | Weight
    | FatMassWeight
    | MuscleMass
    | Hydration
    | BoneMass
    | FatRatio
    | FatFreeMass
    | Other(code: int)

  /** One `(type, value)` pair of a group; the unit exponent is not read by the source. */
  datatype Measure = Measure(kind: MeasureType, value: int)

  /** A remote measurement group: a timestamp and an unordered list of measures. */
  datatype MeasureGroup = MeasureGroup(created: int, measures: seq<Measure>)

  /**
   * A row of the weight table. `weight` is in thousandths of a kilogram, the
   * optional components in hundredths; `createdAt` is the primary key.
   */
  datatype WeightRecord = WeightRecord(
    createdAt: int,
    weight: int,
    fatMass: Option<int>,
    muscleMass: Option<int>,
    hydration: Option<int>,
    boneMass: Option<int>,
    fatRatio: Option<int>,
    fatFreeMass: Option<int>)

  /** A collection of records in which every record sits under its own timestamp. */
  ghost predicate Keyed(m: map<int, WeightRecord>) {
    forall k :: k in m ==> m[k].createdAt == k
  }

  /** The value `weight` keeps when the group has no WEIGHT measure. */
  const MissingWeight: int := -1

  /** The condition under which the fold logs a data-quality error. */
  predicate Flagged(w: WeightRecord) {
    w.weight < 0
  }

  predicate HasKind(ms: seq<Measure>, t: MeasureType) {
    exists i :: 0 <= i < |ms| && ms[i].kind == t
  }

  /** The value of the last measure of kind `t` in `ms`, if any. */
  function LastValue(ms: seq<Measure>, t: MeasureType): Option<int>
  {
    if ms == [] then None
    else if ms[|ms| - 1].kind == t then Some(ms[|ms| - 1].value)
    else LastValue(ms[..|ms| - 1], t)
  }

  /** The record the fold must produce: every field is its kind's last value. */
  function Normalised(g: MeasureGroup): WeightRecord {
    var ms := g.measures;
    WeightRecord(
      g.created,
      LastValue(ms, Weight).GetOr(MissingWeight),
      LastValue(ms, FatMassWeight),
      LastValue(ms, MuscleMass),
      LastValue(ms, Hydration),
      LastValue(ms, BoneMass),
      LastValue(ms, FatRatio),
      LastValue(ms, FatFreeMass))
  }

  /**
   * `Weight.from_measure`: start from the record with no fields set and the
   * weight sentinel, then overwrite one field per recognised measure, in order.
   */
  method FromMeasure(g: MeasureGroup) returns (w: WeightRecord)
    ensures w == Normalised(g)
    ensures w.createdAt == g.created
    ensures !HasKind(g.measures, Weight) ==> w.weight == MissingWeight && Flagged(w)
  {
    w := WeightRecord(g.created, MissingWeight, None, None, None, None, None, None);
    var i := 0;
    while i < |g.measures|
      invariant 0 <= i <= |g.measures|
      invariant w == Normalised(MeasureGroup(g.created, g.measures[..i]))
    {
      var m := g.measures[i];
      assert g.measures[..i + 1][..i] == g.measures[..i];
      match m.kind {
        case Weight => w := w.(weight := m.value);
        case FatMassWeight => w := w.(fatMass := Some(m.value));
        case MuscleMass => w := w.(muscleMass := Some(m.value));
        case Hydration => w := w.(hydration := Some(m.value));
        case BoneMass => w := w.(boneMass := Some(m.value));
        case FatRatio => w := w.(fatRatio := Some(m.value));
        case FatFreeMass => w := w.(fatFreeMass := Some(m.value));
        case Other(_) =>
      }
      i := i + 1;
    }
    assert g.measures[..i] == g.measures;
    LastValueAbsent(g.measures, Weight);
  }

  /** A field stays unset exactly when no measure of its kind occurs. */
  lemma {:induction false} LastValueAbsent(ms: seq<Measure>, t: MeasureType)
    ensures LastValue(ms, t).None? <==> !HasKind(ms, t)
  {
    if ms != [] {
      var init := ms[..|ms| - 1];
      LastValueAbsent(init, t);
      if HasKind(init, t) {
        var i :| 0 <= i < |init| && init[i].kind == t;
        assert ms[i].kind == t;
      }
      if HasKind(ms, t) && ms[|ms| - 1].kind != t {
        var i :| 0 <= i < |ms| && ms[i].kind == t;
        assert init[i].kind == t;
      }
    }
  }

  /** A set field holds the value of the LAST measure of its kind. */
  lemma {:induction false} LastValueIsLast(ms: seq<Measure>, t: MeasureType, i: int)
    requires 0 <= i < |ms| && ms[i].kind == t
    requires forall j :: i < j < |ms| ==> ms[j].kind != t
    ensures LastValue(ms, t) == Some(ms[i].value)
  {
    if i < |ms| - 1 {
      LastValueIsLast(ms[..|ms| - 1], t, i);
    }
  }

  /** A measure of another kind, wherever it stands, does not change a field. */
  lemma {:induction false} LastValueSkips(a: seq<Measure>, m: Measure, b: seq<Measure>, t: MeasureType)
    requires m.kind != t
    ensures LastValue(a + [m] + b, t) == LastValue(a + b, t)
  {
    if b == [] {
      assert (a + [m] + b)[..|a + [m] + b| - 1] == a;
      assert a + b == a;
    } else {
      var b' := b[..|b| - 1];
      assert (a + [m] + b)[..|a + [m] + b| - 1] == a + [m] + b';
      assert (a + b)[..|a + b| - 1] == a + b';
      LastValueSkips(a, m, b', t);
    }
  }

  /** Unrecognised measure types change nothing in the folded record. */
  lemma UnknownKindIgnored(g: MeasureGroup, i: int, code: int, v: int)
    requires 0 <= i <= |g.measures|
    ensures Normalised(MeasureGroup(g.created, g.measures[..i] + [Measure(Other(code), v)] + g.measures[i..]))
         == Normalised(g)
  {
    var a, b, m := g.measures[..i], g.measures[i..], Measure(Other(code), v);
    assert a + b == g.measures;
    LastValueSkips(a, m, b, Weight);
    LastValueSkips(a, m, b, FatMassWeight);
    LastValueSkips(a, m, b, MuscleMass);
    LastValueSkips(a, m, b, Hydration);
    LastValueSkips(a, m, b, BoneMass);
    LastValueSkips(a, m, b, FatRatio);
    LastValueSkips(a, m, b, FatFreeMass);
  }

  /**
   * The record is flagged (weight -1, and logged) whenever WEIGHT is missing,
   * and it is returned all the same; when no reported WEIGHT value is negative,
   * the flag is raised exactly when WEIGHT is missing.
   */
  lemma MissingWeightFlagged(g: MeasureGroup)
    ensures !HasKind(g.measures, Weight) ==> Normalised(g).weight == MissingWeight
    ensures (forall i :: 0 <= i < |g.measures| && g.measures[i].kind == Weight ==> g.measures[i].value >= 0)
            ==> (Flagged(Normalised(g)) <==> !HasKind(g.measures, Weight))
  {
    var ms := g.measures;
    LastValueAbsent(ms, Weight);
    if HasKind(ms, Weight) {
      var i := LastIndexOf(ms, Weight);
      LastValueIsLast(ms, Weight, i);
    }
  }

  /** The index of the last measure of kind `t`. */
  lemma LastIndexOf(ms: seq<Measure>, t: MeasureType) returns (i: int)
    requires HasKind(ms, t)
    ensures 0 <= i < |ms| && ms[i].kind == t
    ensures forall j :: i < j < |ms| ==> ms[j].kind != t
  {
    i := |ms| - 1;
    while ms[i].kind != t
      invariant 0 <= i < |ms|
      invariant forall j :: i < j < |ms| ==> ms[j].kind != t
      invariant exists k :: 0 <= k <= i && ms[k].kind == t
      decreases i
    {
      i := i - 1;
    }
  }
}
