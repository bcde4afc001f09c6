/**
 * `measures_to_weights` (main.py:104-109): fold every group, collapse groups
 * sharing a timestamp through a dictionary (last one wins), and return the
 * dictionary's values sorted by timestamp.
 */
module Normaliser {
  import opened Measures
  import opened Timestamps

  /** The dictionary after visiting `gs` in order: timestamp to folded record. */
  function Collapse(gs: seq<MeasureGroup>): map<int, WeightRecord>
  {
    if gs == [] then map[]
    else
      var last := gs[|gs| - 1];
      Collapse(gs[..|gs| - 1])[last.created := Normalised(last)]
  }

  function GroupTimestamps(gs: seq<MeasureGroup>): set<int> {
    set i | 0 <= i < |gs| :: gs[i].created
  }

  /** Group `j` is the last one carrying its timestamp. */
  ghost predicate IsLastWith(gs: seq<MeasureGroup>, j: int) {
    0 <= j < |gs| && forall k :: j < k < |gs| ==> gs[k].created != gs[j].created
  }

  ghost predicate StrictlyAscending(ws: seq<WeightRecord>) {
    forall i, j :: 0 <= i < j < |ws| ==> ws[i].createdAt < ws[j].createdAt
  }

  /**
   * What `measures_to_weights` promises of its output `ws`: strictly ascending
   * by timestamp, every record is the fold of the last group with its
   * timestamp, and every such last group appears.
   */
  ghost predicate IsNormalisation(gs: seq<MeasureGroup>, ws: seq<WeightRecord>) {
    && StrictlyAscending(ws)
    && (forall i :: 0 <= i < |ws| ==> FoldOfLastGroup(gs, ws[i]))
    && (forall j :: IsLastWith(gs, j) ==> Normalised(gs[j]) in ws)
  }

  /** `w` is the fold of the last group carrying its timestamp. */
  ghost predicate FoldOfLastGroup(gs: seq<MeasureGroup>, w: WeightRecord) {
    exists j :: IsLastWith(gs, j) && w == Normalised(gs[j])
  }

  lemma {:induction false} CollapseKeys(gs: seq<MeasureGroup>)
    ensures Collapse(gs).Keys == GroupTimestamps(gs)
    ensures Keyed(Collapse(gs))
  {
    if gs != [] {
      var init := gs[..|gs| - 1];
      CollapseKeys(init);
      assert GroupTimestamps(gs) == GroupTimestamps(init) + {gs[|gs| - 1].created} by {
        forall t | t in GroupTimestamps(gs) ensures t in GroupTimestamps(init) + {gs[|gs| - 1].created} {
          var i :| 0 <= i < |gs| && gs[i].created == t;
          if i < |gs| - 1 { assert init[i] == gs[i]; }
        }
        forall t | t in GroupTimestamps(init) ensures t in GroupTimestamps(gs) {
          var i :| 0 <= i < |init| && init[i].created == t;
          assert gs[i] == init[i];
        }
      }
    }
  }

  /** At most one record per input group. */
  lemma {:induction false} CollapseSize(gs: seq<MeasureGroup>)
    ensures |Collapse(gs)| <= |gs|
  {
    if gs != [] {
      var init := gs[..|gs| - 1];
      CollapseSize(init);
      var k := gs[|gs| - 1].created;
      assert Collapse(gs).Keys == Collapse(init).Keys + {k};
      assert |Collapse(init).Keys + {k}| <= |Collapse(init).Keys| + 1;
    }
  }

  /** The last group with a timestamp is the one kept for it. */
  lemma {:induction false} CollapseLastWins(gs: seq<MeasureGroup>, j: int)
    requires IsLastWith(gs, j)
    ensures gs[j].created in Collapse(gs) && Collapse(gs)[gs[j].created] == Normalised(gs[j])
  {
    if j < |gs| - 1 {
      var init := gs[..|gs| - 1];
      assert IsLastWith(init, j);
      CollapseLastWins(init, j);
    }
  }

  /** Every kept record is the fold of the last group with its timestamp. */
  lemma {:induction false} CollapseFrom(gs: seq<MeasureGroup>, k: int) returns (j: int)
    requires k in Collapse(gs)
    ensures IsLastWith(gs, j) && gs[j].created == k && Collapse(gs)[k] == Normalised(gs[j])
  {
    var n := |gs| - 1;
    if gs[n].created == k {
      j := n;
    } else {
      var init := gs[..n];
      j := CollapseFrom(init, k);
      assert gs[j] == init[j];
    }
  }

  /** Two strictly ascending sequences whose heads occur in each other share their head. */
  lemma HeadsAgree(a: seq<WeightRecord>, b: seq<WeightRecord>)
    requires StrictlyAscending(a) && StrictlyAscending(b)
    requires a != [] && b != [] && a[0] in b && b[0] in a
    ensures a[0] == b[0]
  {
  }

  /** Past a shared head, the rest of `a` occurs in the rest of `b`. */
  lemma TailsContained(a: seq<WeightRecord>, b: seq<WeightRecord>)
    requires StrictlyAscending(a) && StrictlyAscending(b)
    requires a != [] && b != [] && a[0] == b[0]
    requires forall i :: 0 <= i < |a| ==> a[i] in b
    ensures forall k :: 0 <= k < |a| - 1 ==> a[1..][k] in b[1..]
  {
  }

  lemma TailAscending(a: seq<WeightRecord>)
    requires StrictlyAscending(a) && a != []
    ensures StrictlyAscending(a[1..])
  {
  }

  lemma EmptyOnlyIfOtherEmpty(a: seq<WeightRecord>, b: seq<WeightRecord>)
    requires forall i :: 0 <= i < |a| ==> a[i] in b
    ensures b == [] ==> a == []
  {
    if a != [] {
      assert a[0] in b;
    }
  }

  /** Two strictly ascending sequences with the same elements are equal. */
  lemma {:induction false} AscendingUnique(a: seq<WeightRecord>, b: seq<WeightRecord>)
    requires StrictlyAscending(a) && StrictlyAscending(b)
    requires forall i :: 0 <= i < |a| ==> a[i] in b
    requires forall i :: 0 <= i < |b| ==> b[i] in a
    ensures a == b
  {
    EmptyOnlyIfOtherEmpty(a, b);
    EmptyOnlyIfOtherEmpty(b, a);
    if a != [] && b != [] {
      HeadsAgree(a, b);
      TailsContained(a, b);
      TailsContained(b, a);
      TailAscending(a);
      TailAscending(b);
      AscendingUnique(a[1..], b[1..]);
      assert a[1..] == b[1..];
    }
  }

  /** The normaliser's output is determined by its input. */
  lemma NormalisationUnique(gs: seq<MeasureGroup>, a: seq<WeightRecord>, b: seq<WeightRecord>)
    requires IsNormalisation(gs, a) && IsNormalisation(gs, b)
    ensures a == b
  {
    forall i | 0 <= i < |a| ensures a[i] in b {
      assert FoldOfLastGroup(gs, a[i]);
    }
    forall i | 0 <= i < |b| ensures b[i] in a {
      assert FoldOfLastGroup(gs, b[i]);
    }
    AscendingUnique(a, b);
  }

  /** Each group folded on its own, in input order. */
  function FoldEach(gs: seq<MeasureGroup>): (ws: seq<WeightRecord>)
    ensures |ws| == |gs| && forall i :: 0 <= i < |gs| ==> ws[i] == Normalised(gs[i])
  {
    seq(|gs|, i requires 0 <= i < |gs| => Normalised(gs[i]))
  }

  /**
   * Groups that already arrive with strictly increasing timestamps are
   * normalised by folding each one in place: nothing collapses, nothing moves.
   */
  lemma AscendingGroupsNormaliseInOrder(gs: seq<MeasureGroup>)
    requires forall i, j :: 0 <= i < j < |gs| ==> gs[i].created < gs[j].created
    ensures IsNormalisation(gs, FoldEach(gs))
  {
    var ws := FoldEach(gs);
    forall i | 0 <= i < |ws| ensures FoldOfLastGroup(gs, ws[i]) {
      assert IsLastWith(gs, i);
    }
    forall j | IsLastWith(gs, j) ensures Normalised(gs[j]) in ws {
      assert ws[j] == Normalised(gs[j]);
    }
  }

  /** For groups with strictly increasing timestamps, the normalisation is the per-group fold. */
  lemma AscendingNormalisationIsFoldEach(gs: seq<MeasureGroup>, ws: seq<WeightRecord>)
    requires forall i, j :: 0 <= i < j < |gs| ==> gs[i].created < gs[j].created
    requires IsNormalisation(gs, ws)
    ensures ws == FoldEach(gs)
  {
    AscendingGroupsNormaliseInOrder(gs);
    NormalisationUnique(gs, ws, FoldEach(gs));
  }

  /** Python's `sorted(weights.values(), key=created_at)` on the dictionary. */
  method SortByCreatedAt(m: map<int, WeightRecord>) returns (ws: seq<WeightRecord>)
    requires Keyed(m)
    ensures StrictlyAscending(ws)
    ensures |ws| == |m|
    ensures forall i :: 0 <= i < |ws| ==> ws[i].createdAt in m && m[ws[i].createdAt] == ws[i]
    ensures forall k :: k in m ==> exists i :: 0 <= i < |ws| && ws[i] == m[k]
  {
    var rest := m.Keys;
    ghost var done: set<int> := {};
    ws := [];
    while rest != {}
      invariant rest <= m.Keys && done == m.Keys - rest
      invariant |ws| == |done|
      invariant StrictlyAscending(ws)
      invariant forall i :: 0 <= i < |ws| ==> ws[i].createdAt in done && m[ws[i].createdAt] == ws[i]
      invariant forall i, k :: 0 <= i < |ws| && k in rest ==> ws[i].createdAt < k
      invariant forall k :: k in done ==> m[k] in ws
      decreases rest
    {
      var k := Least(rest);
      ws := ws + [m[k]];
      rest := rest - {k};
      done := done + {k};
    }
  }

  /** Sorting the collapsed dictionary yields the normalisation of the groups. */
  lemma SortedCollapseIsNormalisation(groups: seq<MeasureGroup>, ws: seq<WeightRecord>)
    requires StrictlyAscending(ws)
    requires forall i :: 0 <= i < |ws| ==> ws[i].createdAt in Collapse(groups) && Collapse(groups)[ws[i].createdAt] == ws[i]
    requires forall k :: k in Collapse(groups) ==> exists i :: 0 <= i < |ws| && ws[i] == Collapse(groups)[k]
    ensures IsNormalisation(groups, ws)
    ensures forall i :: 0 <= i < |ws| ==> ws[i].createdAt in GroupTimestamps(groups)
    ensures forall j :: 0 <= j < |groups| ==> exists i :: 0 <= i < |ws| && ws[i].createdAt == groups[j].created
  {
    CollapseKeys(groups);
    forall i | 0 <= i < |ws| ensures FoldOfLastGroup(groups, ws[i]) {
      var j := CollapseFrom(groups, ws[i].createdAt);
    }
    forall j | IsLastWith(groups, j) ensures Normalised(groups[j]) in ws {
      CollapseLastWins(groups, j);
      var i :| 0 <= i < |ws| && ws[i] == Collapse(groups)[groups[j].created];
    }
    forall j | 0 <= j < |groups| ensures exists i :: 0 <= i < |ws| && ws[i].createdAt == groups[j].created {
      var k := groups[j].created;
      assert k in GroupTimestamps(groups);
      var i :| 0 <= i < |ws| && ws[i] == Collapse(groups)[k];
    }
  }

  /** `measures_to_weights`. */
  method MeasuresToWeights(groups: seq<MeasureGroup>) returns (ws: seq<WeightRecord>)
    ensures IsNormalisation(groups, ws)
    ensures |ws| <= |groups|
    ensures forall i :: 0 <= i < |ws| ==> ws[i].createdAt in GroupTimestamps(groups)
    ensures forall j :: 0 <= j < |groups| ==> exists i :: 0 <= i < |ws| && ws[i].createdAt == groups[j].created
  {
    var weights: map<int, WeightRecord> := map[];
    for i := 0 to |groups|
      invariant weights == Collapse(groups[..i])
    {
      var w := FromMeasure(groups[i]);
      assert groups[..i + 1][..i] == groups[..i];
      weights := weights[w.createdAt := w];
    }
    assert groups[..|groups|] == groups;
    CollapseKeys(groups);
    CollapseSize(groups);
    ws := SortByCreatedAt(weights);
    SortedCollapseIsNormalisation(groups, ws);
  }
}
