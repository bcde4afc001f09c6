/** Least and greatest members of a finite set of timestamps. */
module Timestamps {

  lemma NonEmptyHasMember(s: set<int>)
    requires s != {}
    ensures exists x :: x in s
  {
    if forall x :: x !in s {
      assert false;
    }
  }

  /** The largest timestamp of a non-empty set. */
  ghost function MaxKey(s: set<int>): (m: int)
    requires s != {}
    ensures m in s && forall k :: k in s ==> k <= m
    decreases |s|
  {
    NonEmptyHasMember(s);
    var x :| x in s;
    var rest := s - {x};
    assert forall k :: k in s ==> k == x || k in rest;
    if rest == {} then x
    else
      var r := MaxKey(rest);
      if x < r then r else x
  }

  /** Scan for the least member. */
  method Least(s: set<int>) returns (m: int)
    requires s != {}
    ensures m in s && forall k :: k in s ==> m <= k
  {
    NonEmptyHasMember(s);
    m :| m in s;
    var rest := s - {m};
    while rest != {}
      invariant rest <= s && m in s
      invariant forall k :: k in s && k !in rest ==> m <= k
      decreases rest
    {
      NonEmptyHasMember(rest);
      var k :| k in rest;
      if k < m {
        m := k;
      }
      rest := rest - {k};
    }
  }

  /** Scan for the greatest member. */
  method Greatest(s: set<int>) returns (m: int)
    requires s != {}
    ensures m == MaxKey(s)
    ensures m in s && forall k :: k in s ==> k <= m
  {
    NonEmptyHasMember(s);
    m :| m in s;
    var rest := s - {m};
    while rest != {}
      invariant rest <= s && m in s
      invariant forall k :: k in s && k !in rest ==> k <= m
      decreases rest
    {
      NonEmptyHasMember(rest);
      var k :| k in rest;
      if m < k {
        m := k;
      }
      rest := rest - {k};
    }
  }
}
