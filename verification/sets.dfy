/** Finite sets of ids read in increasing order, as `ORDER BY id ASC` does. */
module Sets {

  predicate IsLeast(m: int, ids: set<int>) {
    m in ids && forall x | x in ids :: m <= x
  }

  lemma Member<T>(s: set<T>) returns (x: T)
    requires s != {}
    ensures x in s
  {
    x :| x in s;
  }

  lemma {:induction false} LeastExists(ids: set<int>)
    requires ids != {}
    ensures exists m :: IsLeast(m, ids)
    decreases ids
  {
    var y := Member(ids);
    var rest := ids - {y};
    assert forall x | x in ids :: x == y || x in rest;
    if rest == {} {
      assert IsLeast(y, ids);
    } else {
      LeastExists(rest);
      var m :| IsLeast(m, rest);
      assert IsLeast(if y < m then y else m, ids);
    }
  }

  function Min(ids: set<int>): (m: int)
    requires ids != {}
    ensures IsLeast(m, ids)
  {
    LeastExists(ids);
    var m :| m in ids && IsLeast(m, ids);
    m
  }

  function Ascending(ids: set<int>): (s: seq<int>)
    decreases |ids|
  {
    if ids == {} then [] else [Min(ids)] + Ascending(ids - {Min(ids)})
  }

  predicate Increasing(s: seq<int>) {
    forall i, j | 0 <= i < j < |s| :: s[i] < s[j]
  }

  /** The ordered reading lists every id once and nothing else. */
  lemma {:induction false} AscendingLists(ids: set<int>)
    ensures Increasing(Ascending(ids)) && |Ascending(ids)| == |ids|
    ensures forall x :: x in Ascending(ids) <==> x in ids
    decreases |ids|
  {
    if ids != {} {
      var m := Min(ids);
      AscendingLists(ids - {m});
      var rest := Ascending(ids - {m});
      forall i | 0 <= i < |rest| ensures m < rest[i] {
        assert rest[i] in rest;
      }
    }
  }

  lemma SubsetSize<T>(a: set<T>, b: set<T>)
    requires a <= b
    ensures |a| <= |b|
  {
    assert b == a + (b - a);
  }

  lemma RemoveSize<T>(s: set<T>, x: T)
    ensures |s| == |s - {x}| + (if x in s then 1 else 0)
  {
    if x in s {
      assert s == (s - {x}) + {x};
    } else {
      assert s == s - {x};
    }
  }
}
