/** Picking from finite sets and summing over finite maps: results that do not
    depend on the order in which a Go map is ranged over. */
module Sets {

  lemma NonEmpty(s: set<int>)
    requires s != {}
    ensures exists x :: x in s
  {
    assert (forall x :: x !in s) ==> s == {};
  }

  lemma SubsetSize(a: set<int>, b: set<int>)
    requires a <= b
    ensures |a| <= |b|
  {
    assert b == a + (b - a);
  }

  lemma OnlyElement(x: int, s: set<int>)
    requires x in s && |s| <= 1
    ensures s == {x}
  {
    assert |s - {x}| == 0;
  }

  /** The sum of a map's values. */
  ghost function Total(m: map<int, int>): int
    decreases |m|
  {
    if m.Keys == {} then 0
    else
      NonEmpty(m.Keys);
      var k :| k in m.Keys;
      Smaller(m, k);
      m[k] + Total(m - {k})
  }

  lemma Smaller(m: map<int, int>, k: int)
    requires k in m
    ensures |m - {k}| < |m|
  {
    assert (m - {k}).Keys == m.Keys - {k};
    assert |m.Keys - {k}| == |m.Keys| - 1;
    assert |m - {k}| == |(m - {k}).Keys| && |m| == |m.Keys|;
  }

  /** Any key may be summed first. */
  lemma {:induction false} TotalPick(m: map<int, int>, k: int)
    requires k in m
    ensures Total(m) == m[k] + Total(m - {k})
    decreases |m|
  {
    var j :| j in m.Keys && Total(m) == m[j] + Total(m - {j});
    if j != k {
      Smaller(m, j);
      Smaller(m, k);
      TotalPick(m - {j}, k);
      TotalPick(m - {k}, j);
      assert m - {j} - {k} == m - {k} - {j};
    }
  }

  lemma TotalSet(m: map<int, int>, k: int, v: int)
    ensures Total(m[k := v]) == Total(m) - (if k in m then m[k] else 0) + v
  {
    TotalPick(m[k := v], k);
    if k in m {
      TotalPick(m, k);
      assert m[k := v] - {k} == m - {k};
    } else {
      assert m[k := v] - {k} == m;
    }
  }

  /** A map below another, whose further values are not negative, has the smaller total. */
  lemma {:induction false} TotalMonotone(m: map<int, int>, n: map<int, int>)
    requires m.Keys <= n.Keys && forall k :: k in m ==> m[k] <= n[k]
    requires forall k :: k in n && k !in m ==> n[k] >= 0
    ensures Total(m) <= Total(n)
    decreases |n|
  {
    if n.Keys != {} {
      NonEmpty(n.Keys);
      var k :| k in n.Keys;
      Smaller(n, k);
      TotalPick(n, k);
      var m', n' := m - {k}, n - {k};
      assert m'.Keys == m.Keys - {k} && n'.Keys == n.Keys - {k};
      TotalMonotone(m', n');
      if k in m {
        TotalPick(m, k);
      } else {
        assert m' == m;
      }
    }
  }

  /** order lists the elements of s once each. */
  ghost predicate Enumerates(order: seq<int>, s: set<int>) {
    && (forall k :: k in s <==> k in order)
    && (forall i, j :: 0 <= i < j < |order| ==> order[i] != order[j])
  }
}
