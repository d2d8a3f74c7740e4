/** Sums over the values of a map. */
module Maps {

  ghost function Sum(m: map<nat, int>): int {
    if m == map[] then 0
    else
      var k :| k in m;
      m[k] + Sum(m - {k})
  }

  lemma {:induction false} SumExtract(m: map<nat, int>, k: nat)
    requires k in m
    ensures Sum(m) == m[k] + Sum(m - {k})
    decreases |m|
  {
    var j :| j in m && Sum(m) == m[j] + Sum(m - {j});
    if j != k {
      SumExtract(m - {j}, k);
      SumExtract(m - {k}, j);
      assert m - {j} - {k} == m - {k} - {j};
    }
  }

  lemma SumInsert(m: map<nat, int>, k: nat, v: int)
    requires k !in m
    ensures Sum(m[k := v]) == Sum(m) + v
  {
    SumExtract(m[k := v], k);
    assert m[k := v] - {k} == m;
  }

  lemma {:induction false} SumOfPart(m: map<nat, int>, n: map<nat, int>)
    requires forall k | k in m :: k in n && n[k] == m[k]
    requires forall k | k in n :: n[k] >= 0
    ensures 0 <= Sum(m) <= Sum(n)
    decreases |n|
  {
    if n == map[] {
      assert m == map[];
    } else {
      var k :| k in n;
      SumExtract(n, k);
      if k in m {
        SumExtract(m, k);
        SumOfPart(m - {k}, n - {k});
      } else {
        SumOfPart(m, n - {k});
      }
    }
  }
}
