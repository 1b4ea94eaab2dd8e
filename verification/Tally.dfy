/** Counting references: a bag of held references matches two tables of holders
    when each object is held exactly once for every entry that points to it. */
module Tally {

  function Pointing(m: map<nat, nat>, x: nat): set<nat> {
    set k | k in m && m[k] == x
  }

  ghost predicate Matches(bag: multiset<nat>, m: map<nat, nat>, n: map<nat, nat>) {
    forall x: nat :: bag[x] == |Pointing(m, x)| + |Pointing(n, x)|
  }

  lemma CountAdded(m: map<nat, nat>, k: nat, v: nat, x: nat)
    requires k !in m
    ensures |Pointing(m[k := v], x)| == |Pointing(m, x)| + if x == v then 1 else 0
  {
    if x == v {
      assert Pointing(m[k := v], x) == Pointing(m, x) + {k};
    } else {
      assert Pointing(m[k := v], x) == Pointing(m, x);
    }
  }

  lemma CountRemoved(m: map<nat, nat>, k: nat, x: nat)
    requires k in m
    ensures |Pointing(m - {k}, x)| == |Pointing(m, x)| - if x == m[k] then 1 else 0
  {
    if x == m[k] {
      assert Pointing(m - {k}, x) == Pointing(m, x) - {k};
      assert k in Pointing(m, x);
    } else {
      assert Pointing(m - {k}, x) == Pointing(m, x);
    }
  }

  /** A new entry takes one reference. */
  lemma Take(bag: multiset<nat>, m: map<nat, nat>, n: map<nat, nat>, k: nat, v: nat)
    requires Matches(bag, m, n) && k !in m
    ensures Matches(bag + multiset{v}, m[k := v], n)
  {
    forall x: nat
      ensures (bag + multiset{v})[x] == |Pointing(m[k := v], x)| + |Pointing(n, x)|
    {
      CountAdded(m, k, v, x);
    }
  }

  /** Removing an entry gives one back, and there is one to give. */
  lemma Give(bag: multiset<nat>, m: map<nat, nat>, n: map<nat, nat>, k: nat)
    requires Matches(bag, m, n) && k in m
    ensures m[k] in bag && Matches(bag - multiset{m[k]}, m - {k}, n)
  {
    var v := m[k];
    assert k in Pointing(m, v);
    assert bag[v] == |Pointing(m, v)| + |Pointing(n, v)| > 0;
    forall x: nat
      ensures (bag - multiset{v})[x] == |Pointing(m - {k}, x)| + |Pointing(n, x)|
    {
      CountRemoved(m, k, x);
      assert bag[x] == |Pointing(m, x)| + |Pointing(n, x)|;
    }
  }
}
