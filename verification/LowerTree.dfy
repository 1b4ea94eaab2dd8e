/** Directory trees by parent pointers, the trap that lock_rename computes, and
    what a rename does to the tree. A root is its own parent, as in the kernel. */
module LowerTree {
  import opened Common

  type Parents = map<nat, nat>

  ghost predicate Closed(t: Parents) {
    forall n {:trigger t[n]} | n in t :: t[n] in t
  }

  /** The `k`-th ancestor of `n`. */
  function Climb(t: Parents, n: nat, k: nat): (a: nat)
    requires Closed(t) && n in t
    ensures a in t
    decreases k
  {
    if k == 0 then n else Climb(t, t[n], k - 1)
  }

  /** `a` is `n` or one of its ancestors. */
  ghost predicate Under(t: Parents, a: nat, n: nat)
    requires Closed(t) && n in t
  {
    exists k: nat :: Climb(t, n, k) == a
  }

  ghost predicate IsTree(t: Parents, root: nat) {
    && Closed(t)
    && root in t && t[root] == root
    && forall n | n in t :: Under(t, root, n)
  }

  lemma {:induction false} ClimbSum(t: Parents, n: nat, i: nat, j: nat)
    requires Closed(t) && n in t
    ensures Climb(t, n, i + j) == Climb(t, Climb(t, n, i), j)
    decreases i
  {
    if i > 0 {
      ClimbSum(t, t[n], i - 1, j);
    }
  }

  lemma {:induction false} ClimbFixed(t: Parents, n: nat, k: nat)
    requires Closed(t) && n in t && t[n] == n
    ensures Climb(t, n, k) == n
    decreases k
  {
    if k > 0 {
      ClimbFixed(t, n, k - 1);
    }
  }

  /** A node that comes back to itself and reaches a root is that root. */
  lemma {:induction false} CycleIsRoot(t: Parents, root: nat, n: nat, m: nat, r: nat)
    requires Closed(t) && root in t && t[root] == root && n in t
    requires m > 0 && Climb(t, n, m) == n && Climb(t, n, r) == root
    ensures n == root
    decreases r
  {
    if r > 0 {
      ClimbSum(t, n, m, 1);
      assert Climb(t, n, 1) == t[n] && Climb(t, t[n], m) == Climb(t, n, m + 1);
      CycleIsRoot(t, root, t[n], m, r - 1);
      ClimbFixed(t, root, m - 1);
    }
  }

  /** In a tree no node but the root lies above its own parent. */
  lemma NoCycle(t: Parents, root: nat, n: nat)
    requires IsTree(t, root) && n in t && n != root
    ensures !Under(t, n, t[n])
  {
    if Under(t, n, t[n]) {
      var k: nat :| Climb(t, t[n], k) == n;
      var r: nat :| Climb(t, n, r) == root;
      CycleIsRoot(t, root, n, k + 1, r);
    }
  }

  lemma UnderTrans(t: Parents, a: nat, b: nat, c: nat)
    requires Closed(t) && b in t && c in t && Under(t, a, b) && Under(t, b, c)
    ensures Under(t, a, c)
  {
    var i: nat :| Climb(t, b, i) == a;
    var j: nat :| Climb(t, c, j) == b;
    ClimbSum(t, c, j, i);
  }

  lemma UnderSelf(t: Parents, n: nat)
    requires Closed(t) && n in t
    ensures Under(t, n, n)
  {
    assert Climb(t, n, 0) == n;
  }

  lemma UnderParent(t: Parents, a: nat, n: nat)
    requires Closed(t) && n in t
    ensures Under(t, a, n) <==> a == n || Under(t, a, t[n])
  {
    if Under(t, a, n) {
      var k: nat :| Climb(t, n, k) == a;
      if k > 0 {
        assert Climb(t, t[n], k - 1) == a;
      }
    }
    if Under(t, a, t[n]) {
      var k: nat :| Climb(t, t[n], k) == a;
      assert Climb(t, n, k + 1) == a;
    }
    UnderSelf(t, n);
  }

  /** Two nodes above the same node are above one another. */
  lemma {:induction false} UnderLinear(t: Parents, a: nat, b: nat, n: nat, i: nat, j: nat)
    requires Closed(t) && n in t && Climb(t, n, i) == a && Climb(t, n, j) == b && i <= j
    ensures Under(t, b, a)
  {
    ClimbSum(t, n, i, j - i);
  }

  /** A new leaf leaves a tree a tree. */
  lemma LeafKeepsTree(t: Parents, root: nat, n: nat, p: nat)
    requires IsTree(t, root) && n !in t && p in t
    ensures IsTree(t[n := p], root)
  {
    var u := t[n := p];
    assert Closed(u);
    forall x | x in t
      ensures Under(u, root, x)
    {
      var k: nat :| Climb(t, x, k) == root;
      ClimbExtended(t, u, x, k);
    }
    UnderParent(u, root, n);
  }

  lemma {:induction false} ClimbExtended(t: Parents, u: Parents, x: nat, k: nat)
    requires Closed(t) && Closed(u) && x in t && forall y | y in t :: y in u && u[y] == t[y]
    ensures Climb(u, x, k) == Climb(t, x, k)
    decreases k
  {
    if k > 0 {
      ClimbExtended(t, u, t[x], k - 1);
    }
  }

  /** `n` is nobody else's parent. */
  predicate IsLeaf(t: Parents, n: nat) {
    n in t && forall e | e in t && e != n :: t[e] != n
  }

  /** So does taking a leaf away. */
  lemma LeafRemoved(t: Parents, root: nat, n: nat)
    requires IsTree(t, root) && n != root && IsLeaf(t, n)
    ensures IsTree(t - {n}, root)
  {
    var u := t - {n};
    assert Closed(u);
    forall x | x in u
      ensures Under(u, root, x)
    {
      var k: nat :| Climb(t, x, k) == root;
      ClimbExtended(u, t, x, k);
    }
  }

  ghost function Below(t: Parents, n: nat): set<nat>
    requires Closed(t)
  {
    set x | x in t && Under(t, n, x)
  }

  /** Below every node there is a leaf: what lies below a child is less. */
  lemma {:induction false} FindLeaf(t: Parents, root: nat, n: nat) returns (l: nat)
    requires IsTree(t, root) && n in t && n != root
    ensures l != root && IsLeaf(t, l)
    decreases Below(t, n)
  {
    if IsLeaf(t, n) {
      return n;
    }
    var e :| e in t && e != n && t[e] == n;
    BelowChild(t, root, e);
    l := FindLeaf(t, root, e);
  }

  lemma BelowChild(t: Parents, root: nat, e: nat)
    requires IsTree(t, root) && e in t && e != root
    ensures Below(t, e) < Below(t, t[e])
  {
    NoCycle(t, root, e);
    UnderSelf(t, t[e]);
    UnderSelf(t, e);
    UnderParent(t, t[e], e);
    forall x | x in Below(t, e)
      ensures x in Below(t, t[e])
    {
      UnderTrans(t, t[e], e, x);
    }
    assert t[e] in Below(t, t[e]) && t[e] !in Below(t, e);
  }

  // ---------- lock_rename ----------

  /** A child of `p1` at or above `p2`. */
  ghost predicate OnPath(t: Parents, root: nat, c: nat, p1: nat, p2: nat)
    requires Closed(t) && p2 in t
  {
    c in t && c != root && t[c] == p1 && Under(t, c, p2)
  }

  lemma OnPathUnique(t: Parents, root: nat, c: nat, e: nat, p1: nat, p2: nat)
    requires IsTree(t, root) && p2 in t && OnPath(t, root, c, p1, p2) && OnPath(t, root, e, p1, p2)
    ensures c == e
  {
    var i: nat :| Climb(t, p2, i) == c;
    var j: nat :| Climb(t, p2, j) == e;
    if i <= j {
      UnderLinear(t, c, e, p2, i, j);
      UnderParent(t, e, c);
    } else {
      UnderLinear(t, e, c, p2, j, i);
      UnderParent(t, c, e);
    }
    if c != e {
      NoCycle(t, root, c);
      NoCycle(t, root, e);
    }
  }

  /** d_ancestor: the ancestor-or-self of `p2` whose parent is `p1`. */
  method DAncestor(t: Parents, root: nat, p1: nat, p2: nat) returns (r: Option<nat>)
    requires IsTree(t, root) && p1 in t && p2 in t
    ensures forall c: nat :: r == Some(c) <==> OnPath(t, root, c, p1, p2)
  {
    var p := p2;
    ghost var up: nat := 0;
    ghost var left: nat :| Climb(t, p2, left) == root;
    while t[p] != p
      invariant p in t && Climb(t, p2, up) == p && Climb(t, p, left) == root
      invariant forall c | OnPath(t, root, c, p1, p2) :: Under(t, c, p)
      decreases left
    {
      if t[p] == p1 {
        ClimbFixed(t, root, 1);
        assert OnPath(t, root, p, p1, p2);
        forall c | OnPath(t, root, c, p1, p2)
          ensures c == p
        {
          OnPathUnique(t, root, c, p, p1, p2);
        }
        return Some(p);
      }
      forall c | OnPath(t, root, c, p1, p2)
        ensures Under(t, c, t[p])
      {
        UnderParent(t, c, p);
      }
      ClimbSum(t, p2, up, 1);
      assert Climb(t, p, 1) == t[p];
      p, up, left := t[p], up + 1, left - 1;
    }
    ClimbFixed(t, p, left);
    forall c: nat
      ensures !OnPath(t, root, c, p1, p2)
    {
      if OnPath(t, root, c, p1, p2) {
        var k: nat :| Climb(t, p, k) == c;
        ClimbFixed(t, p, k);
      }
    }
    return None;
  }

  /** What lock_rename hands back for two parents. */
  ghost predicate IsTrap(t: Parents, root: nat, p1: nat, p2: nat, trap: Option<nat>)
    requires IsTree(t, root) && p1 in t && p2 in t
  {
    forall c: nat :: trap == Some(c) <==> p1 != p2 && (OnPath(t, root, c, p2, p1) || OnPath(t, root, c, p1, p2))
  }

  method LockRename(t: Parents, root: nat, p1: nat, p2: nat) returns (trap: Option<nat>)
    requires IsTree(t, root) && p1 in t && p2 in t
    ensures IsTrap(t, root, p1, p2, trap)
  {
    if p1 == p2 {
      return None;
    }
    trap := DAncestor(t, root, p2, p1);
    if trap.Some? {
      forall c: nat
        ensures !OnPath(t, root, c, p1, p2)
      {
        NotBothPaths(t, root, trap.value, c, p1, p2);
      }
      return;
    }
    trap := DAncestor(t, root, p1, p2);
  }

  /** Neither parent can be above the other both ways. */
  lemma NotBothPaths(t: Parents, root: nat, c: nat, e: nat, p1: nat, p2: nat)
    requires IsTree(t, root) && p1 in t && p2 in t && OnPath(t, root, c, p2, p1)
    ensures !OnPath(t, root, e, p1, p2)
  {
    if OnPath(t, root, e, p1, p2) {
      UnderSelf(t, p1);
      UnderParent(t, p1, e);
      UnderTrans(t, p1, e, p2);
      UnderTrans(t, c, p1, p2);
      NoCycle(t, root, c);
    }
  }

  /** The two trap tests of wrapfs_rename reject exactly the moves of a node
      under itself and onto its own ancestor. */
  lemma TrapTestsExact(t: Parents, root: nat, a: nat, b: nat, trap: Option<nat>)
    requires IsTree(t, root) && a in t && b in t && a != root && b != root
    requires IsTrap(t, root, t[a], t[b], trap)
    ensures trap == Some(a) <==> Under(t, a, t[b])
    ensures trap == Some(b) <==> Under(t, b, t[a])
  {
    NoCycle(t, root, a);
    NoCycle(t, root, b);
    if trap == Some(a) && OnPath(t, root, a, t[b], t[a]) {
      assert false;
    }
    if trap == Some(b) && OnPath(t, root, b, t[a], t[b]) {
      assert false;
    }
  }

  // ---------- the move ----------

  /** d_move: the two dentries trade places. */
  function Swapped(t: Parents, a: nat, b: nat): Parents
    requires a in t && b in t
  {
    t[a := t[b]][b := t[a]]
  }

  /** Climbing from `n` meets `a` after equally many steps in both trees. */
  ghost predicate Meets(t: Parents, u: Parents, n: nat, a: nat)
    requires Closed(t) && Closed(u) && n in t && n in u
  {
    exists i: nat :: Climb(t, n, i) == a && Climb(u, n, i) == a
  }

  lemma MeetsAbove(t: Parents, u: Parents, n: nat, a: nat)
    requires Closed(t) && Closed(u) && n in t && n in u && t[n] == u[n] && Meets(t, u, t[n], a)
    ensures Meets(t, u, n, a)
  {
    var i: nat :| Climb(t, t[n], i) == a && Climb(u, t[n], i) == a;
    assert Climb(t, n, i + 1) == a && Climb(u, n, i + 1) == a;
  }

  /** Climbing meets the same nodes until it first meets `a` or `b`. */
  lemma {:induction false} ClimbSwapped(t: Parents, a: nat, b: nat, n: nat, k: nat)
    requires Closed(t) && a in t && b in t && n in t && Closed(Swapped(t, a, b))
    ensures
      var u := Swapped(t, a, b);
      Climb(u, n, k) == Climb(t, n, k) || Meets(t, u, n, a) || Meets(t, u, n, b)
    decreases k
  {
    var u := Swapped(t, a, b);
    if n == a || n == b {
      assert Climb(t, n, 0) == n && Climb(u, n, 0) == n;
    } else if k > 0 {
      ClimbSwapped(t, a, b, t[n], k - 1);
      if Meets(t, u, t[n], a) {
        MeetsAbove(t, u, n, a);
      } else if Meets(t, u, t[n], b) {
        MeetsAbove(t, u, n, b);
      }
    }
  }

  lemma MeetsUnder(t: Parents, u: Parents, n: nat, a: nat)
    requires Closed(t) && Closed(u) && n in t && n in u && Meets(t, u, n, a)
    ensures Under(t, a, n) && Under(u, a, n)
  {
  }

  /** A node with neither moved dentry above it keeps its way to the root. */
  lemma UndisturbedReaches(t: Parents, root: nat, a: nat, b: nat, n: nat)
    requires IsTree(t, root) && a in t && b in t && n in t && Closed(Swapped(t, a, b))
    requires !Under(t, a, n) && !Under(t, b, n)
    ensures Under(Swapped(t, a, b), root, n)
  {
    var k: nat :| Climb(t, n, k) == root;
    ClimbSwapped(t, a, b, n, k);
    if Meets(t, Swapped(t, a, b), n, a) {
      MeetsUnder(t, Swapped(t, a, b), n, a);
    }
    if Meets(t, Swapped(t, a, b), n, b) {
      MeetsUnder(t, Swapped(t, a, b), n, b);
    }
  }

  /** Every node still reaches the root after a move that the trap tests let through. */
  lemma SwapKeepsTree(t: Parents, root: nat, a: nat, b: nat)
    requires IsTree(t, root) && a in t && b in t && a != root && b != root && a != b
    requires !Under(t, a, t[b]) && !Under(t, b, t[a])
    ensures IsTree(Swapped(t, a, b), root)
  {
    var u := Swapped(t, a, b);
    assert Closed(u);
    NoCycle(t, root, a);
    NoCycle(t, root, b);
    UndisturbedReaches(t, root, a, b, t[a]);
    UndisturbedReaches(t, root, a, b, t[b]);
    UnderParent(u, root, a);
    UnderParent(u, root, b);
    forall n | n in u
      ensures Under(u, root, n)
    {
      var k: nat :| Climb(t, n, k) == root;
      ClimbSwapped(t, a, b, n, k);
      if Meets(t, u, n, a) {
        MeetsUnder(t, u, n, a);
        UnderTrans(u, root, a, n);
      } else if Meets(t, u, n, b) {
        MeetsUnder(t, u, n, b);
        UnderTrans(u, root, b, n);
      }
    }
  }

  /** A move of a node under itself leaves it circling, cut off from the root. */
  lemma SwapBreaksTree(t: Parents, root: nat, a: nat, b: nat)
    requires IsTree(t, root) && a in t && b in t && a != root && b != root && a != b
    requires Under(t, a, t[b])
    ensures !IsTree(Swapped(t, a, b), root)
  {
    var u := Swapped(t, a, b);
    if IsTree(u, root) {
      NoCycle(t, root, b);
      var k: nat :| Climb(t, t[b], k) == a;
      ClimbSwapped(t, a, b, t[b], k);
      if Meets(t, u, t[b], a) {
        MeetsUnder(t, u, t[b], a);
      } else if Meets(t, u, t[b], b) {
        MeetsUnder(t, u, t[b], b);
      }
      NoCycle(u, root, a);
    }
  }

  /** So the trap tests are exactly what keeps the directories a tree. */
  lemma MoveKeepsTreeIff(t: Parents, root: nat, a: nat, b: nat, trap: Option<nat>)
    requires IsTree(t, root) && a in t && b in t && a != root && b != root && a != b
    requires IsTrap(t, root, t[a], t[b], trap)
    ensures IsTree(Swapped(t, a, b), root) <==> trap != Some(a) && trap != Some(b)
  {
    TrapTestsExact(t, root, a, b, trap);
    if Under(t, a, t[b]) {
      SwapBreaksTree(t, root, a, b);
    } else if Under(t, b, t[a]) {
      assert Swapped(t, a, b) == Swapped(t, b, a);
      SwapBreaksTree(t, root, b, a);
    } else {
      SwapKeepsTree(t, root, a, b);
    }
  }
}
