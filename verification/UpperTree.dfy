/** The upper dentries, those removed but still in use included, stay a tree over
    every run; so a mount can always be taken down, leaf by leaf. */
module UpperTree {
  import opened Common
  import opened Namespace
  import opened Stacking
  import opened NamespaceRuns
  import LowerTree

  ghost predicate Rooted(u: Upper) {
    LowerTree.IsTree(Above(u), u.root)
  }

  // ---------- how an operation may change the parents ----------

  ghost predicate SameParents(u: Upper, v: Upper) {
    && v.root == u.root && v.dentries.Keys == u.dentries.Keys
    && forall d | d in u.dentries :: v.dentries[d].parent == u.dentries[d].parent
  }

  ghost predicate OneMore(u: Upper, v: Upper, d: nat, p: nat) {
    && v.root == u.root && d !in u.dentries && p in u.dentries && v.dentries.Keys == u.dentries.Keys + {d}
    && v.dentries[d].parent == p && forall e | e in u.dentries :: v.dentries[e].parent == u.dentries[e].parent
  }

  lemma AboveSame(u: Upper, v: Upper)
    requires SameParents(u, v)
    ensures Above(v) == Above(u)
  {
  }

  lemma AboveMore(u: Upper, v: Upper, d: nat, p: nat)
    requires OneMore(u, v, d, p)
    ensures Above(v) == Above(u)[d := p]
  {
  }

  lemma AboveFewer(u: Upper, v: Upper, d: nat)
    requires v.dentries == u.dentries - {d}
    ensures Above(v) == Above(u) - {d}
  {
  }

  lemma AboveMoved(u: Upper, a: nat, b: nat)
    requires a in u.dentries && b in u.dentries
    ensures Above(UpperMove(u, a, b)) == LowerTree.Swapped(Above(u), a, b)
  {
  }

  lemma LeafIff(u: Upper, d: nat)
    ensures LowerTree.IsLeaf(Above(u), d) <==>
            d in u.dentries && forall e | e in u.dentries && e != d :: u.dentries[e].parent != d
  {
    assert forall e | e in u.dentries :: Above(u)[e] == u.dentries[e].parent;
    if LowerTree.IsLeaf(Above(u), d) {
      forall e | e in u.dentries && e != d
        ensures u.dentries[e].parent != d
      {
        assert e in Above(u);
      }
    }
  }

  /** The trap tests below keep the upper dentries from going under themselves. */
  lemma NotUnderAbove(w: World, a: nat, b: nat, o: RenameOutcome)
    requires Inv(w) && CanRename(w, a, b, o) && !UnderItself(w, a, b) && !UnderItself(w, b, a)
    ensures LowerTree.Closed(Above(w.up))
    ensures !LowerTree.Under(Above(w.up), a, Above(w.up)[b]) && !LowerTree.Under(Above(w.up), b, Above(w.up)[a])
  {
    AboveClosed(w.up);
    if LowerTree.Under(Above(w.up), a, Above(w.up)[b]) {
      UnderAboveUnderBelow(w, a, b);
    }
    if LowerTree.Under(Above(w.up), b, Above(w.up)[a]) {
      UnderAboveUnderBelow(w, b, a);
    }
  }

  // ---------- each operation ----------

  lemma InterposeParents(w: World, d: nat, supply: Option<nat>)
    requires Interposable(w, d)
    ensures SameParents(w.up, Interpose(w, d, supply).0.up)
  {
  }

  lemma LookupParents(w: World, p: nat, name: string, d: nat, create: bool, o: LookupOutcome, supply: Option<nat>)
    requires CanLookup(w, p, name, d, o, supply)
    ensures
      var v := Lookup(w, p, name, d, create, o, supply).0;
      v.up == w.up || OneMore(w.up, v.up, d, p)
  {
    if o.Found? {
      InterposeParents(AddDentry(w, d, Dentry(p, name, New, None), o.l), d, supply);
    }
  }

  lemma MakeParents(w: World, kind: Kind, d: nat, o: MakeOutcome)
    requires CanMake(w, kind, d, o)
    ensures SameParents(w.up, Make(w, kind, d, o).0.up)
  {
    InterposeParents(LowerMake(w, d, o.li, o.links, o.dirLinks), d, o.supply);
  }

  lemma LinkParents(w: World, src: nat, d: nat, o: LinkOutcome)
    requires CanLink(w, src, d, o)
    ensures SameParents(w.up, Link(w, src, d, o).0.up)
  {
    var li := w.inodes[w.up.dentries[src].inode.value];
    var low := w.low.(inode := w.low.inode[w.up.path[d] := li]);
    InterposeParents(w.(lowerLinks := w.lowerLinks[li := o.links], low := low), d, o.supply);
  }

  lemma RemoveParents(w: World, isDir: bool, d: nat, o: RemoveOutcome)
    requires CanRemove(w, isDir, d, o)
    ensures SameParents(w.up, Remove(w, isDir, d, o).0.up)
  {
  }

  lemma RenameRooted(w: World, a: nat, b: nat, o: RenameOutcome)
    requires Inv(w) && Rooted(w.up) && CanRename(w, a, b, o)
    ensures Rooted(Rename(w, a, b, o).0.up)
  {
    RenameCases(w, a, b, o);
    if Rename(w, a, b, o).1 == 0 {
      RenamedShape(w, a, b, o);
      NotUnderAbove(w, a, b, o);
      AboveMoved(w.up, a, b);
      LowerTree.SwapKeepsTree(Above(w.up), w.up.root, a, b);
    }
  }

  lemma LookupRooted(w: World, p: nat, name: string, d: nat, create: bool, o: LookupOutcome, supply: Option<nat>)
    requires Rooted(w.up) && CanLookup(w, p, name, d, o, supply)
    ensures Rooted(Lookup(w, p, name, d, create, o, supply).0.up)
  {
    LookupParents(w, p, name, d, create, o, supply);
    var v := Lookup(w, p, name, d, create, o, supply).0.up;
    if v != w.up {
      AboveMore(w.up, v, d, p);
      LowerTree.LeafKeepsTree(Above(w.up), w.up.root, d, p);
    }
  }

  lemma ReleaseRooted(w: World, d: nat)
    requires Rooted(w.up) && CanRelease(w, d)
    ensures Rooted(Release(w, d).up)
  {
    AboveFewer(w.up, Release(w, d).up, d);
    LeafIff(w.up, d);
    LowerTree.LeafRemoved(Above(w.up), w.up.root, d);
  }

  lemma StepRooted(w: World, op: Op)
    requires Inv(w) && Rooted(w.up) && Can(w, op) && Supplied(w, op)
    ensures Rooted(Effect(w, op).up)
  {
    if op.LookupOp? {
      LookupRooted(w, op.p, op.name, op.d, op.create, op.found, op.supply);
    } else if op.RenameOp? {
      RenameRooted(w, op.a, op.b, op.renamed);
    } else if op.ReleaseOp? {
      ReleaseRooted(w, op.d);
    } else {
      ParentsStay(w, op);
      AboveSame(w.up, Effect(w, op).up);
    }
  }

  lemma ParentsStay(w: World, op: Op)
    requires Can(w, op) && !op.LookupOp? && !op.RenameOp? && !op.ReleaseOp?
    ensures SameParents(w.up, Effect(w, op).up)
  {
    if op.MakeOp? {
      MakeParents(w, op.kind, op.d, op.made);
    } else if op.LinkOp? {
      LinkParents(w, op.src, op.d, op.linked);
    } else if op.RemoveOp? {
      RemoveParents(w, op.isDir, op.d, op.removed);
    }
  }

  // ---------- runs ----------

  /** Beyond the invariant: all dentries hang from the root, and the open files
      are those that hold a lower path. */
  ghost predicate Grounded(w: World) {
    Rooted(w.up) && w.opens.Keys == w.files.Keys
  }

  /** Over every run all dentries, attached or not, stay one tree. */
  lemma {:induction false} RunGrounded(w: World, ops: seq<Op>)
    requires Inv(w) && Grounded(w)
    ensures Grounded(Run(w, ops))
    decreases |ops|
  {
    if ops != [] {
      NextGrounded(w, ops[0]);
      RunGrounded(Next(w, ops[0]), ops[1..]);
    }
  }

  lemma NextGrounded(w: World, op: Op)
    requires Inv(w) && Grounded(w)
    ensures Grounded(Next(w, op))
  {
    if Can(w, op) && Supplied(w, op) {
      StepRooted(w, op);
      StepPaths(w, op);
      FilesStayOpens(w, Effect(w, op), op);
    }
  }

  lemma FilesStayOpens(w: World, v: World, op: Op)
    requires PathStep(w, v, op) && w.opens.Keys == w.files.Keys
    ensures v.opens.Keys == v.files.Keys
  {
  }

  // ---------- teardown ----------

  /** With no file open, some dentry other than the root can be released. */
  lemma LeafReleases(w: World, n: nat) returns (d: nat)
    requires Inv(w) && Grounded(w) && w.opens == map[] && n in w.up.dentries && n != w.up.root
    ensures CanRelease(w, d)
  {
    d := LowerTree.FindLeaf(Above(w.up), w.up.root, n);
    LeafIff(w.up, d);
  }

  predicate TakesDown(op: Op) {
    op.CloseOp? || op.ReleaseOp?
  }

  ghost function Remaining(w: World): nat {
    |w.files| + |w.up.dentries|
  }

  /** Unless only the root is left, something can be closed or released. */
  lemma NextToGo(w: World) returns (op: Option<Op>)
    requires Inv(w) && Grounded(w)
    ensures op.None? ==> w.files == map[] && w.up.dentries.Keys == {w.up.root}
    ensures op.Some? ==> TakesDown(op.value) && Can(w, op.value)
  {
    if f :| f in w.files {
      return Some(CloseOp(f));
    }
    if n :| n in w.up.dentries && n != w.up.root {
      var d := LeafReleases(w, n);
      return Some(ReleaseOp(d));
    }
    return None;
  }

  lemma GoneIsLess(w: World, op: Op)
    requires TakesDown(op) && Can(w, op)
    ensures Remaining(Effect(w, op)) < Remaining(w)
  {
    if op.CloseOp? {
      SizeRemoved(w.files, op.f);
    } else {
      SizeRemoved(w.up.dentries, op.d);
    }
  }

  /** `ops` closes and releases until the root alone is left. */
  ghost predicate TearsDown(w: World, ops: seq<Op>)
    requires Inv(w)
    decreases |ops|
  {
    if ops == [] then w.files == map[] && w.up.dentries.Keys == {w.up.root}
    else TakesDown(ops[0]) && Can(w, ops[0]) && TearsDown(Next(w, ops[0]), ops[1..])
  }

  /** So it is a session that closes its files. */
  lemma {:induction false} TearsDownIsRun(w: World, ops: seq<Op>)
    requires Inv(w) && TearsDown(w, ops)
    ensures Issuable(w, ops) && Run(w, ops).files == map[] && Run(w, ops).up.dentries.Keys == {Run(w, ops).up.root}
    decreases |ops|
  {
    if ops != [] {
      TearsDownIsRun(Next(w, ops[0]), ops[1..]);
    }
  }

  /** From every reachable state closing the open files and releasing dentries,
      each when it can be done, leads down to the root alone. */
  lemma {:induction false} TeardownExists(w: World) returns (ops: seq<Op>)
    requires Inv(w) && Grounded(w)
    ensures TearsDown(w, ops)
    decreases Remaining(w)
  {
    var op := NextToGo(w);
    if op.None? {
      return [];
    }
    NextGrounded(w, op.value);
    GoneIsLess(w, op.value);
    var rest := TeardownExists(Next(w, op.value));
    ops := [op.value] + rest;
    assert ops[1..] == rest;
  }
}
