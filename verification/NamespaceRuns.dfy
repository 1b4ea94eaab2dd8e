/** Runs of namespace operations: what holds of every state they reach. */
module NamespaceRuns {
  import opened Common
  import opened Namespace
  import opened Stacking
  import LowerTree

  datatype Op =
    | LookupOp(p: nat, name: string, d: nat, create: bool, found: LookupOutcome, supply: Option<nat>)
    | MakeOp(kind: Kind, d: nat, made: MakeOutcome)
    | LinkOp(src: nat, d: nat, linked: LinkOutcome)
    | RemoveOp(isDir: bool, d: nat, removed: RemoveOutcome)
    | RenameOp(a: nat, b: nat, renamed: RenameOutcome)
    | SetattrOp(d: nat, changeOk: int, sizeOk: int, notify: int)
    | RevalidateOp(d: nat, rcu: bool, answer: Option<int>)
    | ReleaseOp(d: nat)
    | EvictOp(i: nat)
    | OpenOp(f: nat, d: nat, noMemory: bool, lowerErr: int)
    | CloseOp(f: nat)

  /** What the VFS and the lower file system guarantee of an operation. */
  ghost predicate Can(w: World, op: Op) {
    match op
    case LookupOp(p, name, d, _, o, supply) => CanLookup(w, p, name, d, o, supply)
    case MakeOp(kind, d, o) => CanMake(w, kind, d, o)
    case LinkOp(src, d, o) => CanLink(w, src, d, o)
    case RemoveOp(isDir, d, o) => CanRemove(w, isDir, d, o)
    case RenameOp(a, b, o) => LowerTree.Closed(w.low.parent) && CanRename(w, a, b, o)
    case SetattrOp(d, _, _, _) => CanSetattr(w, d)
    case RevalidateOp(d, _, _) => d in w.up.dentries && d in w.up.path
    case ReleaseOp(d) => CanRelease(w, d)
    case EvictOp(i) => CanEvict(w, i)
    case OpenOp(f, d, _, _) => d in w.up.dentries && d in w.up.path && f !in w.files
    case CloseOp(f) => f in w.files
  }

  /** An inode can be had for a lower inode that is new to wrapfs: the one exit
      of wrapfs_iget that puts a reference it does not hold is not taken. */
  ghost predicate Supplied(w: World, op: Op)
    requires Can(w, op)
  {
    match op
    case LookupOp(_, _, _, _, o, supply) =>
      o.Found? ==> supply.Some? || Known(w.inodes, w.low.inode[o.l]) || w.super[w.low.inode[o.l]] != w.sb
    case MakeOp(_, _, o) => o.want == 0 && o.create == 0 ==> o.supply.Some?
    case _ => true
  }

  ghost function Effect(w: World, op: Op): World
    requires Can(w, op)
  {
    match op
    case LookupOp(p, name, d, create, o, supply) => Lookup(w, p, name, d, create, o, supply).0
    case MakeOp(kind, d, o) => Make(w, kind, d, o).0
    case LinkOp(src, d, o) => Link(w, src, d, o).0
    case RemoveOp(isDir, d, o) => Remove(w, isDir, d, o).0
    case RenameOp(a, b, o) => Rename(w, a, b, o).0
    case SetattrOp(d, changeOk, sizeOk, notify) => Setattr(w, d, changeOk, sizeOk, notify).0
    case RevalidateOp(_, _, _) => w
    case ReleaseOp(d) => Release(w, d)
    case EvictOp(i) => Evict(w, i)
    case OpenOp(f, d, noMemory, e) => Open(w, f, d, noMemory, e).0
    case CloseOp(f) => Close(w, f)
  }

  /** Every operation, on every exit, keeps the invariant. */
  lemma StepKeeps(w: World, op: Op)
    requires Inv(w) && Can(w, op) && Supplied(w, op)
    ensures Inv(Effect(w, op))
  {
    match op
    case LookupOp(p, name, d, create, o, supply) => LookupKeeps(w, p, name, d, create, o, supply);
    case MakeOp(kind, d, o) => MakeKeeps(w, kind, d, o);
    case LinkOp(src, d, o) => LinkKeeps(w, src, d, o);
    case RemoveOp(isDir, d, o) => RemoveKeeps(w, isDir, d, o);
    case RenameOp(a, b, o) => RenameKeeps(w, a, b, o);
    case ReleaseOp(d) => ReleaseKeeps(w, d);
    case EvictOp(i) => EvictKeeps(w, i);
    case SetattrOp(d, changeOk, sizeOk, notify) => SetattrKeeps(w, d, changeOk, sizeOk, notify);
    case RevalidateOp(_, _, _) =>
    case OpenOp(f, d, noMemory, e) => OpenKeeps(w, f, d, noMemory, e);
    case CloseOp(f) => CloseKeeps(w, f);
  }

  /** One step of a run; an operation that could not be issued is skipped. */
  ghost function Next(w: World, op: Op): (v: World)
    requires Inv(w)
    ensures Inv(v)
  {
    if Can(w, op) && Supplied(w, op) then StepKeeps(w, op); Effect(w, op) else w
  }

  /** Every run, whatever the lower calls return, keeps the square commuting,
      both maps one-to-one, the lower directories a tree, and every inode
      reference below accounted for by its owner. */
  ghost function Run(w: World, ops: seq<Op>): (v: World)
    requires Inv(w)
    ensures Inv(v)
    decreases |ops|
  {
    if ops == [] then w else Run(Next(w, ops[0]), ops[1..])
  }

  /** A sequence of operations each of which could be issued when its turn comes. */
  ghost predicate Issuable(w: World, ops: seq<Op>)
    requires Inv(w)
    decreases |ops|
  {
    ops == [] || (Can(w, ops[0]) && Supplied(w, ops[0]) && Issuable(Next(w, ops[0]), ops[1..]))
  }

  // ---------- path references ----------

  ghost predicate SamePaths(w: World, v: World) {
    v.up.path == w.up.path && v.files == w.files && v.opens == w.opens
  }

  lemma InterposePaths(w: World, d: nat, supply: Option<nat>)
    requires Interposable(w, d)
    ensures SamePaths(w, Interpose(w, d, supply).0)
  {
  }

  lemma MakePaths(w: World, kind: Kind, d: nat, o: MakeOutcome)
    requires CanMake(w, kind, d, o)
    ensures SamePaths(w, Make(w, kind, d, o).0)
  {
    InterposePaths(LowerMake(w, d, o.li, o.links, o.dirLinks), d, o.supply);
  }

  lemma LinkPaths(w: World, src: nat, d: nat, o: LinkOutcome)
    requires CanLink(w, src, d, o)
    ensures SamePaths(w, Link(w, src, d, o).0)
  {
    var li := w.inodes[w.up.dentries[src].inode.value];
    var low := w.low.(inode := w.low.inode[w.up.path[d] := li]);
    InterposePaths(w.(lowerLinks := w.lowerLinks[li := o.links], low := low), d, o.supply);
  }

  lemma RemovePaths(w: World, isDir: bool, d: nat, o: RemoveOutcome)
    requires CanRemove(w, isDir, d, o)
    ensures SamePaths(w, Remove(w, isDir, d, o).0)
  {
  }

  lemma RenamePaths(w: World, a: nat, b: nat, o: RenameOutcome)
    requires LowerTree.Closed(w.low.parent) && CanRename(w, a, b, o)
    ensures SamePaths(w, Rename(w, a, b, o).0)
  {
    RenameCases(w, a, b, o);
    assert SamePaths(w, Renamed(w, a, b, o));
  }

  /** A lookup adds at most its dentry. */
  lemma LookupPaths(w: World, p: nat, name: string, d: nat, create: bool, o: LookupOutcome, supply: Option<nat>)
    requires CanLookup(w, p, name, d, o, supply)
    ensures
      var v := Lookup(w, p, name, d, create, o, supply).0;
      && v.files == w.files && v.opens == w.opens
      && (v.up.path == w.up.path || (d in v.up.path && v.up.path == w.up.path[d := v.up.path[d]]))
  {
    if o.Found? {
      InterposePaths(AddDentry(w, d, Dentry(p, name, New, None), o.l), d, supply);
    }
  }

  /** What is held below after a step: one more path for a dentry or file that
      it made, one less for one that it ended. */
  ghost function HeldAfter(h: Held, w: World, v: World, op: Op): Held {
    match op
    case LookupOp(_, _, d, _, _, _) => if d !in w.up.path && d in v.up.path then h.GetPath(v.up.path[d]) else h
    case OpenOp(f, _, _, _) => if f !in w.files && f in v.files then h.GetPath(v.files[f]) else h
    case ReleaseOp(d) =>
      if d in w.up.path && d !in v.up.path && w.up.path[d] in h.dentries && h.mounts > 0
      then h.PutPath(w.up.path[d]) else h
    case CloseOp(f) =>
      if f in w.files && f !in v.files && w.files[f] in h.dentries && h.mounts > 0 then h.PutPath(w.files[f]) else h
    case _ => h
  }

  ghost function HeldRun(w: World, h: Held, ops: seq<Op>): Held
    requires Inv(w)
    decreases |ops|
  {
    if ops == [] then h else HeldRun(Next(w, ops[0]), HeldAfter(h, w, Next(w, ops[0]), ops[0]), ops[1..])
  }

  /** How a step may change paths and files. */
  ghost predicate PathStep(w: World, v: World, op: Op) {
    match op
    case LookupOp(_, _, d, _, _, _) =>
      && v.files == w.files && v.opens == w.opens
      && (v.up.path == w.up.path || (d !in w.up.path && d in v.up.path && v.up.path == w.up.path[d := v.up.path[d]]))
    case OpenOp(f, d, _, _) =>
      && v.up.path == w.up.path
      && (SamePaths(w, v) ||
          (f !in w.files && f in v.files && v.files == w.files[f := v.files[f]] && v.opens == w.opens[f := d]))
    case ReleaseOp(d) =>
      && v.files == w.files && v.opens == w.opens
      && (v.up.path == w.up.path || (d in w.up.path && v.up.path == w.up.path - {d}))
    case CloseOp(f) =>
      && v.up.path == w.up.path
      && (SamePaths(w, v) || (f in w.files && v.files == w.files - {f} && v.opens == w.opens - {f}))
    case _ => SamePaths(w, v)
  }

  lemma PathStepOwned(h: Held, w: World, v: World, op: Op)
    requires PathsOwned(h, w.up.path, w.files) && PathStep(w, v, op)
    ensures PathsOwned(HeldAfter(h, w, v, op), v.up.path, v.files)
  {
    if op.LookupOp? && v.up.path != w.up.path {
      TakePath(h, w.up.path, w.files, op.d, v.up.path[op.d]);
    } else if op.ReleaseOp? && v.up.path != w.up.path {
      GivePath(h, w.up.path, w.files, op.d);
    } else if op.OpenOp? || op.CloseOp? {
      FileStepOwned(h, w, v, op);
    }
  }

  lemma FileStepOwned(h: Held, w: World, v: World, op: Op)
    requires PathsOwned(h, w.up.path, w.files) && PathStep(w, v, op) && (op.OpenOp? || op.CloseOp?)
    ensures PathsOwned(HeldAfter(h, w, v, op), v.up.path, v.files)
  {
    if v.files != w.files {
      if op.OpenOp? {
        TakeFile(h, w.up.path, w.files, op.f, v.files[op.f]);
      } else {
        GiveFile(h, w.up.path, w.files, op.f);
      }
    }
  }

  lemma StepPaths(w: World, op: Op)
    requires Can(w, op)
    ensures PathStep(w, Effect(w, op), op)
  {
    match op
    case LookupOp(p, name, d, create, o, supply) => LookupPaths(w, p, name, d, create, o, supply);
    case MakeOp(kind, d, o) => MakePaths(w, kind, d, o);
    case LinkOp(src, d, o) => LinkPaths(w, src, d, o);
    case RemoveOp(isDir, d, o) => RemovePaths(w, isDir, d, o);
    case RenameOp(a, b, o) => RenamePaths(w, a, b, o);
    case SetattrOp(_, _, _, _) => AttrPaths(w, op);
    case RevalidateOp(_, _, _) => AttrPaths(w, op);
    case _ => LifePaths(w, op);
  }

  lemma AttrPaths(w: World, op: Op)
    requires Can(w, op) && (op.SetattrOp? || op.RevalidateOp?)
    ensures SamePaths(w, Effect(w, op))
  {
  }

  lemma LifePaths(w: World, op: Op)
    requires Can(w, op) && (op.ReleaseOp? || op.EvictOp? || op.OpenOp? || op.CloseOp?)
    ensures PathStep(w, Effect(w, op), op)
  {
  }

  /** Over whole lifetimes the lower paths held are those of the dentries and
      open files there are, one each, with no lock or write claim left over. */
  lemma {:induction false} RunPaths(w: World, h: Held, ops: seq<Op>)
    requires Inv(w) && PathsOwned(h, w.up.path, w.files)
    ensures PathsOwned(HeldRun(w, h, ops), Run(w, ops).up.path, Run(w, ops).files)
    decreases |ops|
  {
    if ops != [] {
      var v := Next(w, ops[0]);
      if Can(w, ops[0]) {
        StepPaths(w, ops[0]);
      }
      PathStepOwned(h, w, v, ops[0]);
      RunPaths(v, HeldAfter(h, w, v, ops[0]), ops[1..]);
    }
  }

  // ---------- paths ----------

  ghost function ParentOf(u: Upper, d: nat): (p: nat)
    requires UpperClosed(u) && d in u.dentries
    ensures p in u.dentries
  {
    assert DentryClosed(u, d);
    u.dentries[d].parent
  }

  /** The upper dentries by parent. */
  function Above(u: Upper): LowerTree.Parents {
    map d | d in u.dentries :: u.dentries[d].parent
  }

  lemma AboveClosed(u: Upper)
    requires UpperClosed(u)
    ensures LowerTree.Closed(Above(u))
  {
    forall d | d in Above(u)
      ensures Above(u)[d] in Above(u)
    {
      assert DentryClosed(u, d);
    }
  }

  /** `d` lies at least `k` levels below the mount's root. */
  ghost predicate Deep(u: Upper, d: nat, k: nat)
    requires UpperClosed(u) && d in u.dentries
    decreases k
  {
    k == 0 || (d != u.root && Deep(u, ParentOf(u, d), k - 1))
  }

  /** The last `k` components of the path to `d`. */
  ghost function Names(u: Upper, d: nat, k: nat): seq<string>
    requires UpperClosed(u) && d in u.dentries
    decreases k
  {
    if k == 0 then [] else Names(u, ParentOf(u, d), k - 1) + [u.dentries[d].name]
  }

  ghost function LowerNames(low: Lower, l: nat, k: nat): seq<string>
    requires LowerClosed(low) && LowerTree.Closed(low.parent) && l in low.parent
    decreases k
  {
    if k == 0 then [] else LowerNames(low, low.parent[l], k - 1) + [low.name[l]]
  }

  /** Walking up from an attached dentry and walking up below it meet each
      other's images. */
  lemma {:induction false} PathsMatch(u: Upper, inodes: map<nat, nat>, low: Lower, d: nat, k: nat)
    requires UpperClosed(u) && Square(u, inodes, low) && LowerClosed(low) && LowerTree.Closed(low.parent)
    requires Attached(u, d) && Deep(u, d, k)
    ensures LowerTree.Closed(Above(u))
    ensures
      var a, l := LowerTree.Climb(Above(u), d, k), u.path[d];
      && Attached(u, a) && l in low.parent
      && u.path[a] == LowerTree.Climb(low.parent, l, k)
    decreases k
  {
    AboveClosed(u);
    assert SquareAt(u, inodes, low, d) && DentryClosed(u, d);
    if k > 0 {
      PathsMatch(u, inodes, low, ParentOf(u, d), k - 1);
    }
  }

  lemma {:induction false} NamesMatch(u: Upper, inodes: map<nat, nat>, low: Lower, d: nat, k: nat)
    requires UpperClosed(u) && Square(u, inodes, low) && LowerClosed(low) && LowerTree.Closed(low.parent)
    requires Attached(u, d) && Deep(u, d, k)
    ensures u.path[d] in low.parent && Names(u, d, k) == LowerNames(low, u.path[d], k)
    decreases k
  {
    assert SquareAt(u, inodes, low, d) && DentryClosed(u, d);
    if k > 0 {
      NamesMatch(u, inodes, low, ParentOf(u, d), k - 1);
    }
  }

  /** `d` lies `k` levels below the mount's root. */
  ghost predicate Reaches(u: Upper, d: nat, k: nat)
    requires UpperClosed(u) && d in u.dentries
  {
    Deep(u, d, k) && LowerTree.Closed(Above(u)) && LowerTree.Climb(Above(u), d, k) == u.root
  }

  lemma ReachesAbove(u: Upper, d: nat, k: nat)
    requires UpperClosed(u) && d in u.dentries && d != u.root && Reaches(u, ParentOf(u, d), k)
    ensures Reaches(u, d, k + 1)
  {
  }

  /** An attached dentry reaches the mount's root, because its lower dentry
      reaches the root of the lower file system. */
  lemma {:induction false} ReachesRoot(u: Upper, inodes: map<nat, nat>, low: Lower, top: nat, d: nat, n: nat)
      returns (k: nat)
    requires UpperClosed(u) && Square(u, inodes, low) && Apart(u)
    requires LowerTree.Closed(low.parent) && top in low.parent && low.parent[top] == top
    requires Attached(u, d) && u.path[d] in low.parent && LowerTree.Climb(low.parent, u.path[d], n) == top
    ensures Reaches(u, d, k)
    decreases n
  {
    if d == u.root {
      AboveClosed(u);
      return 0;
    }
    assert SquareAt(u, inodes, low, d) && DentryClosed(u, d);
    NotTop(u, inodes, low, top, d);
    k := ReachesRoot(u, inodes, low, top, ParentOf(u, d), n - 1);
    ReachesAbove(u, d, k);
    k := k + 1;
  }

  /** In every reachable state the path of an attached dentry from the mount's
      root is, name by name, the path of its lower dentry from the directory
      below the root. */
  lemma PathsCommute(w: World, d: nat) returns (k: nat)
    requires Inv(w) && Attached(w.up, d)
    ensures Reaches(w.up, d, k) && w.up.path[d] in w.low.parent
    ensures LowerTree.Climb(w.low.parent, w.up.path[d], k) == w.up.path[w.up.root]
    ensures Names(w.up, d, k) == LowerNames(w.low, w.up.path[d], k)
  {
    assert SquareAt(w.up, w.inodes, w.low, d);
    assert LowerTree.Under(w.low.parent, w.top, w.up.path[d]);
    var n: nat :| LowerTree.Climb(w.low.parent, w.up.path[d], n) == w.top;
    k := ReachesRoot(w.up, w.inodes, w.low, w.top, d, n);
    PathsMatch(w.up, w.inodes, w.low, d, k);
    NamesMatch(w.up, w.inodes, w.low, d, k);
  }

  /** A climb that ends below the root does not pass it. */
  lemma {:induction false} ClimbIsDeep(u: Upper, d: nat, k: nat)
    requires UpperClosed(u) && d in u.dentries && LowerTree.Closed(Above(u)) &&
             LowerTree.Climb(Above(u), d, k) != u.root
    ensures Deep(u, d, k)
    decreases k
  {
    if k > 0 {
      if d == u.root {
        LowerTree.ClimbFixed(Above(u), d, k);
      } else {
        ClimbIsDeep(u, ParentOf(u, d), k - 1);
      }
    }
  }

  /** A move that would put an upper dentry under itself is one that would put
      its lower dentry under itself. */
  lemma UnderAboveUnderBelow(w: World, a: nat, b: nat)
    requires Inv(w) && Attached(w.up, b) && InDirectory(w, a) && InDirectory(w, b)
    requires LowerTree.Closed(Above(w.up)) && LowerTree.Under(Above(w.up), a, Above(w.up)[b])
    ensures UnderItself(w, a, b)
  {
    assert SquareAt(w.up, w.inodes, w.low, b) && DentryClosed(w.up, b);
    var p := w.up.dentries[b].parent;
    var k: nat :| LowerTree.Climb(Above(w.up), p, k) == a;
    ClimbIsDeep(w.up, p, k);
    PathsMatch(w.up, w.inodes, w.low, p, k);
  }

  /** So the lower trap test rejects it. */
  lemma TrapsCoverUpper(w: World, a: nat, b: nat, o: RenameOutcome)
    requires Inv(w) && CanRename(w, a, b, o)
    requires LowerTree.Closed(Above(w.up)) && LowerTree.Under(Above(w.up), a, Above(w.up)[b])
    ensures Rename(w, a, b, o) == (w, -EINVAL)
  {
    UnderAboveUnderBelow(w, a, b);
  }
}
