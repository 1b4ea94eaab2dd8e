/** Upper link counts mirror lower ones over runs, and exactly where they stop to. */
module LinkCounts {
  import opened Common
  import opened Namespace
  import opened Stacking
  import opened NamespaceRuns
  import LowerTree

  lemma MirrorBoth(inodes: map<nat, nat>, links: multiset<nat>, low: multiset<nat>, i: nat, n: nat)
    requires Injective(inodes) && Mirror(inodes, links, low) && i in inodes
    ensures Mirror(inodes, links[i := n], low[inodes[i] := n])
  {
    forall j | j in inodes
      ensures links[i := n][j] == low[inodes[i] := n][inodes[j]]
    {
      assert StandsOn(inodes, i, inodes[i]) && StandsOn(inodes, j, inodes[j]);
    }
  }

  lemma MirrorUnknown(inodes: map<nat, nat>, links: multiset<nat>, low: multiset<nat>, li: nat, n: nat)
    requires Mirror(inodes, links, low) && !Known(inodes, li)
    ensures Mirror(inodes, links, low[li := n])
  {
    assert forall j | j in inodes :: StandsOn(inodes, j, inodes[j]);
  }

  lemma MirrorNewInode(inodes: map<nat, nat>, links: multiset<nat>, low: multiset<nat>, i: nat, li: nat)
    requires Mirror(inodes, links, low) && i !in inodes
    ensures Mirror(inodes[i := li], links[i := low[li]], low)
  {
  }

  ghost predicate Mirrors(w: World) {
    Mirror(w.inodes, w.links, w.lowerLinks)
  }

  lemma InterposeMirrors(w: World, d: nat, supply: Option<nat>)
    requires Mirrors(w) && Interposable(w, d) && (supply.Some? ==> supply.value !in w.inodes)
    ensures Mirrors(Interpose(w, d, supply).0)
  {
  }

  /** The directory of a dentry and the directory below it stand on one another. */
  lemma DirsMatch(w: World, d: nat)
    requires Inv(w) && InDirectory(w, d) && Attached(w.up, d)
    ensures StandsOn(w.inodes, DirOf(w, d), LowerDirOf(w, d)) && LowerDirOf(w, d) in w.super
  {
    assert SquareAt(w.up, w.inodes, w.low, d) && DentryClosed(w.up, d);
    assert SquareAt(w.up, w.inodes, w.low, w.up.dentries[d].parent);
  }

  lemma LowerMakeMirrors(w: World, kind: Kind, d: nat, o: MakeOutcome)
    requires Inv(w) && Mirrors(w) && CanMake(w, kind, d, o) && o.want == 0 && o.create == 0 && !kind.Directory?
    ensures Mirrors(LowerMake(w, d, o.li, o.links, o.dirLinks))
  {
  }

  lemma MakeMirrors(w: World, kind: Kind, d: nat, o: MakeOutcome)
    requires Inv(w) && Mirrors(w) && CanMake(w, kind, d, o)
    requires o.want == 0 && o.create == 0 ==> o.supply.Some?
    ensures Mirrors(Make(w, kind, d, o).0)
  {
    if o.want == 0 && o.create == 0 {
      if kind.Directory? {
        MkdirMirrors(w, d, o);
      } else {
        LowerMakeMirrors(w, kind, d, o);
        InterposeMirrors(LowerMake(w, d, o.li, o.links, o.dirLinks), d, o.supply);
      }
    }
  }

  lemma MkdirMirrors(w: World, d: nat, o: MakeOutcome)
    requires Inv(w) && Mirrors(w) && CanMake(w, Directory, d, o) && o.want == 0 && o.create == 0 && o.supply.Some?
    ensures Mirrors(Make(w, Directory, d, o).0)
  {
    DirsMatch(w, d);
    assert !Known(w.inodes, o.li);
    var i, dir := o.supply.value, DirOf(w, d);
    var low := w.lowerLinks[o.li := o.links];
    MirrorUnknown(w.inodes, w.links, w.lowerLinks, o.li, o.links);
    MirrorBoth(w.inodes, w.links, low, dir, o.dirLinks);
    MirrorNewInode(w.inodes, w.links[dir := o.dirLinks], low[LowerDirOf(w, d) := o.dirLinks], i, o.li);
    assert w.links[i := low[o.li]][dir := o.dirLinks] == w.links[dir := o.dirLinks][i := low[o.li]];
  }

  lemma LinkMirrors(w: World, src: nat, d: nat, o: LinkOutcome)
    requires Injective(w.inodes) && Mirrors(w) && CanLink(w, src, d, o)
    requires o.want == 0 && o.link == 0 ==> o.instantiated
    ensures Mirrors(Link(w, src, d, o).0)
  {
    if o.want == 0 && o.link == 0 {
      var i := w.up.dentries[src].inode.value;
      assert StandsOn(w.inodes, i, w.inodes[i]);
      MirrorBoth(w.inodes, w.links, w.lowerLinks, i, o.links);
    }
  }

  lemma RemoveMirrors(w: World, isDir: bool, d: nat, o: RemoveOutcome)
    requires Inv(w) && Mirrors(w) && CanRemove(w, isDir, d, o)
    ensures Mirrors(Remove(w, isDir, d, o).0)
  {
    var i := w.up.dentries[d].inode.value;
    DirsMatch(w, d);
    var n := if o.remove == 0 then o.links else w.lowerLinks[w.inodes[i]];
    MirrorBoth(w.inodes, w.links, w.lowerLinks, i, n);
    MirrorBoth(w.inodes, w.links[i := n], w.lowerLinks[w.inodes[i] := n], DirOf(w, d), o.dirLinks);
  }

  /** The counts a rename leaves, once nothing stays put below. */
  lemma RenamedCounts(w: World, a: nat, b: nat, o: RenameOutcome)
    requires CanRename(w, a, b, o) && !SameInode(w.low, w.up.path[a], w.up.path[b])
    requires DirOf(w, a) == DirOf(w, b) <==> LowerDirOf(w, a) == LowerDirOf(w, b)
    ensures
      var v, m := Renamed(w, a, b, o), w.up.path[b];
      var counts := if m in w.low.inode then w.lowerLinks[w.low.inode[m] := o.victimLinks] else w.lowerLinks;
      && v.inodes == w.inodes
      && v.lowerLinks == counts[LowerDirOf(w, b) := o.newLinks][LowerDirOf(w, a) := o.oldLinks]
      && v.links == w.links[DirOf(w, b) := o.newLinks][DirOf(w, a) := o.oldLinks]
  {
    var v := Renamed(w, a, b, o);
    if DirOf(w, a) == DirOf(w, b) {
      assert w.links[DirOf(w, b) := o.newLinks][DirOf(w, a) := o.oldLinks] == w.links[DirOf(w, b) := o.newLinks];
    }
  }

  /** What the square says of the two directories of a rename. */
  lemma RenameDirs(w: World, a: nat, b: nat, o: RenameOutcome)
    requires Inv(w) && CanRename(w, a, b, o)
    ensures StandsOn(w.inodes, DirOf(w, a), LowerDirOf(w, a)) && StandsOn(w.inodes, DirOf(w, b), LowerDirOf(w, b))
    ensures DirOf(w, a) == DirOf(w, b) <==> LowerDirOf(w, a) == LowerDirOf(w, b)
    ensures !SameInode(w.low, w.up.path[a], w.up.path[b])
  {
    NeverSameInode(w, a, b, o);
    DirsMatch(w, a);
    DirsMatch(w, b);
  }

  lemma MirrorDirs(inodes: map<nat, nat>, links: multiset<nat>, low: multiset<nat>, x: nat, n: nat, y: nat, m: nat)
    requires Injective(inodes) && Mirror(inodes, links, low) && x in inodes && y in inodes
    ensures Mirror(inodes, links[x := n][y := m], low[inodes[x] := n][inodes[y] := m])
  {
    MirrorBoth(inodes, links, low, x, n);
    MirrorBoth(inodes, links[x := n], low[inodes[x] := n], y, m);
  }

  /** One lower count changed and not copied breaks the mirror. */
  lemma MirrorVictim(inodes: map<nat, nat>, links: multiset<nat>, low: multiset<nat>, x: nat, n: nat, y: nat, m: nat,
                     i: nat, c: nat)
    requires Mirror(inodes, links, low) && x in inodes && y in inodes && i in inodes
    requires inodes[i] != inodes[x] && inodes[i] != inodes[y] && c != low[inodes[i]]
    ensures !Mirror(inodes, links[x := n][y := m], low[inodes[i] := c][inodes[x] := n][inodes[y] := m])
  {
  }

  /** Onto a free name a rename keeps the mirror. */
  lemma RenamedMirrors(w: World, a: nat, b: nat, o: RenameOutcome)
    requires Inv(w) && Mirrors(w) && CanRename(w, a, b, o) && w.up.path[b] !in w.low.inode
    ensures Mirrors(Renamed(w, a, b, o))
  {
    RenameDirs(w, a, b, o);
    RenamedCounts(w, a, b, o);
    MirrorDirs(w.inodes, w.links, w.lowerLinks, DirOf(w, b), o.newLinks, DirOf(w, a), o.oldLinks);
  }

  /** A lower directory has one dentry. */
  ghost predicate OneDentry(low: Lower, dir: nat) {
    dir in low.inode && forall x | x in low.inode && low.inode[x] == low.inode[dir] :: x == dir
  }

  /** A replaced inode is neither directory of the rename: a directory is not its
      own entry, and the trap tests reject a move onto an ancestor. */
  lemma VictimIsNoDir(w: World, a: nat, b: nat, o: RenameOutcome)
    requires Inv(w) && CanRename(w, a, b, o) && !UnderItself(w, b, a) && w.up.path[b] in w.low.inode
    requires OneDentry(w.low, w.low.parent[w.up.path[a]]) && OneDentry(w.low, w.low.parent[w.up.path[b]])
    ensures w.low.inode[w.up.path[b]] != LowerDirOf(w, a) && w.low.inode[w.up.path[b]] != LowerDirOf(w, b)
  {
    LowerTree.UnderSelf(w.low.parent, w.low.parent[w.up.path[a]]);
  }

  lemma ReplacedBreaks(w: World, a: nat, b: nat, o: RenameOutcome)
    requires Inv(w) && Mirrors(w) && CanRename(w, a, b, o) && w.up.path[b] in w.low.inode
    requires
      var victim := w.low.inode[w.up.path[b]];
      victim != LowerDirOf(w, a) && victim != LowerDirOf(w, b) && o.victimLinks != w.lowerLinks[victim]
    ensures !Mirrors(Renamed(w, a, b, o))
  {
    assert DentryClosed(w.up, b) && SquareAt(w.up, w.inodes, w.low, b);
    RenameDirs(w, a, b, o);
    RenamedCounts(w, a, b, o);
    MirrorVictim(w.inodes, w.links, w.lowerLinks, DirOf(w, b), o.newLinks, DirOf(w, a), o.oldLinks,
                 w.up.dentries[b].inode.value, o.victimLinks);
  }

  /** Where the lower file system takes a link from the inode it replaces, a
      rename keeps the mirror iff the new name is free: wrapfs never
      copies the count of a replaced inode. */
  lemma RenameMirrorsIff(w: World, a: nat, b: nat, o: RenameOutcome)
    requires Inv(w) && Mirrors(w) && CanRename(w, a, b, o) && Rename(w, a, b, o).1 == 0
    requires OneDentry(w.low, w.low.parent[w.up.path[a]]) && OneDentry(w.low, w.low.parent[w.up.path[b]])
    requires w.up.path[b] in w.low.inode ==> o.victimLinks < w.lowerLinks[w.low.inode[w.up.path[b]]]
    ensures Mirrors(Rename(w, a, b, o).0) <==> w.up.path[b] !in w.low.inode
  {
    RenameCases(w, a, b, o);
    if w.up.path[b] in w.low.inode {
      VictimIsNoDir(w, a, b, o);
      ReplacedBreaks(w, a, b, o);
    } else {
      RenamedMirrors(w, a, b, o);
    }
  }

  /** Links are instantiated below, and renames go to free names. */
  ghost predicate Careful(w: World, op: Op)
    requires Can(w, op)
  {
    match op
    case LinkOp(_, _, o) => o.want == 0 && o.link == 0 ==> o.instantiated
    case RenameOp(_, b, _) => w.up.path[b] !in w.low.inode
    case _ => true
  }

  ghost predicate CarefulRun(w: World, ops: seq<Op>)
    requires Inv(w)
    decreases |ops|
  {
    ops == [] || ((Can(w, ops[0]) ==> Careful(w, ops[0])) && CarefulRun(Next(w, ops[0]), ops[1..]))
  }

  lemma LookupMirrors(w: World, op: Op)
    requires Mirrors(w) && op.LookupOp? && Can(w, op)
    ensures Mirrors(Lookup(w, op.p, op.name, op.d, op.create, op.found, op.supply).0)
  {
  }

  lemma StepMirrors(w: World, op: Op)
    requires Inv(w) && Mirrors(w) && Can(w, op) && Supplied(w, op) && Careful(w, op)
    ensures Mirrors(Effect(w, op))
  {
    if op.LookupOp? {
      LookupMirrors(w, op);
    } else if op.MakeOp? {
      MakeMirrors(w, op.kind, op.d, op.made);
    } else if op.LinkOp? {
      LinkMirrors(w, op.src, op.d, op.linked);
    } else if op.RemoveOp? {
      RemoveMirrors(w, op.isDir, op.d, op.removed);
    } else if op.RenameOp? {
      RenamedMirrors(w, op.a, op.b, op.renamed);
      RenameCases(w, op.a, op.b, op.renamed);
    } else {
      OtherMirrors(w, op);
    }
  }

  lemma OtherMirrors(w: World, op: Op)
    requires Mirrors(w) && Can(w, op) && !op.LookupOp? && !op.MakeOp? && !op.LinkOp? && !op.RemoveOp? && !op.RenameOp?
    ensures Mirrors(Effect(w, op))
  {
  }

  /** Over every careful run the upper link counts are the lower ones. */
  lemma {:induction false} RunMirrors(w: World, ops: seq<Op>)
    requires Inv(w) && Mirrors(w) && CarefulRun(w, ops)
    ensures Mirrors(Run(w, ops))
    decreases |ops|
  {
    if ops != [] {
      if Can(w, ops[0]) && Supplied(w, ops[0]) {
        StepMirrors(w, ops[0]);
      }
      RunMirrors(Next(w, ops[0]), ops[1..]);
    }
  }

  /** The failure exit of wrapfs_iget is the one that unbalances the inode
      references: a create keeps everything iff an inode could be had. */
  lemma CreateBalancedIff(w: World, kind: Kind, d: nat, o: MakeOutcome)
    requires Inv(w) && CanMake(w, kind, d, o) && o.want == 0 && o.create == 0
    ensures Inv(Make(w, kind, d, o).0) <==> o.supply.Some?
    ensures o.supply.None? ==> Make(w, kind, d, o).1 == -EACCES && Make(w, kind, d, o).0.grabs.overput == multiset{o.li}
  {
    assert !Known(w.inodes, o.li);
    if o.supply.Some? {
      MakeKeeps(w, kind, d, o);
    }
  }
}
