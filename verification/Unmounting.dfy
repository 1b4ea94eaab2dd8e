/** The whole life of a mount, from wrapfs_read_super through any session to
    generic_shutdown_super and wrapfs_put_super, in one account: all that was
    taken below is given back. */
module Unmounting {
  import opened Common
  import opened Namespace
  import opened Stacking
  import opened NamespaceRuns
  import opened UpperTree
  import opened Wrapfs
  import opened Simulation
  import opened MountOptions
  import InodeIndex
  import LowerTree
  import Tally

  const NOTHING_HELD := Held(multiset{}, 0, multiset{}, 0, 0, false)
  const NOTHING_GRABBED := Grabs(multiset{}, multiset{})

  lemma EmptyBag(bag: multiset<nat>)
    requires Tally.Matches(bag, map[], map[])
    ensures bag == multiset{}
  {
    assert forall x: nat :: Tally.Pointing(map[], x) == {};
  }

  /** What shrinking relies on: all dentries hang from the root, and each owns
      its lower path. */
  ghost predicate Hangs(u: Upper, h: Held) {
    Rooted(u) && u.path.Keys == u.dentries.Keys && PathsOwned(h, u.path, map[])
  }

  /** There is always a leaf other than the root to go next. */
  lemma LeafThere(u: Upper)
    requires Rooted(u) && u.dentries.Keys != {u.root}
    ensures exists d :: d != u.root && LowerTree.IsLeaf(Above(u), d)
  {
    assert u.root in Above(u);
    var n :| n in u.dentries && n != u.root;
    var d := LowerTree.FindLeaf(Above(u), u.root, n);
  }

  lemma LeafGone(u: Upper, h: Held, d: nat)
    requires Hangs(u, h) && d != u.root && LowerTree.IsLeaf(Above(u), d)
    ensures u.path[d] in h.dentries && h.mounts > 0
    ensures Hangs(u.(dentries := u.dentries - {d}, path := u.path - {d}), h.PutPath(u.path[d]))
    ensures |u.dentries - {d}| < |u.dentries|
  {
    AboveFewer(u, u.(dentries := u.dentries - {d}, path := u.path - {d}), d);
    LowerTree.LeafRemoved(Above(u), u.root, d);
    GivePath(h, u.path, map[], d);
    SizeRemoved(u.dentries, d);
  }

  method ReleaseRoot(m: Mount)
    requires Hangs(m.up, m.held) && m.up.dentries.Keys == {m.up.root}
    modifies m`up, m`held
    ensures m.up.dentries == map[] && PathsOwned(m.held, map[], map[])
  {
    GivePath(m.held, m.up.path, map[], m.up.root);
    assert m.up.path - {m.up.root} == map[];
    m.Release(m.up.root);
  }

  /** shrink_dcache_for_umount: dentries go leaf by leaf, in whatever order, and
      the root last. */
  method ShrinkDcache(m: Mount)
    requires Hangs(m.up, m.held)
    modifies m`up, m`held
    ensures m.up.dentries == map[] && PathsOwned(m.held, map[], map[])
  {
    while m.up.dentries.Keys != {m.up.root}
      invariant Hangs(m.up, m.held)
      decreases |m.up.dentries|
    {
      LeafThere(m.up);
      var d :| d in m.up.dentries && d != m.up.root && LowerTree.IsLeaf(Above(m.up), d);
      LeafGone(m.up, m.held, d);
      m.Release(d);
    }
    ReleaseRoot(m);
  }

  /** evict_inodes. */
  method EvictInodes(m: Mount)
    requires InodeIndex.Indexed(m.chains, m.inodes, m.ino) && InodesOwned(m.grabs, m.inodes)
    modifies m`inodes, m`grabs, m`chains
    ensures m.inodes == map[] && m.grabs == NOTHING_GRABBED
  {
    while m.inodes != map[]
      invariant InodeIndex.Indexed(m.chains, m.inodes, m.ino) && InodesOwned(m.grabs, m.inodes)
      decreases |m.inodes|
    {
      var i :| i in m.inodes;
      Tally.Give(m.grabs.inodes, m.inodes, map[], i);
      SizeRemoved(m.inodes, i);
      m.Evict(i);
    }
    EmptyBag(m.grabs.inodes);
  }

  lemma ValidHangs(m: Mount)
    requires m.Valid() && Grounded(m.State()) && m.files == map[]
    ensures Hangs(m.up, m.held)
  {
  }

  /** generic_shutdown_super. With no file open, everything wrapfs holds below
      is given back, the active reference to the lower superblock included. */
  method Unmount(m: Mount)
    requires m.Valid() && Grounded(m.State()) && m.files == map[]
    modifies m
    ensures m.held == NOTHING_HELD && m.grabs == NOTHING_GRABBED
    ensures m.up.dentries == map[] && m.inodes == map[]
  {
    ValidHangs(m);
    ShrinkDcache(m);
    EmptyBag(m.held.dentries);
    EvictInodes(m);
    m.PutSuper();
  }

  /** What mounting took, in the account of a mount on lower dentry `l` over
      lower inode `li`. */
  function Account(s: Super, l: nat, li: nat): (Held, Grabs) {
    (Held(multiset{}[l := Max(0, s.path)], Max(0, s.path), multiset{}, 0, Max(0, s.active), s.info),
     Grabs(multiset{}[li := Max(0, s.grabs)], multiset{}[li := Max(0, -s.grabs)]))
  }

  lemma AccountOfNothing(l: nat, li: nat)
    ensures Account(NOTHING, l, li) == (NOTHING_HELD, NOTHING_GRABBED)
  {
    assert multiset{}[l := 0] == multiset{} && multiset{}[li := 0] == multiset{};
  }

  lemma AccountOfMount(l: nat, li: nat)
    ensures Account(Super(1, 1, true, 1, 1, true, false), l, li) ==
            (Held(multiset{l}, 1, multiset{}, 0, 1, true), Grabs(multiset{li}, multiset{}))
  {
    assert multiset{}[l := 1] == multiset{l} && multiset{}[li := 1] == multiset{li} &&
           multiset{}[li := 0] == multiset{};
  }

  lemma FreshGrounded(top: nat, sb: nat, low: Lower, super: map<nat, nat>, lowerLinks: multiset<nat>, root: nat,
                      i: nat, l: nat)
    requires l in low.inode
    ensures Grounded(FreshMount(top, sb, low, super, lowerLinks, root, i, l))
  {
    var u := FreshMount(top, sb, low, super, lowerLinks, root, i, l).up;
    assert Above(u) == map[root := root];
    LowerTree.UnderSelf(Above(u), root);
  }

  /** A session that could be issued and leaves no file open. */
  ghost predicate Closes(w: World, ops: seq<Op>) {
    Inv(w) && Issuable(w, ops) && Run(w, ops).files == map[]
  }

  /** Every reachable state has one, of closings and releases only. */
  lemma AlwaysCloses(w: World) returns (ops: seq<Op>)
    requires Inv(w) && Grounded(w)
    ensures Closes(w, ops) && TearsDown(w, ops)
  {
    ops := TeardownExists(w);
    TearsDownIsRun(w, ops);
  }

  /** From any valid mount, any such session followed by unmounting gives back
      all that is held. */
  method Serve(m: Mount, ops: seq<Op>)
    requires m.Valid() && Grounded(m.State()) && Closes(m.State(), ops)
    modifies m
    ensures m.held == NOTHING_HELD && m.grabs == NOTHING_GRABBED
  {
    RunGrounded(m.State(), ops);
    var nd := new Nameidata(0);
    Session(m, ops, nd);
    Unmount(m);
  }

  /** A mount, a session, and unmounting. The account that mounting leaves is
      the one that the session starts with. */
  method MountAndServe(s: Super, ino: nat -> nat, top: nat, sb: nat, low: Lower, super: map<nat, nat>,
                       lowerLinks: multiset<nat>, root: nat, i: nat, l: nat, ops: seq<Op>)
      returns (held: Held, grabs: Grabs)
    requires s == Super(1, 1, true, 1, 1, true, false)
    requires LowerClosed(low) && LowerTree.IsTree(low.parent, top) && ValuesIn(low.inode, super) && l in low.inode
    requires Closes(FreshMount(top, sb, low, super, lowerLinks, root, i, l), ops)
    ensures held == NOTHING_HELD && grabs == NOTHING_GRABBED
  {
    var m := new Mount(ino, top, sb, low, super, lowerLinks, root, i, l);
    AccountOfMount(l, low.inode[l]);
    assert (m.held, m.grabs) == Account(s, l, low.inode[l]);
    FreshGrounded(top, sb, low, super, lowerLinks, root, i, l);
    Serve(m, ops);
    held, grabs := m.held, m.grabs;
  }

  /** The life of a mount. However wrapfs_read_super ends, and whatever a session
      that closes its files did in between, all is given back at the end, but for
      a mount that fails where its account is uneven; and wrapfs_mount faults
      after every one that fails. */
  method Lifetime(o: MountOutcome, options: Option<string>, level: string -> Option<bool>,
                  ino: nat -> nat, top: nat, sb: nat, low: Lower, super: map<nat, nat>, lowerLinks: multiset<nat>,
                  root: nat, i: nat, l: nat, ops: seq<Op>) returns (fault: bool, held: Held, grabs: Grabs)
    requires o.PathFails? ==> o.errno > 0
    requires LowerClosed(low) && LowerTree.IsTree(low.parent, top) && ValuesIn(low.inode, super) && l in low.inode
    requires Closes(FreshMount(top, sb, low, super, lowerLinks, root, i, l), ops)
    ensures fault <==> !o.Mounts?
    ensures !Uneven(o) ==> held == NOTHING_HELD && grabs == NOTHING_GRABBED
  {
    var s, vfs := WrapfsMount(o, options, level, i);
    fault := vfs.None?;
    if vfs.Some? {
      held, grabs := MountAndServe(s, ino, top, sb, low, super, lowerLinks, root, i, l, ops);
    } else {
      AccountOfNothing(l, low.inode[l]);
      var account := Account(s, l, low.inode[l]);
      held, grabs := account.0, account.1;
    }
  }
}
