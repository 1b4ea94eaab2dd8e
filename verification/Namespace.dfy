/** The stacking layer as a state: upper dentries and inodes interposed on lower
    ones, and an account of every reference, lock and write claim wrapfs holds
    below. Each namespace operation of inode.c and lookup.c is given as its
    net effect, over every outcome of the lower calls. */
module Namespace {
  import opened Common
  import LowerTree
  import Tally

  // ---------- what is held below ----------

  /** What wrapfs holds: dentry and mount references, mutexes, write claims,
      active references to the lower superblock, and its own superblock's
      private data. */
  datatype Held = Held(dentries: multiset<nat>, mounts: nat, mutexes: multiset<nat>, writers: nat, supers: nat,
                       info: bool) {
    function Dget(l: nat): Held {
      this.(dentries := dentries + multiset{l})
    }

    function Dput(l: nat): Held
      requires l in dentries
    {
      this.(dentries := dentries - multiset{l})
    }

    function GetPath(l: nat): Held {
      Dget(l).(mounts := mounts + 1)
    }

    function PutPath(l: nat): Held
      requires l in dentries && mounts > 0
    {
      Dput(l).(mounts := mounts - 1)
    }

    /** Taking a mutex one already holds would never return. */
    function Lock(i: nat): Held
      requires i !in mutexes
    {
      this.(mutexes := mutexes + multiset{i})
    }

    function Unlock(i: nat): Held
      requires i in mutexes
    {
      this.(mutexes := mutexes - multiset{i})
    }
  }

  /** The references taken on lower inodes; `overput` counts releases of a
      reference that was never taken. */
  datatype Grabs = Grabs(inodes: multiset<nat>, overput: multiset<nat>)

  // ---------- the state ----------

  /** A dentry fresh from a lookup with intent to create is not hashed until an
      inode is added; one that was removed or replaced is dropped. */
  datatype Stage = New | Hashed | Dropped

  datatype Dentry = Dentry(parent: nat, name: string, stage: Stage, inode: Option<nat>)

  /** The upper dentries, and in `path` the lower dentry each stands on. */
  datatype Upper = Upper(root: nat, dentries: map<nat, Dentry>, path: map<nat, nat>)

  /** The lower dentries; those in `inode` are positive. */
  datatype Lower = Lower(parent: LowerTree.Parents, name: map<nat, string>, inode: map<nat, nat>, hashed: set<nat>)

  datatype World = World(
    up: Upper,
    inodes: map<nat, nat>,       // upper inode to lower inode
    links: multiset<nat>,        // link counts of upper inodes
    low: Lower,
    top: nat,                    // the root of the lower file system
    sb: nat,                     // the lower superblock
    super: map<nat, nat>,        // lower inode to its superblock
    lowerLinks: multiset<nat>,   // link counts of lower inodes
    files: map<nat, nat>,        // open file to the lower dentry its lower file holds
    opens: map<nat, nat>,        // open file to its upper dentry
    grabs: Grabs)

  predicate Attached(u: Upper, d: nat) {
    d in u.dentries && !u.dentries[d].stage.Dropped?
  }

  // ---------- what every reachable state satisfies ----------

  ghost predicate DentryClosed(u: Upper, d: nat)
    requires d in u.dentries
  {
    var e := u.dentries[d];
    && e.parent in u.dentries
    && (e.stage.New? ==> e.inode.None?)
    && (e.stage.Hashed? ==> e.inode.Some?)
    && (!e.stage.Dropped? && d != u.root ==> e.parent != d && u.dentries[e.parent].stage.Hashed?)
  }

  ghost predicate UpperClosed(u: Upper) {
    && (forall d :: d in u.path <==> d in u.dentries)
    && u.root in u.dentries && u.dentries[u.root].stage == Hashed && u.dentries[u.root].parent == u.root
    && forall d {:trigger DentryClosed(u, d)} | d in u.dentries :: DentryClosed(u, d)
  }

  ghost predicate ValuesIn(m: map<nat, nat>, n: map<nat, nat>) {
    forall k | k in m :: m[k] in n
  }

  ghost predicate LowerClosed(l: Lower) {
    (forall x | x in l.parent :: x in l.name) && forall x | x in l.inode :: x in l.parent
  }

  /** The square commutes at `d`: the lower inode of its inode is the inode of
      its lower dentry, and below its parent lies the parent of its lower
      dentry, hashed under the same name. A new dentry stands on a negative one. */
  ghost predicate SquareAt(u: Upper, inodes: map<nat, nat>, l: Lower, d: nat)
    requires d in u.dentries
  {
    var e := u.dentries[d];
    && d in u.path && u.path[d] in l.parent && u.path[d] in l.name
    && (e.inode.Some? ==>
          && e.inode.value in inodes && u.path[d] in l.inode
          && l.inode[u.path[d]] == inodes[e.inode.value])
    && (e.stage.New? ==> u.path[d] !in l.inode)
    && (!e.stage.Dropped? && d != u.root ==>
          && e.parent in u.path && u.path[d] in l.hashed
          && l.parent[u.path[d]] == u.path[e.parent]
          && l.name[u.path[d]] == e.name)
  }

  ghost predicate Square(u: Upper, inodes: map<nat, nat>, l: Lower) {
    forall d {:trigger SquareAt(u, inodes, l, d)} | d in u.dentries :: SquareAt(u, inodes, l, d)
  }

  /** No two attached dentries share a lower dentry. */
  ghost predicate Apart(u: Upper) {
    forall d, e {:trigger Attached(u, d), Attached(u, e)} |
      Attached(u, d) && Attached(u, e) && d in u.path && e in u.path && u.path[d] == u.path[e] :: d == e
  }

  /** No two attached dentries have one name in one directory. */
  ghost predicate Distinct(u: Upper) {
    forall d, e {:trigger Attached(u, d), Attached(u, e)} |
      && Attached(u, d) && Attached(u, e) && d != u.root && e != u.root
      && u.dentries[d].parent == u.dentries[e].parent && u.dentries[d].name == u.dentries[e].name :: d == e
  }

  predicate StandsOn(inodes: map<nat, nat>, i: nat, li: nat) {
    i in inodes && inodes[i] == li
  }

  /** No two upper inodes share a lower inode. */
  ghost predicate Injective(inodes: map<nat, nat>) {
    forall i, j, li {:trigger StandsOn(inodes, i, li), StandsOn(inodes, j, li)} |
      StandsOn(inodes, i, li) && StandsOn(inodes, j, li) :: i == j
  }

  /** Each upper inode holds one reference to its lower inode, and nothing else does. */
  ghost predicate InodesOwned(g: Grabs, inodes: map<nat, nat>) {
    Tally.Matches(g.inodes, inodes, map[]) && g.overput == multiset{}
  }

  /** Nothing is held but what a dentry or an open file owns, one path each, and
      what the superblock owns, one active reference. */
  ghost predicate PathsOwned(h: Held, path: map<nat, nat>, files: map<nat, nat>) {
    && Tally.Matches(h.dentries, path, files)
    && h.mounts == |path| + |files| && h.mutexes == multiset{} && h.writers == 0
    && h.supers == 1 && h.info
  }

  ghost predicate Inv(w: World) {
    && UpperClosed(w.up) && LowerClosed(w.low)
    && ValuesIn(w.low.inode, w.super) && ValuesIn(w.inodes, w.super)
    && Square(w.up, w.inodes, w.low)
    && Apart(w.up) && Distinct(w.up)
    && Injective(w.inodes)
    && LowerTree.IsTree(w.low.parent, w.top)
    && InodesOwned(w.grabs, w.inodes)
  }

  /** Upper link counts mirror lower ones. */
  ghost predicate Mirror(inodes: map<nat, nat>, links: multiset<nat>, lowerLinks: multiset<nat>) {
    forall i | i in inodes :: links[i] == lowerLinks[inodes[i]]
  }

  // ---------- interposition ----------

  ghost predicate Known(inodes: map<nat, nat>, li: nat) {
    exists i :: StandsOn(inodes, i, li)
  }

  ghost function UpperOf(inodes: map<nat, nat>, li: nat): (i: nat)
    requires Known(inodes, li)
    ensures StandsOn(inodes, i, li)
  {
    var i :| StandsOn(inodes, i, li);
    i
  }

  /** wrapfs_iget: the upper inode of a lower one, made from `supply` if there is
      none yet. When no inode can be had the lower inode is put all the same. */
  ghost function IGet(w: World, li: nat, supply: Option<nat>): (World, Option<nat>) {
    if Known(w.inodes, li) then (w, Some(UpperOf(w.inodes, li)))
    else if supply.None? then (w.(grabs := w.grabs.(overput := w.grabs.overput + multiset{li})), None)
    else
      (w.(inodes := w.inodes[supply.value := li], links := w.links[supply.value := w.lowerLinks[li]],
          grabs := w.grabs.(inodes := w.grabs.inodes + multiset{li})), supply)
  }

  ghost predicate Interposable(w: World, d: nat) {
    && d in w.up.dentries && d in w.up.path && w.up.path[d] in w.low.inode
    && w.low.inode[w.up.path[d]] in w.super
  }

  /** d_add: the dentry gets an inode and is hashed. */
  function Hash(u: Upper, d: nat, i: nat): Upper
    requires d in u.dentries
  {
    u.(dentries := u.dentries[d := u.dentries[d].(inode := Some(i), stage := Hashed)])
  }

  /** wrapfs_interpose: give `d` the inode that stands on its lower inode, and hash it. */
  ghost function Interpose(w: World, d: nat, supply: Option<nat>): (World, int)
    requires Interposable(w, d)
  {
    var li := w.low.inode[w.up.path[d]];
    if w.super[li] != w.sb then (w, -EXDEV)
    else
      var (v, i) := IGet(w, li, supply);
      if i.None? then (v, -EACCES) else (v.(up := Hash(v.up, d, i.value)), 0)
  }

  // ---------- lookup ----------

  /** Where __wrapfs_lookup gets to: no private data, a lower error other than
      ENOENT, a lower dentry with an inode, or none with the name; then `neg` is
      the negative lower dentry, found or allocated, if there was memory. */
  datatype LookupOutcome = NoPrivate | Fails(errno: int) | Found(l: nat) | Missing(neg: Option<nat>)

  /** `l` is the lower dentry of that name in the directory below `p`. */
  ghost predicate ChildBelow(w: World, p: nat, name: string, l: nat) {
    && p in w.up.path && l in w.low.parent && l in w.low.name && l in w.low.hashed
    && w.low.parent[l] == w.up.path[p] && w.low.name[l] == name
  }

  /** The VFS looks a name up only in a live directory where no dentry has it.
      The lower lookup answers with that directory's child, never with the
      directory wrapfs is mounted on, unless it crossed into another file system. */
  ghost predicate CanLookup(w: World, p: nat, name: string, d: nat, o: LookupOutcome, supply: Option<nat>) {
    && Attached(w.up, p) && w.up.dentries[p].stage == Hashed && p in w.up.path
    && d !in w.up.dentries && d !in w.up.path && w.up.root in w.up.path
    && (forall e | Attached(w.up, e) && e != w.up.root ::
         !(w.up.dentries[e].parent == p && w.up.dentries[e].name == name))
    && (supply.Some? ==> supply.value !in w.inodes)
    && (o.Found? ==>
          && o.l in w.low.parent && o.l in w.low.inode && w.low.inode[o.l] in w.super
          && (w.super[w.low.inode[o.l]] == w.sb ==> ChildBelow(w, p, name, o.l) && o.l != w.up.path[w.up.root]))
    && (o.Missing? && o.neg.Some? && o.neg.value in w.low.parent ==>
          ChildBelow(w, p, name, o.neg.value) && o.neg.value !in w.low.inode)
  }

  /** A new dentry with a lower path. */
  function AddDentry(w: World, d: nat, e: Dentry, l: nat): World {
    w.(up := w.up.(dentries := w.up.dentries[d := e], path := w.up.path[d := l]))
  }

  /** A negative lower dentry, unless it is there already. */
  function AddLower(low: Lower, l: nat, parent: nat, name: string): Lower {
    if l in low.parent then low
    else low.(parent := low.parent[l := parent], name := low.name[l := name], hashed := low.hashed + {l})
  }

  /** The positive half of __wrapfs_lookup: the path found is handed to the
      dentry, and put again if interposition fails. */
  ghost function LookupFound(w: World, p: nat, name: string, d: nat, l: nat, supply: Option<nat>): (World, int)
    requires l in w.low.inode && w.low.inode[l] in w.super
  {
    var (v, err) := Interpose(AddDentry(w, d, Dentry(p, name, New, None), l), d, supply);
    if err != 0 then (w.(grabs := v.grabs), err) else (v, 0)
  }

  /** wrapfs_lookup. A dentry whose lookup fails is released by the VFS at once. */
  ghost function Lookup(w: World, p: nat, name: string, d: nat, create: bool, o: LookupOutcome,
                        supply: Option<nat>): (World, int)
    requires CanLookup(w, p, name, d, o, supply)
  {
    match o
    case NoPrivate => (w, -ENOMEM)
    case Fails(e) => (w, -e)
    case Found(l) => LookupFound(w, p, name, d, l, supply)
    case Missing(None) => (w, -ENOMEM)
    case Missing(Some(l)) =>
      var v := w.(low := AddLower(w.low, l, w.up.path[p], name));
      if create then (AddDentry(v, d, Dentry(p, name, New, None), l), 0) else (v, -ENOENT)
  }

  // ---------- create, symlink, mkdir, mknod ----------

  datatype Kind = Regular | Symlink | Directory | Special

  /** Results of mnt_want_write and of the lower create; `li` is the new lower
      inode, `links` its link count and `dirLinks` the directory's afterwards. */
  datatype MakeOutcome = MakeOutcome(want: int, create: int, li: nat, links: nat, dirLinks: nat, supply: Option<nat>)

  /** `d` lies in a directory: there is an inode above and below to hold it. */
  ghost predicate InDirectory(w: World, d: nat) {
    && d in w.up.dentries && d != w.up.root && d in w.up.path
    && w.up.dentries[d].parent in w.up.dentries && w.up.dentries[w.up.dentries[d].parent].inode.Some?
    && w.up.path[d] in w.low.parent && w.up.path[d] in w.low.name && w.low.parent[w.up.path[d]] in w.low.parent
    && w.low.parent[w.up.path[d]] != w.up.path[d] && w.low.parent[w.up.path[d]] in w.low.inode
  }

  /** The inode of the directory that holds `d`. */
  function DirOf(w: World, d: nat): nat
    requires d in w.up.dentries && w.up.dentries[d].parent in w.up.dentries &&
             w.up.dentries[w.up.dentries[d].parent].inode.Some?
  {
    w.up.dentries[w.up.dentries[d].parent].inode.value
  }

  /** The inode of the lower directory that holds what lies below `d`. */
  function LowerDirOf(w: World, d: nat): nat
    requires d in w.up.path && w.up.path[d] in w.low.parent && w.low.parent[w.up.path[d]] in w.low.inode
  {
    w.low.inode[w.low.parent[w.up.path[d]]]
  }

  ghost predicate CanMake(w: World, kind: Kind, d: nat, o: MakeOutcome) {
    && InDirectory(w, d) && w.up.dentries[d].stage == New
    && (o.supply.Some? ==> o.supply.value !in w.inodes)
    && (o.want == 0 && o.create == 0 ==>
          && o.li !in w.super
          && (!kind.Directory? ==> o.dirLinks == w.lowerLinks[LowerDirOf(w, d)]))
  }

  /** The lower file system makes an inode for the dentry below `d`. */
  function LowerMake(w: World, d: nat, li: nat, links: nat, dirLinks: nat): World
    requires d in w.up.path && w.up.path[d] in w.low.parent && w.low.parent[w.up.path[d]] in w.low.inode
  {
    w.(low := w.low.(inode := w.low.inode[w.up.path[d] := li]),
       super := w.super[li := w.sb],
       lowerLinks := w.lowerLinks[li := links][LowerDirOf(w, d) := dirLinks])
  }

  ghost function Make(w: World, kind: Kind, d: nat, o: MakeOutcome): (World, int)
    requires CanMake(w, kind, d, o)
  {
    if o.want != 0 then (w, o.want)
    else if o.create != 0 then (w, o.create)
    else
      var (u, err) := Interpose(LowerMake(w, d, o.li, o.links, o.dirLinks), d, o.supply);
      if err != 0 then (u, err)
      else if kind.Directory? then (u.(links := u.links[DirOf(w, d) := o.dirLinks]), 0)
      else (u, 0)
  }

  // ---------- link ----------

  /** `instantiated` is whether a successful lower link left the new dentry positive. */
  datatype LinkOutcome = LinkOutcome(want: int, link: int, instantiated: bool, links: nat, supply: Option<nat>)

  ghost predicate Positive(w: World, d: nat) {
    && d in w.up.dentries && w.up.dentries[d].inode.Some?
    && w.up.dentries[d].inode.value in w.inodes
    && w.inodes[w.up.dentries[d].inode.value] in w.super
  }

  ghost predicate CanLink(w: World, src: nat, d: nat, o: LinkOutcome) {
    && InDirectory(w, d) && w.up.dentries[d].stage == New && Positive(w, src)
    && (o.supply.Some? ==> o.supply.value !in w.inodes)
    && w.super[w.inodes[w.up.dentries[src].inode.value]] == w.sb
  }

  ghost function Link(w: World, src: nat, d: nat, o: LinkOutcome): (World, int)
    requires CanLink(w, src, d, o)
  {
    if o.want != 0 then (w, o.want)
    else if o.link != 0 then (w, o.link)
    else
      var i := w.up.dentries[src].inode.value;
      var v := w.(lowerLinks := w.lowerLinks[w.inodes[i] := o.links]);
      if !o.instantiated then (v, 0)
      else
        var (u, err) := Interpose(v.(low := v.low.(inode := v.low.inode[w.up.path[d] := w.inodes[i]])), d, o.supply);
        if err != 0 then (u, err) else (u.(links := u.links[i := o.links]), 0)
  }

  // ---------- unlink and rmdir ----------

  datatype RemoveOutcome = RemoveOutcome(want: int, remove: int, silly: bool, links: nat, dirLinks: nat)

  ghost predicate NoChildren(u: Upper, d: nat) {
    forall e | Attached(u, e) && e != u.root :: u.dentries[e].parent != d
  }

  /** The VFS removes a hashed name with nothing in it; a directory is not an
      entry of itself, and a removed directory has no links left. */
  ghost predicate CanRemove(w: World, isDir: bool, d: nat, o: RemoveOutcome) {
    && InDirectory(w, d) && w.up.dentries[d].stage == Hashed && Positive(w, d)
    && w.inodes[w.up.dentries[d].inode.value] != LowerDirOf(w, d)
    && NoChildren(w.up, d)
    && (isDir ==> o.links == 0)
  }

  /** d_delete below: a dentry with other users is unhashed and keeps its inode;
      only for its last user does it turn negative. */
  function LowerDelete(low: Lower, l: nat, users: nat): Lower {
    if users == 1 then low.(inode := low.inode - {l}) else low.(hashed := low.hashed - {l})
  }

  function Drop(u: Upper, d: nat): Upper
    requires d in u.dentries
  {
    u.(dentries := u.dentries[d := u.dentries[d].(stage := Dropped)])
  }

  ghost function Remove(w: World, isDir: bool, d: nat, o: RemoveOutcome): (World, int)
    requires CanRemove(w, isDir, d, o)
  {
    var i := w.up.dentries[d].inode.value;
    if o.want != 0 then (w, o.want)
    else if o.remove != 0 && !(!isDir && o.remove == -EBUSY && o.silly) then (w, o.remove)
    else
      var v := if o.remove == 0
               then w.(low := LowerDelete(w.low, w.up.path[d], 2), lowerLinks := w.lowerLinks[w.inodes[i] := o.links])
               else w;
      var u := v.(up := Drop(w.up, d), links := w.links[i := v.lowerLinks[w.inodes[i]]]);
      if isDir then
        (u.(lowerLinks := u.lowerLinks[LowerDirOf(w, d) := o.dirLinks], links := u.links[DirOf(w, d) := o.dirLinks]), 0)
      else (u, 0)
  }

  // ---------- rename ----------

  /** The lower results, and the link counts a lower rename leaves on the two
      directories and on an inode it replaces. */
  datatype RenameOutcome = RenameOutcome(wantOld: int, wantNew: int, rename: int, oldLinks: nat, newLinks: nat,
                                         victimLinks: nat)

  /** The VFS renames between attached dentries of different inodes, onto a
      target with nothing in it; a lower directory has one dentry, so different
      directories have different inodes. */
  ghost predicate CanRename(w: World, a: nat, b: nat, o: RenameOutcome) {
    && InDirectory(w, a) && w.up.dentries[a].stage == Hashed
    && InDirectory(w, b) && !w.up.dentries[b].stage.Dropped?
    && a != b && w.up.dentries[a].inode != w.up.dentries[b].inode
    && NoChildren(w.up, b)
    && (w.low.parent[w.up.path[a]] != w.low.parent[w.up.path[b]] ==> LowerDirOf(w, a) != LowerDirOf(w, b))
    && (LowerDirOf(w, a) == LowerDirOf(w, b) ==> o.oldLinks == o.newLinks)
  }

  /** d_move below: the dentries trade parent and name; the target is unhashed. */
  function LowerMove(low: Lower, l: nat, m: nat): Lower
    requires l in low.parent && m in low.parent && l in low.name && m in low.name
  {
    low.(parent := LowerTree.Swapped(low.parent, l, m),
         name := low.name[l := low.name[m]][m := low.name[l]],
         hashed := low.hashed - {m})
  }

  /** d_move above, by the VFS. */
  function UpperMove(u: Upper, a: nat, b: nat): Upper
    requires a in u.dentries && b in u.dentries
  {
    var x, y := u.dentries[a], u.dentries[b];
    u.(dentries := u.dentries[a := x.(parent := y.parent, name := y.name)]
                             [b := y.(parent := x.parent, name := x.name, stage := Dropped)])
  }

  predicate SameInode(low: Lower, l: nat, m: nat) {
    l in low.inode && m in low.inode && low.inode[l] == low.inode[m]
  }

  /** vfs_rename below: two names of one inode are left alone, and that counts as success. */
  function LowerRename(w: World, a: nat, b: nat, o: RenameOutcome): World
    requires a in w.up.path && w.up.path[a] in w.low.parent && w.up.path[a] in w.low.name &&
             w.low.parent[w.up.path[a]] in w.low.inode
    requires b in w.up.path && w.up.path[b] in w.low.parent && w.up.path[b] in w.low.name &&
             w.low.parent[w.up.path[b]] in w.low.inode
  {
    var l, m := w.up.path[a], w.up.path[b];
    if SameInode(w.low, l, m) then w
    else
      var counts := if m in w.low.inode then w.lowerLinks[w.low.inode[m] := o.victimLinks] else w.lowerLinks;
      w.(low := LowerMove(w.low, l, m),
         lowerLinks := counts[LowerDirOf(w, b) := o.newLinks][LowerDirOf(w, a) := o.oldLinks])
  }

  /** A rename that went through: the lower move, the copied directory
      attributes, and the VFS moving the upper dentries. */
  ghost function Renamed(w: World, a: nat, b: nat, o: RenameOutcome): World
    requires CanRename(w, a, b, o)
  {
    var v := LowerRename(w, a, b, o);
    var u := v.(links := v.links[DirOf(w, b) := v.lowerLinks[LowerDirOf(w, b)]]);
    var x := if DirOf(w, b) == DirOf(w, a) then u
             else u.(links := u.links[DirOf(w, a) := v.lowerLinks[LowerDirOf(w, a)]]);
    x.(up := UpperMove(w.up, a, b))
  }

  /** Moving `a` to the place of `b` would put the lower dentry under itself. */
  ghost predicate UnderItself(w: World, a: nat, b: nat)
    requires LowerTree.Closed(w.low.parent) && InDirectory(w, a) && InDirectory(w, b)
  {
    LowerTree.Under(w.low.parent, w.up.path[a], w.low.parent[w.up.path[b]])
  }

  /** wrapfs_rename. The two trap tests are given by what they reject. */
  ghost function Rename(w: World, a: nat, b: nat, o: RenameOutcome): (World, int)
    requires LowerTree.Closed(w.low.parent) && CanRename(w, a, b, o)
  {
    if UnderItself(w, a, b) then (w, -EINVAL)
    else if UnderItself(w, b, a) then (w, -ENOTEMPTY)
    else if o.wantOld != 0 then (w, o.wantOld)
    else if o.wantNew != 0 then (w, o.wantNew)
    else if o.rename != 0 then (w, o.rename)
    else (Renamed(w, a, b, o), 0)
  }

  // ---------- setattr ----------

  ghost predicate CanSetattr(w: World, d: nat) {
    d in w.up.path && w.up.path[d] in w.low.inode && Positive(w, d)
  }

  /** wrapfs_setattr: the first error of the permission check, the size check and
      notify_change below; the link count is copied when there is none. */
  function Setattr(w: World, d: nat, changeOk: int, sizeOk: int, notify: int): (World, int)
    requires d in w.up.dentries && w.up.dentries[d].inode.Some? && w.up.dentries[d].inode.value in w.inodes
  {
    var i := w.up.dentries[d].inode.value;
    if changeOk != 0 then (w, changeOk)
    else if sizeOk != 0 then (w, sizeOk)
    else if notify != 0 then (w, notify)
    else (w.(links := w.links[i := w.lowerLinks[w.inodes[i]]]), 0)
  }

  // ---------- the ends of lives ----------

  ghost predicate CanRelease(w: World, d: nat) {
    && d in w.up.dentries && d in w.up.path && d != w.up.root
    && (forall e | e in w.up.dentries && e != d :: w.up.dentries[e].parent != d)
    && forall f | f in w.opens :: w.opens[f] != d
  }

  /** wrapfs_d_release: the lower path is forgotten with the dentry. */
  function Release(w: World, d: nat): World {
    w.(up := w.up.(dentries := w.up.dentries - {d}, path := w.up.path - {d}))
  }

  ghost predicate CanEvict(w: World, i: nat) {
    i in w.inodes && forall d | d in w.up.dentries :: w.up.dentries[d].inode != Some(i)
  }

  /** wrapfs_evict_inode. */
  function Evict(w: World, i: nat): World
    requires i in w.inodes
  {
    w.(inodes := w.inodes - {i}, grabs := w.grabs.(inodes := w.grabs.inodes - multiset{w.inodes[i]}))
  }

  /** wrapfs_open, which leaves the lower dentry in the hands of the lower file. */
  function Open(w: World, f: nat, d: nat, noMemory: bool, lowerErr: int): (World, int)
    requires d in w.up.dentries && d in w.up.path
  {
    if w.up.dentries[d].stage != Hashed then (w, -ENOENT)
    else if noMemory then (w, -ENOMEM)
    else if lowerErr != 0 then (w, lowerErr)
    else (w.(files := w.files[f := w.up.path[d]], opens := w.opens[f := d]), 0)
  }

  /** wrapfs_file_release. */
  function Close(w: World, f: nat): World {
    w.(files := w.files - {f}, opens := w.opens - {f})
  }
}
